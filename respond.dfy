/** The chat answer handler of src/app/api/chat/respond/route.ts, up to the call
    of `generateChatResponse`: the checks on the request body, the conversation
    handed to the model, and the retrieved context, built by the same ranker as
    the search route with the limit fixed at three. The session, the chat lookup
    and the database queries are parameters; saving the two messages afterwards
    is outside the model. */
module ChatRespond {
  import opened Wrappers
  import opened JsBuiltins
  import opened Ranker
  import opened OpenRouter
  import DocumentSearch

  /** The JSON body `{ chatId, userMessage }`; an absent field is `None`. */
  datatype RespondRequest = RespondRequest(chatId: Option<Str>, userMessage: Option<Str>)

  /** What the history query gave: an error, or the stored messages in order. */
  datatype HistoryFetch = HistoryFailed | History(messages: seq<Message>)

  /** What the retrieval block saw: a query that threw, or the `data` of the
      documents and embeddings queries (`None` for `null`). */
  datatype RagFetch = RagThrew | RagFetched(documents: Option<seq<Str>>, embeddings: Option<seq<Chunk>>)

  datatype RespondOutcome =
    | Prepared(context: ChatContext)
    | Rejected(status: nat, message: Str)

  /** The limit the chat route passes to `slice`. */
  const RespondLimit: int := 3
  /** The `maxTokens` the chat route asks for. */
  const RespondMaxTokens: int := 1000

  const Unauthenticated: Str := Lit("No autenticado")
  const MissingFields: Str := Lit("chatId y userMessage son requeridos")
  const ChatNotFound: Str := Lit("Chat no encontrado")
  const HistoryError: Str := Lit("Error al obtener historial")

  /** `[...messages, { role: 'user', content: userMessage }]`: the history in
      order, then exactly one user message. */
  function ConversationContext(history: seq<Message>, userMessage: Str): (c: seq<Message>)
    ensures |c| == |history| + 1
    ensures c[..|history|] == history
    ensures c[|history|] == Message(User, userMessage)
  {
    history + [Message(User, userMessage)]
  }

  /** Whether the retrieval block reaches the ranker: the queries did not throw,
      and both the documents and the chunks are present and not empty. */
  predicate RanksChunks(fetch: RagFetch) {
    fetch.RagFetched? &&
    fetch.documents.Some? && |fetch.documents.value| > 0 &&
    fetch.embeddings.Some? && |fetch.embeddings.value| > 0
  }

  /** The value `ragContext` ends with: the ranker's context over the chunks
      with a limit of three when the block reaches it, `''` otherwise. */
  function RagContext(userMessage: Str, fetch: RagFetch): (r: Str)
    ensures !RanksChunks(fetch) ==> r == []
  {
    if RanksChunks(fetch) then Rank(userMessage, fetch.embeddings.value, RespondLimit).context else []
  }

  /** The retrieval block as written: `ragContext` starts as `''` and is
      assigned once, inside the two checks. */
  method RetrieveRagContext(userMessage: Str, fetch: RagFetch) returns (ragContext: Str)
    ensures ragContext == RagContext(userMessage, fetch)
  {
    ragContext := [];
    if fetch.RagFetched? {
      if fetch.documents.Some? && |fetch.documents.value| > 0 {
        if fetch.embeddings.Some? && |fetch.embeddings.value| > 0 {
          var ranking := RankChunks(userMessage, fetch.embeddings.value, RespondLimit);
          ragContext := ranking.context;
        }
      }
    }
  }

  /** The handler up to `generateChatResponse`: the context it is called with,
      or the answer given before it. */
  function PrepareRespond(authenticated: bool, req: RespondRequest, chatFound: bool,
                          history: HistoryFetch, fetch: RagFetch): (r: RespondOutcome)
    ensures r.Prepared? <==>
              authenticated && Truthy(req.chatId) && Truthy(req.userMessage) && chatFound && history.History?
    ensures r.Prepared? ==>
              r.context == ChatContext(ConversationContext(history.messages, req.userMessage.value),
                                       Some(RespondMaxTokens),
                                       Some(RagContext(req.userMessage.value, fetch)))
  {
    if !authenticated then Rejected(401, Unauthenticated)
    else if !Truthy(req.chatId) || !Truthy(req.userMessage) then Rejected(400, MissingFields)
    else if !chatFound then Rejected(404, ChatNotFound)
    else if history.HistoryFailed? then Rejected(500, HistoryError)
    else
      var msg := req.userMessage.value;
      Prepared(ChatContext(ConversationContext(history.messages, msg), Some(RespondMaxTokens),
                           Some(RagContext(msg, fetch))))
  }

  /** A missing or empty `chatId` or `userMessage` is refused with 400 before
      any lookup or ranking. */
  lemma RejectsMissingFields(req: RespondRequest, chatFound: bool, history: HistoryFetch, fetch: RagFetch)
    requires !Truthy(req.chatId) || !Truthy(req.userMessage)
    ensures PrepareRespond(true, req, chatFound, history, fetch) == Rejected(400, MissingFields)
  {
  }

  /** The chat route's ranker keeps at most three blocks, and its context is the
      search route's answer for the same message and chunks when the request
      has no `limit`. */
  lemma SameRankerAsSearch(chatId: Str, userMessage: Str, documents: seq<Str>, rows: seq<Chunk>)
    requires chatId != [] && userMessage != [] && documents != [] && rows != []
    ensures Rank(userMessage, rows, RespondLimit).count <= 3
    ensures var fetch := RagFetched(Some(documents), Some(rows));
            var found := DocumentSearch.HandleSearch(true, DocumentSearch.SearchRequest(Some(chatId), Some(userMessage), None),
                                                     true, Some(documents), DocumentSearch.Rows(rows));
            found.Found? && RagContext(userMessage, fetch) == found.context
  {
    RankCount(userMessage, rows, RespondLimit);
  }

  /** No documents, no chunks or a thrown query leave the context empty, and the
      model then gets the default system prompt. */
  lemma EmptyRagUsesDefaultPrompt(authenticated: bool, req: RespondRequest, chatFound: bool,
                                  history: HistoryFetch, fetch: RagFetch, modelEnv: Option<Str>)
    requires PrepareRespond(authenticated, req, chatFound, history, fetch).Prepared?
    requires !RanksChunks(fetch)
    ensures var c := PrepareRespond(authenticated, req, chatFound, history, fetch).context;
            c.ragContext == Some([]) && BuildRequest(c, modelEnv).messages[0] == Message(System, DefaultPrompt)
  {
  }

  /** What is sent to the model: the system prompt chosen from the retrieved
      context, then the history in order, then the user's message; with a limit
      of 1000 tokens. */
  lemma RequestSentToModel(authenticated: bool, req: RespondRequest, chatFound: bool,
                           history: HistoryFetch, fetch: RagFetch, modelEnv: Option<Str>)
    requires PrepareRespond(authenticated, req, chatFound, history, fetch).Prepared?
    ensures var c := PrepareRespond(authenticated, req, chatFound, history, fetch).context;
            var msg := req.userMessage.value;
            BuildRequest(c, modelEnv).messages ==
              [Message(System, SystemPrompt(Some(RagContext(msg, fetch))))] + history.messages + [Message(User, msg)] &&
            BuildRequest(c, modelEnv).maxTokens == RespondMaxTokens
  {
  }

  /** Chunks that match the message put their context into the system prompt,
      between the fixed prefix and suffix. */
  lemma MatchingChunksReachPrompt(authenticated: bool, req: RespondRequest, chatFound: bool,
                                  history: HistoryFetch, fetch: RagFetch)
    requires PrepareRespond(authenticated, req, chatFound, history, fetch).Prepared?
    requires RanksChunks(fetch)
    requires Rank(req.userMessage.value, fetch.embeddings.value, RespondLimit).count > 0
    ensures var rag := Rank(req.userMessage.value, fetch.embeddings.value, RespondLimit).context;
            SystemPrompt(PrepareRespond(authenticated, req, chatFound, history, fetch).context.ragContext) ==
              RagPromptPrefix + rag + RagPromptSuffix
  {
    ContextEmptyIffNoResults(req.userMessage.value, fetch.embeddings.value, RespondLimit);
  }
}
