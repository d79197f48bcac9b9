/** The document search handler of src/app/api/documents/search/route.ts: the
    checks on the request body, the early answers, and the ranking of the chat's
    stored chunks. The session, the chat lookup and the two database queries are
    parameters. */
module DocumentSearch {
  import opened Wrappers
  import opened JsBuiltins
  import opened Ranker

  /** The JSON body: `{ chatId, query, limit = 3 }`; an absent field is `None`. */
  datatype SearchRequest = SearchRequest(chatId: Option<Str>, query: Option<Str>, limit: Option<int>)

  /** What the embeddings query gave: an error, no data without an error, or
      the rows. */
  datatype EmbeddingsFetch = FetchFailed | NoRows | Rows(rows: seq<Chunk>)

  datatype SearchResponse =
    | Found(context: Str, count: nat)
    | Rejected(status: nat, message: Str)

  const Unauthenticated: Str := Lit("No autenticado")
  const MissingFields: Str := Lit("chatId y query requeridos")
  const ChatNotFound: Str := Lit("Chat no encontrado")
  const SearchFailed: Str := Lit("Error al buscar documentos")
  const InternalError: Str := Lit("Error interno del servidor")

  /** The destructuring default `limit = 3`, which applies only to an absent
      field. */
  function EffectiveLimit(limit: Option<int>): (k: int)
    ensures limit.None? ==> k == DefaultLimit
    ensures limit.Some? ==> k == limit.value
  {
    if limit.Some? then limit.value else DefaultLimit
  }

  /** The handler. `documents` is the `data` of the documents query (`None` for
      `null`). With no data and no error from the embeddings query, `results` is
      `undefined` and reading `results.map` throws, which the outer `catch`
      answers with the generic error. */
  function HandleSearch(authenticated: bool, req: SearchRequest, chatFound: bool,
                        documents: Option<seq<Str>>, embeddings: EmbeddingsFetch): (r: SearchResponse)
    ensures r.Rejected? ==> r.status in {401, 400, 404, 500}
  {
    if !authenticated then Rejected(401, Unauthenticated)
    else if !Truthy(req.chatId) || !Truthy(req.query) then Rejected(400, MissingFields)
    else if !chatFound then Rejected(404, ChatNotFound)
    else if documents.None? || |documents.value| == 0 then Found([], 0)
    else match embeddings
      case FetchFailed => Rejected(500, SearchFailed)
      case NoRows => Rejected(500, InternalError)
      case Rows(rows) =>
        var ranking := Rank(req.query.value, rows, EffectiveLimit(req.limit));
        Found(ranking.context, ranking.count)
  }

  /** A missing or empty `chatId` or `query` is refused with 400 before anything
      is looked up: the answer does not depend on the chat, documents or
      chunks. */
  lemma RejectsMissingFields(req: SearchRequest, chatFound: bool, documents: Option<seq<Str>>,
                             embeddings: EmbeddingsFetch)
    requires !Truthy(req.chatId) || !Truthy(req.query)
    ensures HandleSearch(true, req, chatFound, documents, embeddings) == Rejected(400, MissingFields)
  {
  }

  /** A chat without documents answers with an empty context and a count of
      zero, whatever the embeddings query would give. */
  lemma NoDocumentsNoContext(req: SearchRequest, documents: Option<seq<Str>>, embeddings: EmbeddingsFetch)
    requires Truthy(req.chatId) && Truthy(req.query)
    requires documents.None? || documents.value == []
    ensures HandleSearch(true, req, true, documents, embeddings) == Found([], 0)
  {
  }

  /** When the handler answers with results, they are the ranker's with the
      request's limit (3 when absent) over the fetched chunks; the count is at
      most that limit when it is not negative, at most the number of chunks, and
      zero exactly when the context is empty. */
  lemma FoundIsRanking(authenticated: bool, req: SearchRequest, chatFound: bool,
                       documents: Option<seq<Str>>, embeddings: EmbeddingsFetch)
    requires HandleSearch(authenticated, req, chatFound, documents, embeddings).Found?
    requires embeddings.Rows? && documents.Some? && documents.value != []
    ensures var r := HandleSearch(authenticated, req, chatFound, documents, embeddings);
            r == Found(Rank(req.query.value, embeddings.rows, EffectiveLimit(req.limit)).context,
                       Rank(req.query.value, embeddings.rows, EffectiveLimit(req.limit)).count) &&
            (0 <= EffectiveLimit(req.limit) ==> r.count <= EffectiveLimit(req.limit)) &&
            r.count <= |embeddings.rows| &&
            (r.context == [] <==> r.count == 0)
  {
    var k := EffectiveLimit(req.limit);
    RankCount(req.query.value, embeddings.rows, k);
    ContextEmptyIffNoResults(req.query.value, embeddings.rows, k);
  }

  /** Without a `limit`, at most three blocks come back. */
  lemma DefaultLimitThree(req: SearchRequest, documents: Option<seq<Str>>, embeddings: EmbeddingsFetch)
    requires req.limit.None?
    requires HandleSearch(true, req, true, documents, embeddings).Found?
    ensures HandleSearch(true, req, true, documents, embeddings).count <= 3
  {
    if documents.Some? && documents.value != [] {
      RankCount(req.query.value, embeddings.rows, DefaultLimit);
    }
  }

  /** The handler answers with results exactly when the session, both fields and
      the chat are present and either there are no documents or the chunks were
      fetched. */
  lemma FoundExactly(authenticated: bool, req: SearchRequest, chatFound: bool,
                     documents: Option<seq<Str>>, embeddings: EmbeddingsFetch)
    ensures HandleSearch(authenticated, req, chatFound, documents, embeddings).Found? <==>
            authenticated && Truthy(req.chatId) && Truthy(req.query) && chatFound &&
            (documents.None? || documents.value == [] || embeddings.Rows?)
  {
  }
}
