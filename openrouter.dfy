/** The prompt and retrieval helpers of src/lib/openrouter.ts: the choice of
    system prompt, the message list sent to the completion service, the
    defaults of the request, the check of the reply, and the placeholder
    embedding, document-processing and retrieval functions. The service call
    itself is outside the model; its reply is a parameter. */
module OpenRouter {
  import opened Wrappers
  import opened JsBuiltins

  datatype Role = User | Assistant | System

  /** `interface Message { role; content }`. */
  datatype Message = Message(role: Role, content: Str)

  /** `interface ChatContext`, without the floating-point `temperature`. */
  datatype ChatContext = ChatContext(messages: seq<Message>, maxTokens: Option<int>, ragContext: Option<Str>)

  /** What is handed to `chat.completions.create`, without `temperature`. */
  datatype CompletionRequest = CompletionRequest(model: Str, messages: seq<Message>, maxTokens: int)

  /** One entry of `response.choices`; `content` is `message?.content`, absent
      when either the message or its content is missing. */
  datatype Choice = Choice(content: Option<Str>)

  /** The opening and closing sentences both system prompts share. */
  const PromptOpening: Str := Lit("Eres un asistente inteligente")
  const PromptClosing: Str := Lit("Responde en español, de manera clara y concisa.")
  const RagPromptPrefix: Str :=
    PromptOpening + Lit(" con acceso a documentos.") + Lit(" Usa la siguiente información para responder:\n\n")
  const RagPromptSuffix: Str := Lit("\n\n") + PromptClosing
  const DefaultPrompt: Str := PromptOpening + Lit(". ") + PromptClosing
  const DefaultModel: Str := Lit("mistral")
  const DefaultMaxTokens: int := 1000
  const NoReplyError: Str := Lit("Sin respuesta de Ollama")

  // ---------------------------------------------------------------------------
  // generateChatResponse

  /** The system prompt: the retrieved context wrapped in the fixed instructions
      when there is one, the fixed default otherwise. */
  function SystemPrompt(ragContext: Option<Str>): (p: Str)
    ensures Truthy(ragContext) ==> p == RagPromptPrefix + ragContext.value + RagPromptSuffix
    ensures !Truthy(ragContext) ==> p == DefaultPrompt
  {
    if Truthy(ragContext) then RagPromptPrefix + ragContext.value + RagPromptSuffix else DefaultPrompt
  }

  /** The prompt that carries a context can be told apart from the default one, and
      the context can be read back from it. */
  lemma SystemPromptCarriesContext(ragContext: Option<Str>)
    requires Truthy(ragContext)
    ensures SystemPrompt(ragContext) != DefaultPrompt
    ensures |SystemPrompt(ragContext)| == |RagPromptPrefix| + |ragContext.value| + |RagPromptSuffix|
    ensures SystemPrompt(ragContext)[|RagPromptPrefix|..|RagPromptPrefix| + |ragContext.value|] == ragContext.value
  {
    var p := SystemPrompt(ragContext);
    var n := |PromptOpening|;
    assert p[n] == RagPromptPrefix[n] == ' ' as int;
    assert DefaultPrompt[n] == '.' as int;
  }

  /** Different non-empty contexts give different prompts. */
  lemma SystemPromptInjective(a: Str, b: Str)
    requires a != [] && b != []
    requires SystemPrompt(Some(a)) == SystemPrompt(Some(b))
    ensures a == b
  {
    SystemPromptCarriesContext(Some(a));
    SystemPromptCarriesContext(Some(b));
  }

  /** `[{ role: 'system', content: systemPrompt }, ...context.messages]`. */
  function OutgoingMessages(context: ChatContext): (ms: seq<Message>)
    ensures |ms| == |context.messages| + 1
    ensures ms[0] == Message(System, SystemPrompt(context.ragContext))
    ensures ms[1..] == context.messages
  {
    [Message(System, SystemPrompt(context.ragContext))] + context.messages
  }

  /** `context.maxTokens || 1000`: an absent or zero value is replaced. */
  function MaxTokens(maxTokens: Option<int>): (n: int)
    ensures n != 0
    ensures maxTokens.Some? && maxTokens.value != 0 ==> n == maxTokens.value
    ensures maxTokens.None? || maxTokens.value == 0 ==> n == DefaultMaxTokens
  {
    if maxTokens.Some? && maxTokens.value != 0 then maxTokens.value else DefaultMaxTokens
  }

  /** `process.env.OLLAMA_MODEL || 'mistral'`; the environment is a parameter. */
  function ModelName(env: Option<Str>): (m: Str)
    ensures m != []
    ensures Truthy(env) ==> m == env.value
  {
    if Truthy(env) then env.value else DefaultModel
  }

  /** The request `generateChatResponse` sends. */
  function BuildRequest(context: ChatContext, modelEnv: Option<Str>): (r: CompletionRequest)
    ensures r.model != [] && r.maxTokens != 0
    ensures |r.messages| == |context.messages| + 1
    ensures r.messages[0].role == System && r.messages[1..] == context.messages
  {
    CompletionRequest(ModelName(modelEnv), OutgoingMessages(context), MaxTokens(context.maxTokens))
  }

  /** `response.choices[0]?.message?.content || ''`, with an empty answer turned
      into the error thrown at the end of `generateChatResponse`. */
  function ReadReply(choices: seq<Choice>): (r: Result<Str, Str>)
    ensures r.Success? <==> |choices| > 0 && Truthy(choices[0].content)
    ensures r.Success? ==> r.value == choices[0].content.value && r.value != []
    ensures r.Failure? ==> r.error == NoReplyError
  {
    if |choices| > 0 && Truthy(choices[0].content) then Success(choices[0].content.value)
    else Failure(NoReplyError)
  }

  // ---------------------------------------------------------------------------
  // Placeholders

  const EmbeddingLength: nat := 1536

  /** `Array(1536).fill(0)`. */
  function GenerateEmbeddings(): (e: seq<int>)
    ensures |e| == EmbeddingLength
    ensures forall i :: 0 <= i < |e| ==> e[i] == 0
  {
    seq(EmbeddingLength, _ => 0)
  }

  datatype ProcessedDocument = ProcessedDocument(content: Str, embeddings: seq<int>)

  const ProcessedPrefix: Str := Lit("Contenido del documento: ")

  /** `processDocumentForRAG`: a content string naming the path, and the
      placeholder embedding. */
  function ProcessDocumentForRag(documentPath: Str): (d: ProcessedDocument)
    ensures d.content == ProcessedPrefix + documentPath
    ensures d.embeddings == GenerateEmbeddings()
  {
    ProcessedDocument(ProcessedPrefix + documentPath, GenerateEmbeddings())
  }

  /** The processed content determines the path it was built from. */
  lemma ProcessedContentNamesPath(a: Str, b: Str)
    requires ProcessDocumentForRag(a).content == ProcessDocumentForRag(b).content
    ensures a == b
  {
    var ca, cb := ProcessDocumentForRag(a).content, ProcessDocumentForRag(b).content;
    assert a == ca[|ProcessedPrefix|..];
    assert b == cb[|ProcessedPrefix|..];
  }

  datatype UserDocument = UserDocument(id: Str, content: Str, embeddings: seq<int>)

  const RetrievedHeader: Str := Lit("Documentos relevantes:\n")
  const RetrievedSeparator: Str := Lit("\n\n")
  const DefaultTopK: int := 3

  function Contents(docs: seq<UserDocument>): (cs: seq<Str>)
    ensures |cs| == |docs|
    ensures forall i :: 0 <= i < |docs| ==> cs[i] == docs[i].content
  {
    seq(|docs|, i requires 0 <= i < |docs| => docs[i].content)
  }

  /** `retrieveRelevantDocuments` as it stands: no similarity search, just the
      first `topK` documents (default three) after a header. The query is not
      used. */
  function RetrieveRelevantDocuments(query: Str, userDocuments: seq<UserDocument>, topK: Option<int>): (r: Str)
    ensures r == [] <==> userDocuments == []
    ensures userDocuments != [] ==> StartsWith(r, RetrievedHeader)
  {
    assert |RetrievedHeader| > 0;
    if |userDocuments| == 0 then []
    else
      var k := if topK.Some? then topK.value else DefaultTopK;
      RetrievedHeader + JoinWith(Contents(SliceTo(userDocuments, k)), RetrievedSeparator)
  }

  /** The answer is empty exactly when there are no documents; otherwise it is
      the header followed by the contents of the first `min(topK, n)` documents
      (for a `topK` that is not negative), in order, joined by blank lines. */
  lemma RetrieveSpec(query: Str, docs: seq<UserDocument>, topK: int)
    ensures RetrieveRelevantDocuments(query, docs, Some(topK)) == [] <==> docs == []
    ensures docs != [] && 0 <= topK ==>
              RetrieveRelevantDocuments(query, docs, Some(topK)) ==
              RetrievedHeader + JoinWith(Contents(docs[..if topK < |docs| then topK else |docs|]), RetrievedSeparator)
  {
    if docs != [] {
      assert |RetrievedHeader| > 0;
    }
  }

  /** Which documents come back does not depend on the query. */
  lemma RetrieveIgnoresQuery(q1: Str, q2: Str, docs: seq<UserDocument>, topK: Option<int>)
    ensures RetrieveRelevantDocuments(q1, docs, topK) == RetrieveRelevantDocuments(q2, docs, topK)
  {
  }
}
