# Document retrieval core of the chat assistant

This project models, in Dafny, the retrieval pipeline of a Next.js chat
assistant. Users upload text documents to a chat. Each document is stored with a
placeholder fingerprint, and users then ask questions. Before a question goes to
the language model, the stored chunks of the chat are ranked against it, and the
best ones are formatted into a context that is placed in the system prompt.

The model has eight modules:

- `Wrappers`: `Option` and `Result`.
- `JsBuiltins`: the JavaScript built-ins the core relies on, over UTF-16 code
  units (`Str = seq<CodeUnit>`):
  - `toLowerCase`, restricted to Basic Latin and Latin-1 (see "Left out"), and
    the `\s` class, stated exactly.
  - `split(/\s+/)`, with its empty leading or trailing piece and `[""]` for `""`.
  - `includes`, `join`, and `slice(0, end)` with a negative end.
  - `ToInt32`, `<< 5`, and the truncating `%`.
- `Ranker`: the lexical ranker.
  - Scoring is a loop (`ScoreContent`, `ScoreChunks`, `RankChunks`) proved equal
    to a recursive count.
  - Filter, stable sort, slice and formatting are functions.
  - The search route and the chat route both run `Rank`.
- `OpenRouter`: system-prompt choice, the outgoing message list, the `||`
  defaults, the empty-reply error, and the three placeholder helpers.
- `DocumentSearch`: the search handler, as a function of the request and of what
  the database returned.
- `ChatRespond`: the chat handler up to the model call. It covers the
  conversation, the retrieved context (a method that assigns `ragContext` as the
  route does) and the request sent to the model.
- `DocumentUpload`: the upload handler up to the two inserts.
  - `generateSimpleEmbedding` is a method over a 384-slot `array`, with nested
    loops.
  - Those loops are proved against the pure `WordHash` and `Fingerprint`.
- `Scenarios`: worked examples of the ranker on concrete queries and chunks.

Interfaces outside the model appear as parameters:

- The session becomes `authenticated`.
- The chat lookup becomes `chatFound`.
- The database reads become `documents`, `embeddings`, `history` and `fetch`.
- The document insert's id becomes `documentId`.
- The model name from the environment becomes `modelEnv`.
- The model's reply becomes `choices`.
- The upload timestamp becomes `uploadDate`.

Three behaviours of the code are worth knowing, and the model keeps them:

- **Empty tokens in the query.** A query that is empty, or starts or ends with
  white space, splits into a list that contains the empty word. It is not an
  empty list. The empty word occurs in every content, so every chunk then scores
  at least 1 (`Ranker.EdgeSpaceMatchesEveryChunk`).
- **Ties.** The order of equal scores is fixed by the stability of
  `Array.prototype.sort`, which ECMAScript 2019 requires (section 22.1.3.27 of
  ECMA-262, 10th edition). Equal scores keep their input order.
- **`limit` in the search route.** `limit` defaults to 3 only when it is absent.
  A negative `limit` counts back from the end, as `slice` does.

## Model

| member | source | states |
|---|---|---|
| JsBuiltins.ToLower | src/app/api/documents/search/route.ts:72 | lowercasing keeps the length and maps each code unit on its own, so it keeps white space white space |
| JsBuiltins.ToLowerAppend | src/app/api/documents/search/route.ts:75 | lowercasing distributes over concatenation |
| JsBuiltins.Split | src/app/api/documents/search/route.ts:72 | `split(/\s+/)` yields at least one piece, and no piece holds white space |
| JsBuiltins.SplitKeepsNonSpace | src/app/api/documents/search/route.ts:72 | the pieces put back together are the input with its white space removed |
| JsBuiltins.SplitFirstEmpty | src/app/api/documents/search/route.ts:72 | the first piece is empty if and only if the input is empty or starts with white space |
| JsBuiltins.SplitLastEmpty | src/app/api/documents/search/route.ts:72 | the last piece is empty if and only if the input is empty or ends with white space |
| JsBuiltins.SplitRoundTrip | src/app/api/documents/search/route.ts:72 | the pieces, with the white-space runs that separate them put back between them, are the input again; there is one run fewer than pieces, and each run is non-empty and all white space |
| JsBuiltins.NoSpaceSplit | src/app/api/documents/search/route.ts:72 | a string without white space splits into exactly itself |
| JsBuiltins.SplitInteriorNonEmpty | src/app/api/documents/search/route.ts:72 | every piece other than the first and the last is non-empty |
| JsBuiltins.IncludesIffOccurs | src/app/api/documents/search/route.ts:80 | `includes` holds if and only if the word occurs at some position of the content |
| JsBuiltins.IncludesExtend | src/app/api/documents/search/route.ts:80 | adding text before or after a string keeps every word it includes |
| JsBuiltins.JoinWith | src/app/api/documents/search/route.ts:99 | joining no parts gives `""`; joining parts starts with the first part |
| JsBuiltins.JoinWithLength | src/app/api/documents/search/route.ts:99 | the joined length is the parts' lengths plus one separator between each two parts |
| JsBuiltins.JoinWithEmptyIff | src/app/api/documents/search/route.ts:99 | joining non-empty parts gives `""` if and only if there are no parts |
| JsBuiltins.SliceEnd | src/app/api/documents/search/route.ts:94 | `slice(0, end)` keeps `min(end, len)` elements for an end that is not negative, and `max(len + end, 0)` for a negative end; `Ranker.RankCount` carries this to the route's count |
| JsBuiltins.SliceTo | src/app/api/documents/search/route.ts:94 | the slice is the leading part of the input of that length |
| JsBuiltins.ShiftLeft5 | src/app/api/documents/upload/route.ts:129 | `<< 5` gives a signed 32-bit integer congruent to 32 times the 32-bit value of its operand, modulo 2^32 |
| JsBuiltins.ToInt32 | src/app/api/documents/upload/route.ts:129 | the result is a signed 32-bit integer congruent to the input modulo 2^32 |
| JsBuiltins.ToInt32Congruent | src/app/api/documents/upload/route.ts:128-129 | numbers congruent modulo 2^32 convert to the same 32-bit integer |
| JsBuiltins.ToInt32OfInt32 | src/app/api/documents/upload/route.ts:129 | `hash & hash` leaves a 32-bit integer unchanged |
| JsBuiltins.TruncRem | src/app/api/documents/upload/route.ts:131 | `%` lies strictly between `-d` and `d` and takes the sign of the dividend |
| JsBuiltins.TruncRemCongruent | src/app/api/documents/upload/route.ts:131 | `%` differs from the dividend by a multiple of the divisor, and equals the Euclidean remainder for a dividend that is not negative |
| Ranker.Words | src/app/api/documents/search/route.ts:72 | a query lowercases and splits into at least one word, none holding white space |
| Ranker.MatchCount | src/app/api/documents/search/route.ts:79-83 | the count never exceeds the number of query words |
| Ranker.ScoreContent | src/app/api/documents/search/route.ts:75-83 | the scoring loop computes exactly `Score`, the recursive count over the lowercased content |
| Ranker.MatchCountIsPositions | src/app/api/documents/search/route.ts:72-83 | the score is the number of indices of the query whose word occurs in the content, so duplicates count |
| Ranker.MatchCountAppend | src/app/api/documents/search/route.ts:79-83 | the count of a concatenated query is the sum of the counts of its parts |
| Ranker.RepeatedWordCountsEachTime | src/app/api/documents/search/route.ts:79-83 | a matching word repeated `n` times in the query adds exactly `n` |
| Ranker.RepeatAllMatch | src/app/api/documents/search/route.ts:79-83 | a query of `n` copies of a matching word scores `n` |
| Ranker.ScoreGrowsWithContent | src/app/api/documents/search/route.ts:75-83 | adding text to a chunk's content never lowers its score |
| Ranker.MatchCountGrows | src/app/api/documents/search/route.ts:79-83 | adding text before or after the content never lowers the count |
| Ranker.EdgeSpaceMatchesEveryChunk | src/app/api/documents/search/route.ts:72-83 | an empty query, or one that starts or ends with white space, makes every chunk score at least 1 |
| Ranker.ScoreAll | src/app/api/documents/search/route.ts:73-91 | the `map` step keeps one scored entry per chunk |
| Ranker.ScoreChunks | src/app/api/documents/search/route.ts:73-91 | running the scoring loop per chunk gives `ScoreAll`, each entry keeping the chunk's id, content and metadata |
| Ranker.WithScoreMembers | src/app/api/documents/search/route.ts:93 | a tie group holds exactly the entries with that score |
| Ranker.Positive | src/app/api/documents/search/route.ts:92 | the filter keeps exactly the entries with a positive score, and never more entries than the input |
| Ranker.PositiveKeepsTieGroups | src/app/api/documents/search/route.ts:92 | the filter keeps every positive tie group whole and in order, and drops the group of score 0 |
| Ranker.Insert | src/app/api/documents/search/route.ts:93 | inserting adds exactly one element, as a multiset |
| Ranker.SortByScore | src/app/api/documents/search/route.ts:93 | the sort is a permutation of its input |
| Ranker.InsertAtLeast | src/app/api/documents/search/route.ts:93 | inserting keeps a lower bound on all scores |
| Ranker.InsertSorted | src/app/api/documents/search/route.ts:93 | inserting into a sorted sequence keeps it sorted |
| Ranker.InsertTieGroup | src/app/api/documents/search/route.ts:93 | inserting appends the element to its own tie group and leaves all other groups unchanged |
| Ranker.SortByScoreSorted | src/app/api/documents/search/route.ts:93 | the sort yields non-increasing scores |
| Ranker.SortByScoreStable | src/app/api/documents/search/route.ts:93 | the sort is stable: each tie group comes out in input order |
| Ranker.WithScoreLast | src/app/api/documents/search/route.ts:93 | the last entry ends its own tie group |
| Ranker.SortedLastIsLeast | src/app/api/documents/search/route.ts:93 | the last entry of a sorted sequence has the least score |
| Ranker.SameTieGroupsSameLast | src/app/api/documents/search/route.ts:93 | two sorted sequences with equal tie groups end with the same entry |
| Ranker.TieGroupsDetermineOrder | src/app/api/documents/search/route.ts:93 | two sorted sequences with equal tie groups are equal, so a stable descending sort has only one possible result |
| Ranker.RankResults | src/app/api/documents/search/route.ts:85-94 | never more results than chunks, nor more than a limit that is not negative; `Ranker.ResultsComeFromChunks`, `Ranker.ResultsSorted` and `Ranker.ResultsAreStableTop` state what the results are |
| Ranker.Label | src/app/api/documents/search/route.ts:98 | a block's label is never empty |
| Ranker.Block | src/app/api/documents/search/route.ts:98 | a block is `[Documento: ` followed by the label, `]\n` and the result's content, which ends the block |
| Ranker.Blocks | src/app/api/documents/search/route.ts:97-98 | one block per result |
| Ranker.FormatContext | src/app/api/documents/search/route.ts:97-99 | no results give `""`; otherwise the context starts with the first result's block; `Scenarios.TwoBlocksFormat` shows two blocks joined by the separator |
| Ranker.Rank | src/app/api/documents/search/route.ts:72-105 | the count is at most the number of chunks and a limit that is not negative, and a count of 0 comes with an empty context; `Ranker.RankCount` and `Ranker.ContextEmptyIffNoResults` state the rest |
| Ranker.RankChunks | src/app/api/documents/search/route.ts:72-99 | the route's split, scoring loops, filter, sort, slice and format compute `Rank` |
| Ranker.RankCount | src/app/api/documents/search/route.ts:94 | `count` is the limit clamped as `slice` clamps it; it is at most the number of positive-score chunks, and at most the limit when the limit is not negative |
| Ranker.ResultsComeFromChunks | src/app/api/documents/search/route.ts:85-92 | every result has a positive score and is some input chunk with its id, content and metadata unchanged |
| Ranker.ResultsSorted | src/app/api/documents/search/route.ts:93 | the results are in non-increasing score order |
| Ranker.WithScorePrefix | src/app/api/documents/search/route.ts:94 | cutting a sequence keeps a leading part of each tie group |
| Ranker.ResultsKeepInputOrder | src/app/api/documents/search/route.ts:92-94 | for every positive score, the results with that score are a leading part of the input chunks with that score, in input order |
| Ranker.ResultsAreStableTop | src/app/api/documents/search/route.ts:92-94 | the results are the first `count` entries of the one sorted order that keeps the input order within ties |
| Ranker.ContextEmptyIffNoResults | src/app/api/documents/search/route.ts:97-99 | the context is empty if and only if the count is 0 |
| Ranker.ContextStartsWithBest | src/app/api/documents/search/route.ts:97-99 | a non-empty context starts with the block `[Documento: label]\n` followed by the best result's content |
| Ranker.RankNoChunks | src/app/api/documents/search/route.ts:73-105 | no chunks give an empty context and a count of 0 |
| OpenRouter.SystemPrompt | src/lib/openrouter.ts:32-34 | a truthy context gives the fixed prefix, the context and the fixed suffix; otherwise the fixed default; `OpenRouter.SystemPromptCarriesContext` and `OpenRouter.SystemPromptInjective` state that the context is recoverable |
| OpenRouter.SystemPromptCarriesContext | src/lib/openrouter.ts:32-34 | a prompt with a context differs from the default, and the context can be read back at a fixed offset |
| OpenRouter.SystemPromptInjective | src/lib/openrouter.ts:32-34 | different non-empty contexts give different prompts |
| OpenRouter.OutgoingMessages | src/lib/openrouter.ts:36-42 | the message list is the system message, then the input messages in order and unchanged |
| OpenRouter.MaxTokens | src/lib/openrouter.ts:48 | the given value when it is present and not 0, otherwise 1000 |
| OpenRouter.ModelName | src/lib/openrouter.ts:29 | the environment's model name when it is truthy; never empty |
| OpenRouter.BuildRequest | src/lib/openrouter.ts:44-49 | the request carries a model, a non-zero token limit, and one system message before the context's messages |
| OpenRouter.ReadReply | src/lib/openrouter.ts:51-57 | a reply is returned if and only if the first choice has non-empty content; otherwise the error "Sin respuesta de Ollama" |
| OpenRouter.GenerateEmbeddings | src/lib/openrouter.ts:67-71 | 1536 zeros |
| OpenRouter.ProcessDocumentForRag | src/lib/openrouter.ts:81-93 | the content is "Contenido del documento: " followed by the path; the embeddings are the placeholder zeros; `OpenRouter.ProcessedContentNamesPath` states the path can be read back |
| OpenRouter.ProcessedContentNamesPath | src/lib/openrouter.ts:90 | the processed content determines the path |
| OpenRouter.Contents | src/lib/openrouter.ts:118 | the documents' contents, in order |
| OpenRouter.RetrieveRelevantDocuments | src/lib/openrouter.ts:103-121 | `""` if and only if there are no documents, and otherwise the text starts with "Documentos relevantes:\n"; `OpenRouter.RetrieveSpec` states the whole text |
| OpenRouter.RetrieveSpec | src/lib/openrouter.ts:112-121 | `""` if and only if there are no documents; otherwise "Documentos relevantes:\n" followed by the first `min(topK, n)` contents joined by blank lines |
| OpenRouter.RetrieveIgnoresQuery | src/lib/openrouter.ts:103-121 | the answer does not depend on the query |
| DocumentSearch.EffectiveLimit | src/app/api/documents/search/route.ts:15 | an absent `limit` is 3; a given one is kept; `DocumentSearch.DefaultLimitThree` carries this to the answer |
| DocumentSearch.HandleSearch | src/app/api/documents/search/route.ts:5-113 | every refusal carries one of the statuses 401, 400, 404 and 500 |
| DocumentSearch.RejectsMissingFields | src/app/api/documents/search/route.ts:17-22 | a missing or empty `chatId` or `query` gives 400 "chatId y query requeridos", whatever the database holds |
| DocumentSearch.NoDocumentsNoContext | src/app/api/documents/search/route.ts:47-53 | a chat without documents gives `context ""` and `count 0` |
| DocumentSearch.FoundIsRanking | src/app/api/documents/search/route.ts:71-105 | a found answer is `Rank` over the fetched chunks with the request's limit; its count is at most the limit and the number of chunks, and is 0 if and only if the context is empty |
| DocumentSearch.DefaultLimitThree | src/app/api/documents/search/route.ts:15 | without a `limit`, at most three blocks come back |
| DocumentSearch.FoundExactly | src/app/api/documents/search/route.ts:8-69 | an answer with results comes if and only if the session, both fields and the chat are present and either there are no documents or the embeddings query returned rows |
| ChatRespond.ConversationContext | src/app/api/chat/respond/route.ts:70-73 | the history, unchanged and in order, followed by exactly one user message with the request's text |
| ChatRespond.RagContext | src/app/api/chat/respond/route.ts:76-128 | `""` when the queries threw, or when there are no documents or no chunks |
| ChatRespond.RetrieveRagContext | src/app/api/chat/respond/route.ts:76-128 | the assignments to `ragContext` compute `RagContext` |
| ChatRespond.PrepareRespond | src/app/api/chat/respond/route.ts:13-136 | the model is called if and only if the session, both fields, the chat and the history are present; it is called with the conversation, 1000 tokens and the retrieved context |
| ChatRespond.RejectsMissingFields | src/app/api/chat/respond/route.ts:23-28 | a missing or empty `chatId` or `userMessage` gives 400 "chatId y userMessage son requeridos" before any lookup or ranking |
| ChatRespond.SameRankerAsSearch | src/app/api/chat/respond/route.ts:95-122 | the chat route's ranker keeps at most 3 blocks and gives the search route's context for the same message and chunks without a `limit` |
| ChatRespond.EmptyRagUsesDefaultPrompt | src/app/api/chat/respond/route.ts:76-136 | without ranked chunks, the context is `""` and the model gets the default system prompt |
| ChatRespond.RequestSentToModel | src/app/api/chat/respond/route.ts:131-136 | the model receives the system prompt, the history and the user's message, in that order, with 1000 tokens |
| ChatRespond.MatchingChunksReachPrompt | src/app/api/chat/respond/route.ts:95-136 | when some chunk matches, the system prompt is the fixed prefix, the ranked context and the fixed suffix |
| DocumentUpload.HashStep | src/app/api/documents/upload/route.ts:128-129 | every step of the hash yields a signed 32-bit integer |
| DocumentUpload.WordHash | src/app/api/documents/upload/route.ts:126-130 | the hash of a word is a signed 32-bit integer |
| DocumentUpload.HashStepIsTimes31 | src/app/api/documents/upload/route.ts:128-129 | `((h << 5) - h) + c` followed by `& hash` equals `ToInt32(31 * h + c)` |
| DocumentUpload.WordHashIsPolynomial | src/app/api/documents/upload/route.ts:126-130 | the word hash is the base-31 polynomial of the code units, reduced to 32 bits |
| DocumentUpload.SlotValue | src/app/api/documents/upload/route.ts:131 | the numerator of a slot lies strictly between -100 and 100, is congruent to the hash modulo 100, is not negative for a hash that is not negative, and not positive for a hash that is not positive |
| DocumentUpload.Fingerprint | src/app/api/documents/upload/route.ts:118 | the fingerprint has exactly 384 slots |
| DocumentUpload.GenerateSimpleEmbedding | src/app/api/documents/upload/route.ts:116-135 | the nested loops return a new array of 384 slots that equals `Fingerprint(text)`, so equal texts give equal arrays |
| DocumentUpload.FingerprintSlots | src/app/api/documents/upload/route.ts:118-132 | slot i of the first `min(words, 384)` holds the slot value of word i; every slot lies in (-100, 100); slots from the word count on are 0 |
| DocumentUpload.FingerprintSeesFirstWords | src/app/api/documents/upload/route.ts:124 | only the first 384 words affect the fingerprint |
| DocumentUpload.SingleWordFingerprint | src/app/api/documents/upload/route.ts:121-132 | a text without white space sets slot 0 only |
| DocumentUpload.PrepareUpload | src/app/api/documents/upload/route.ts:5-102 | 401, 400 "Archivo y chatId requeridos", 404 and 500 in that order of checks; otherwise the document row and the embeddings row, which carries the text's fingerprint and the file's metadata |
| DocumentUpload.StoredRowLabel | src/app/api/documents/upload/route.ts:84-88 | a stored row is labelled in the context with the file's name, or "sin nombre" when the name is empty |
| Scenarios.SubstringScores | src/app/api/documents/search/route.ts:79-83 | the query "cat" scores 1 against "category theory", because `includes` tests substrings, not words |
| Scenarios.TwoBlocksFormat | src/app/api/documents/search/route.ts:97-99 | two results, the first from "a.txt" and the second without a file name, give exactly "[Documento: a.txt]\nfoo", the separator "\n\n---\n\n" and "[Documento: sin nombre]\nbar" |
| Scenarios.MistralWords | src/app/api/documents/search/route.ts:72 | the query "mistral modelo" splits into the words "mistral" and "modelo" |
| Scenarios.NotesScoresTwo | src/app/api/documents/search/route.ts:75-83 | both words occur in "Modelo mistral" once it is lowercased, so it scores 2 |
| Scenarios.OtherScoresZero | src/app/api/documents/search/route.ts:75-83 | neither word occurs in "Sin relación", so it scores 0 |
| Scenarios.MistralScenario | src/app/api/documents/search/route.ts:72-105 | ranking those two chunks for "mistral modelo" with limit 3 drops the second and gives one block labelled "notes.txt" with a count of 1 |

## Left out

- Authentication (NextAuth sessions) is left out. It is reduced to the boolean `authenticated`.
- All database reads and writes are left out. Their results are parameters:
  - ownership checks;
  - the 20-message history limit;
  - saving the two chat messages and their error answers;
  - the `updated_at` update.
- The HTTP layer is left out: JSON and form parsing, response objects, and the error answers of the outer `catch` blocks other than the one for embeddings missing without an error.
- The chat route's classification of thrown errors (an "API key" message) is left out, and so is the call to the completion service. Its reply is the input `choices` of `OpenRouter.ReadReply`.
- `temperature` is left out, because it is a floating-point value.
- Field types are assumed. The model does not cover a non-string `query` or `userMessage` (these throw in the source) or a `null` chunk content.
- DocumentSearch.EffectiveLimit: takes only an absent or integer `limit`. In the source `slice` converts any other `limit` with ToIntegerOrInfinity (section 7.1.5 of ECMA-262, 12th edition): `2.5` and `"2"` act as 2, `null` and `NaN` act as 0, and `Infinity` keeps everything.
- ChatRespond.PrepareRespond: a `null` history without an error, which would make the spread throw, is not modelled. Its history is either an error or a list of messages.
- JsBuiltins.ToLower: covers only the capitals of Basic Latin and Latin-1. Full Unicode case mapping is not modelled, because it needs the Unicode tables. The model's map is per code unit and context-free, but JavaScript's is not: some mappings change the length, and Final_Sigma lowers "ΑΣ" to "ας" but "ΑΣΑ" to "ασα". So `JsBuiltins.ToLowerAppend` and `Ranker.ScoreGrowsWithContent` hold for the modelled map, not for every string in JavaScript.
- DocumentUpload.SlotValue: keeps the integer numerator `hash % 100`, because the stored value is the floating-point `/ 100` of it. A remainder of 0 from a negative hash is `-0` in the source and 0 here.
- Decoding the uploaded file as UTF-8 is left out. The decoded text is a parameter.
- The upload timestamp is left out. It is the parameter `uploadDate`.
- The `documents` insert's response fields (`id`, `filename`) are reduced to the id parameter.
- DocumentUpload.PrepareUpload: its document row leaves out the `user_id` column of the `documents` insert, because the session's user is outside the model. `file_url` is kept as the constant `""` that the source writes.
