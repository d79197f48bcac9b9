/** The upload handler of src/app/api/documents/upload/route.ts: the request
    checks, the placeholder fingerprint `generateSimpleEmbedding`, and the rows the
    handler hands to the database. Reading the form, decoding the file as UTF-8
    and the database itself are outside the model: the decoded text, whether the
    chat was found and the id the document insert returned are parameters. */
module DocumentUpload {
  import opened Wrappers
  import opened JsBuiltins
  import opened Ranker

  /** `new Array(384)`: the number of slots of a fingerprint. */
  const Dimensions: nat := 384

  // ---------------------------------------------------------------------------
  // The rolling word hash

  /** One step of the inner loop: `hash = ((hash << 5) - hash) + c` followed by
      `hash = hash & hash`, which brings the value back to a signed 32-bit
      integer. */
  function HashStep(hash: int, c: CodeUnit): (h: int)
    ensures IsInt32(h)
  {
    ToInt32(ShiftLeft5(hash) - hash + c)
  }

  /** The hash of a word: the inner loop run over all of its code units,
      starting from 0. */
  function WordHash(w: Str): (h: int)
    ensures IsInt32(h)
  {
    if w == [] then 0 else HashStep(WordHash(w[..|w| - 1]), w[|w| - 1])
  }

  /** The same hash over unbounded integers: `sum of w[k] * 31^(|w|-1-k)`. */
  function Polynomial(w: Str): int {
    if w == [] then 0 else 31 * Polynomial(w[..|w| - 1]) + w[|w| - 1]
  }

  lemma {:induction false} ScaleCongruent(a: int, b: int, k: int)
    requires (a - b) % TwoTo32 == 0
    ensures (k * a - k * b) % TwoTo32 == 0
  {
    var q := (a - b) / TwoTo32;
    assert a - b == TwoTo32 * q;
    assert k * a - k * b == k * (a - b);
    assert k * (a - b) == TwoTo32 * (k * q);
    MultipleMod(TwoTo32, k * q);
  }

  /** On a 32-bit hash, shifting left by five and subtracting is multiplying by
      31 modulo 2^32. */
  lemma HashStepIsTimes31(hash: int, c: CodeUnit)
    requires IsInt32(hash)
    ensures HashStep(hash, c) == ToInt32(31 * hash + c)
  {
    ToInt32OfInt32(hash);
    var s := ShiftLeft5(hash);
    assert (32 * hash - s) % TwoTo32 == 0;
    assert (31 * hash + c) - (s - hash + c) == 32 * hash - s;
    ToInt32Congruent(31 * hash + c, s - hash + c);
  }

  /** The word hash is the 32-bit image of the base-31 polynomial of the word's
      code units. */
  lemma {:induction false} WordHashIsPolynomial(w: Str)
    ensures WordHash(w) == ToInt32(Polynomial(w))
  {
    if w != [] {
      var f, c := w[..|w| - 1], w[|w| - 1];
      WordHashIsPolynomial(f);
      var h, p := WordHash(f), Polynomial(f);
      assert (p - h) % TwoTo32 == 0;
      HashStepIsTimes31(h, c);
      ScaleCongruent(p, h, 31);
      assert (31 * p + c) - (31 * h + c) == 31 * p - 31 * h;
      ToInt32Congruent(31 * p + c, 31 * h + c);
    }
  }

  // ---------------------------------------------------------------------------
  // The fingerprint

  /** `(hash % 100) / 100`, kept as its numerator: the truncating remainder of
      the word hash by 100. */
  function SlotValue(w: Str): (r: int)
    ensures -100 < r < 100
    ensures (WordHash(w) - r) % 100 == 0
    ensures WordHash(w) >= 0 ==> r == WordHash(w) % 100
    ensures WordHash(w) <= 0 ==> r <= 0
  {
    TruncRemCongruent(WordHash(w), 100);
    TruncRem(WordHash(w), 100)
  }

  /** What `generateSimpleEmbedding` returns, slot by slot: the slot value of
      the i-th word for the first `min(words, 384)` slots, 0 after them. */
  function Fingerprint(text: Str): (e: seq<int>)
    ensures |e| == Dimensions
  {
    var words := Words(text);
    seq(Dimensions, i requires 0 <= i < Dimensions => if i < |words| then SlotValue(words[i]) else 0)
  }

  /** The array version: 384 zeros, then one slot written per word. */
  method GenerateSimpleEmbedding(text: Str) returns (embedding: array<int>)
    ensures fresh(embedding)
    ensures embedding.Length == Dimensions
    ensures embedding[..] == Fingerprint(text)
  {
    embedding := new int[Dimensions](_ => 0);
    var normalized := Words(text);
    var i := 0;
    while i < |normalized| && i < embedding.Length
      invariant 0 <= i <= Dimensions && i <= |normalized|
      invariant forall k :: 0 <= k < i ==> embedding[k] == SlotValue(normalized[k])
      invariant forall k :: i <= k < Dimensions ==> embedding[k] == 0
    {
      var word := normalized[i];
      var hash := 0;
      var j := 0;
      while j < |word|
        invariant 0 <= j <= |word|
        invariant hash == WordHash(word[..j])
      {
        assert word[..j + 1][..j] == word[..j];
        hash := (ShiftLeft5(hash) - hash) + word[j];
        hash := ToInt32(hash);
        j := j + 1;
      }
      assert word[..j] == word;
      embedding[i] := TruncRem(hash, 100);
      i := i + 1;
    }
    assert forall k :: 0 <= k < Dimensions ==> embedding[k] == Fingerprint(text)[k];
  }

  /** The slots of a fingerprint: slot i of the first `min(words, 384)` holds the
      remainder of the i-th word's hash, strictly between -100 and 100; every
      later slot is 0. */
  lemma FingerprintSlots(text: Str, i: nat)
    requires i < Dimensions
    ensures i < |Words(text)| ==> Fingerprint(text)[i] == SlotValue(Words(text)[i])
    ensures -100 < Fingerprint(text)[i] < 100
    ensures i >= |Words(text)| ==> Fingerprint(text)[i] == 0
  {
  }

  /** Words beyond the 384th do not change the fingerprint: it only depends on
      the first 384 words. */
  lemma FingerprintSeesFirstWords(t1: Str, t2: Str)
    requires |Words(t1)| >= Dimensions && |Words(t2)| >= Dimensions
    requires Words(t1)[..Dimensions] == Words(t2)[..Dimensions]
    ensures Fingerprint(t1) == Fingerprint(t2)
  {
    forall i | 0 <= i < Dimensions ensures Fingerprint(t1)[i] == Fingerprint(t2)[i] {
      assert Words(t1)[i] == Words(t1)[..Dimensions][i];
      assert Words(t2)[i] == Words(t2)[..Dimensions][i];
    }
  }

  /** Text without white space is a single word, so only slot 0 is set. */
  lemma SingleWordFingerprint(text: Str)
    requires NoSpace(ToLower(text))
    ensures Fingerprint(text)[0] == SlotValue(ToLower(text))
    ensures forall i :: 1 <= i < Dimensions ==> Fingerprint(text)[i] == 0
  {
    NoSpaceSplit(ToLower(text));
  }

  // ---------------------------------------------------------------------------
  // The handler

  /** The `file` form field: its name, size, type and contents decoded as UTF-8. */
  datatype UploadFile = UploadFile(name: Str, size: nat, fileType: Str, text: Str)

  /** The row inserted into `documents`. */
  datatype DocumentRow = DocumentRow(chatId: Str, filename: Str, fileUrl: Str, fileSize: nat, fileType: Str, content: Str)

  /** The row inserted into `embeddings`. */
  datatype EmbeddingRow = EmbeddingRow(documentId: Str, content: Str, embedding: seq<int>, metadata: Metadata)

  datatype UploadOutcome =
    | Stored(document: DocumentRow, embeddingRow: EmbeddingRow)
    | Rejected(status: nat, message: Str)

  const Unauthenticated: Str := Lit("No autenticado")
  const MissingFields: Str := Lit("Archivo y chatId requeridos")
  const ChatNotFound: Str := Lit("Chat no encontrado")
  const DocumentNotSaved: Str := Lit("Error al guardar documento")

  /** The handler up to the two inserts. `documentId` is the id the document
      insert returned, `None` when it reported an error; `uploadDate` stands for
      `new Date().toISOString()`. A failure of the embeddings insert is only
      logged, so it does not change the outcome. */
  method PrepareUpload(authenticated: bool, file: Option<UploadFile>, chatId: Option<Str>, chatFound: bool,
                       documentId: Option<Str>, uploadDate: Str)
    returns (outcome: UploadOutcome)
    ensures !authenticated ==> outcome == Rejected(401, Unauthenticated)
    ensures authenticated && (file.None? || !Truthy(chatId)) ==> outcome == Rejected(400, MissingFields)
    ensures authenticated && file.Some? && Truthy(chatId) && !chatFound ==> outcome == Rejected(404, ChatNotFound)
    ensures authenticated && file.Some? && Truthy(chatId) && chatFound && documentId.None? ==>
              outcome == Rejected(500, DocumentNotSaved)
    ensures outcome.Stored? <==> authenticated && file.Some? && Truthy(chatId) && chatFound && documentId.Some?
    ensures outcome.Stored? ==>
              outcome.document == DocumentRow(chatId.value, file.value.name, [], file.value.size,
                                               file.value.fileType, file.value.text) &&
              outcome.embeddingRow == EmbeddingRow(documentId.value, file.value.text, Fingerprint(file.value.text),
                                                   Metadata(Some(file.value.name), Some(file.value.fileType), Some(uploadDate)))
  {
    if !authenticated {
      return Rejected(401, Unauthenticated);
    }
    if file.None? || !Truthy(chatId) {
      return Rejected(400, MissingFields);
    }
    if !chatFound {
      return Rejected(404, ChatNotFound);
    }
    var f := file.value;
    var embedding := GenerateSimpleEmbedding(f.text);
    var document := DocumentRow(chatId.value, f.name, [], f.size, f.fileType, f.text);
    if documentId.None? {
      return Rejected(500, DocumentNotSaved);
    }
    var metadata := Metadata(Some(f.name), Some(f.fileType), Some(uploadDate));
    outcome := Stored(document, EmbeddingRow(documentId.value, f.text, embedding[..], metadata));
  }

  /** The stored embedding row, read back by the ranker as a chunk, has the file's
      contents and is labelled with the file's name when that name is not empty. */
  lemma StoredRowLabel(name: Str, fileType: Str, uploadDate: Str)
    ensures name != [] ==> Label(Some(Metadata(Some(name), Some(fileType), Some(uploadDate)))) == name
    ensures name == [] ==> Label(Some(Metadata(Some(name), Some(fileType), Some(uploadDate)))) == Lit("sin nombre")
  {
  }
}
