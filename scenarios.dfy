/** Worked examples of the ranker on concrete queries and chunks. */
module Scenarios {
  import opened Wrappers
  import opened JsBuiltins
  import opened Ranker

  /** `includes` is a substring test, not a word test: "cat" occurs in
      "category theory", so that content scores one point for the query "cat". */
  lemma SubstringScores()
    ensures Score(Words(Lit("cat")), Lit("category theory")) == 1
  {
    var q := Lit("cat");
    CatLower();
    LettersNoSpace(q);
    NoSpaceSplit(q);
    Window([], q, Lit("egory theory"));
    IncludesIffOccurs(ToLower(Lit("category theory")), q);
    var none: seq<Str> := [];
    assert [q][..0] == none;
  }

  lemma CatLower()
    ensures ToLower(Lit("cat")) == Lit("cat")
    ensures ToLower(Lit("category theory")) == [] + Lit("cat") + Lit("egory theory")
  {
  }

  /** Two matching results, the second without a file name, render as the two
      blocks joined by the separator. */
  lemma TwoBlocksFormat(s1: nat, s2: nat)
    ensures FormatContext([Scored(Lit("1"), Lit("foo"), s1, Some(Metadata(Some(Lit("a.txt")), None, None))),
                           Scored(Lit("2"), Lit("bar"), s2, Some(Metadata(None, None, None)))]) ==
            Lit("[Documento: a.txt]\nfoo") + Lit("\n\n---\n\n") + Lit("[Documento: sin nombre]\nbar")
  {
    var r1 := Scored(Lit("1"), Lit("foo"), s1, Some(Metadata(Some(Lit("a.txt")), None, None)));
    var r2 := Scored(Lit("2"), Lit("bar"), s2, Some(Metadata(None, None, None)));
    assert Block(r1) == Lit("[Documento: a.txt]\nfoo");
    assert Block(r2) == Lit("[Documento: sin nombre]\nbar");
    assert Blocks([r1, r2]) == [Block(r1), Block(r2)];
    assert [Block(r1), Block(r2)][1..] == [Block(r2)];
    assert JoinWith([Block(r1), Block(r2)], Separator) == Block(r1) + Separator + Block(r2);
  }

  const MistralQuery: Str := Lit("mistral modelo")
  const NotesText: Str := Lit("Modelo mistral")
  const OtherText: Str := Lit("Sin relación")
  const NotesChunk: Chunk := Chunk(Lit("1"), NotesText, Some(Metadata(Some(Lit("notes.txt")), None, None)))
  const OtherChunk: Chunk := Chunk(Lit("2"), OtherText, Some(Metadata(Some(Lit("x.txt")), None, None)))

  /** Two words with one white-space code unit between them split into those
      two words. */
  lemma SplitTwoWords(a: Str, sp: CodeUnit, b: Str)
    requires NoSpace(a) && IsSpace(sp) && NoSpace(b)
    ensures Split(a + [sp] + b) == [a, b]
  {
    var s := a + [sp] + b;
    assert forall k :: 0 <= k < |a| ==> s[k] == a[k];
    assert s[|a|] == sp;
    assert NextSpace(s, 0) == |a|;
    assert |a| + 1 < |s| ==> s[|a| + 1] == b[0];
    assert SpaceRunEnd(s, |a|) == |a| + 1;
    assert s[..|a|] == a && s[|a| + 1..] == b;
    NoSpaceSplit(b);
  }

  lemma MistralWords()
    ensures Words(MistralQuery) == [Lit("mistral"), Lit("modelo")]
  {
    QueryLower();
    QueryWordsNoSpace();
    SplitTwoWords(Lit("mistral"), ' ' as int, Lit("modelo"));
  }

  lemma QueryLower()
    ensures ToLower(MistralQuery) == Lit("mistral") + [' ' as int] + Lit("modelo")
  {
  }

  lemma QueryWordsNoSpace()
    ensures NoSpace(Lit("mistral")) && NoSpace(Lit("modelo")) && IsSpace(' ' as int)
  {
    LettersNoSpace(Lit("mistral"));
    LettersNoSpace(Lit("modelo"));
  }

  /** A word of lower-case Basic Latin letters holds no white space. */
  lemma LettersNoSpace(w: Str)
    requires forall k :: 0 <= k < |w| ==> 'a' as int <= w[k] <= 'z' as int
    ensures NoSpace(w)
  {
  }

  lemma Window(a: Str, w: Str, b: Str)
    ensures OccursAt(a + w + b, w, |a|)
  {
    assert (a + w + b)[|a|..|a| + |w|] == w;
  }

  lemma NotesLowerAroundMistral()
    ensures ToLower(NotesText) == Lit("modelo ") + Lit("mistral") + []
  {
  }

  lemma NotesLowerAroundModelo()
    ensures ToLower(NotesText) == [] + Lit("modelo") + Lit(" mistral")
  {
  }

  /** Both query words occur in the notes chunk. */
  lemma NotesScoresTwo()
    ensures Score([Lit("mistral"), Lit("modelo")], NotesText) == 2
  {
    NotesLowerAroundMistral();
    Window(Lit("modelo "), Lit("mistral"), []);
    NotesLowerAroundModelo();
    Window([], Lit("modelo"), Lit(" mistral"));
    IncludesIffOccurs(ToLower(NotesText), Lit("mistral"));
    IncludesIffOccurs(ToLower(NotesText), Lit("modelo"));
    var ws := [Lit("mistral"), Lit("modelo")];
    assert ws[..1] == [Lit("mistral")];
    var none: seq<Str> := [];
    assert ws[..1][..0] == none;
  }

  lemma OtherLower()
    ensures ToLower(OtherText) == Lit("sin relación")
  {
  }

  /** The lowered other text has no "m". */
  lemma NoLetterM(lc: Str)
    requires lc == Lit("sin relación")
    ensures forall i :: 0 <= i < |lc| ==> lc[i] != 'm' as int
  {
  }

  /** Neither query word occurs in the other chunk, which has no "m". */
  lemma OtherScoresZero()
    ensures Score([Lit("mistral"), Lit("modelo")], OtherText) == 0
  {
    OtherLower();
    NoLetterM(ToLower(OtherText));
    NoMatch(ToLower(OtherText), Lit("mistral"));
    NoMatch(ToLower(OtherText), Lit("modelo"));
    var ws := [Lit("mistral"), Lit("modelo")];
    assert ws[..1] == [Lit("mistral")];
    var none: seq<Str> := [];
    assert ws[..1][..0] == none;
  }

  /** A word whose first code unit does not occur in a text is not in it. */
  lemma NoMatch(lc: Str, w: Str)
    requires w != []
    requires forall i :: 0 <= i < |lc| ==> lc[i] != w[0]
    ensures !Includes(lc, w)
  {
    forall i
      ensures !OccursAt(lc, w, i)
    {
      if 0 <= i <= |lc| - |w| {
        assert lc[i..i + |w|][0] == lc[i];
      }
    }
    IncludesIffOccurs(lc, w);
  }

  /** The end-to-end example: only the notes chunk scores, so one block labelled
      with its file name comes back. */
  lemma MistralScenario()
    ensures Rank(MistralQuery, [NotesChunk, OtherChunk], 3) ==
            Ranking(Lit("[Documento: ") + Lit("notes.txt") + Lit("]\n") + NotesText, 1)
  {
    var top := Scored(NotesChunk.id, NotesText, 2, NotesChunk.metadata);
    var low := Scored(OtherChunk.id, OtherText, 0, OtherChunk.metadata);
    MistralScores(top, low);
    var all := [top, low];
    assert all[..1] == [top];
    var none: seq<Scored> := [];
    assert all[..1][..0] == none;
    assert Positive(all) == [top];
    assert SortByScore([top]) == [top];
    assert SliceTo([top], 3) == [top];
    assert RankResults(MistralQuery, [NotesChunk, OtherChunk], 3) == [top];
    assert Blocks([top]) == [Block(top)];
    assert FormatContext([top]) == Block(top);
  }

  lemma MistralScores(top: Scored, low: Scored)
    requires top == Scored(NotesChunk.id, NotesText, 2, NotesChunk.metadata)
    requires low == Scored(OtherChunk.id, OtherText, 0, OtherChunk.metadata)
    ensures ScoreAll(Words(MistralQuery), [NotesChunk, OtherChunk]) == [top, low]
  {
    MistralWords();
    NotesScoresTwo();
    OtherScoresZero();
  }
}
