/** The lexical relevance ranker of the document search route
    (src/app/api/documents/search/route.ts), which the chat route repeats with a
    fixed limit of three. A query is lowercased and split on white space; each
    stored chunk scores one point per query word that occurs in its lowercased
    content; chunks scoring zero are dropped, the rest are stably sorted by
    descending score, cut to the limit and formatted into one context string. */
module Ranker {
  import opened Wrappers
  import opened JsBuiltins

  /** The `metadata` column of an embeddings row. */
  datatype Metadata = Metadata(filename: Option<Str>, fileType: Option<Str>, uploadDate: Option<Str>)

  /** An embeddings row as selected by `select('id, content, metadata')`. */
  datatype Chunk = Chunk(id: Str, content: Str, metadata: Option<Metadata>)

  /** A chunk together with its score, as built by the `map` step. */
  datatype Scored = Scored(id: Str, content: Str, score: nat, metadata: Option<Metadata>)

  /** What the route answers with: the context string and the number of blocks. */
  datatype Ranking = Ranking(context: Str, count: nat)

  /** The `limit` used when the request body has none. */
  const DefaultLimit: int := 3

  // ---------------------------------------------------------------------------
  // Scoring

  /** `s.toLowerCase().split(/\s+/)`: how a query is cut into words, and how
      the upload route cuts a document's text. */
  function Words(s: Str): (ws: seq<Str>)
    ensures |ws| >= 1
    ensures forall w :: w in ws ==> NoSpace(w)
  {
    Split(ToLower(s))
  }

  /** How many entries of `words` (duplicates counted) occur in `text`. */
  function MatchCount(words: seq<Str>, text: Str): (n: nat)
    ensures n <= |words|
  {
    if words == [] then 0
    else MatchCount(words[..|words| - 1], text) + (if Includes(text, words[|words| - 1]) then 1 else 0)
  }

  /** A chunk's score: the matches of the query words in its lowercased content. */
  function Score(words: seq<Str>, content: Str): nat {
    MatchCount(words, ToLower(content))
  }

  /** The scoring loop of the `map` callback: lowercase the content, then add one
      for every query word the content includes. */
  method ScoreContent(queryWords: seq<Str>, text: Str) returns (score: nat)
    ensures score == Score(queryWords, text)
  {
    var content := ToLower(text);
    score := 0;
    for i := 0 to |queryWords|
      invariant score == MatchCount(queryWords[..i], content)
    {
      assert queryWords[..i + 1][..i] == queryWords[..i];
      if Includes(content, queryWords[i]) {
        score := score + 1;
      }
    }
    assert queryWords[..|queryWords|] == queryWords;
  }

  /** The positions of `words` whose word occurs in `text`. */
  function MatchingPositions(words: seq<Str>, text: Str): set<nat> {
    set i: nat | i < |words| && Includes(text, words[i])
  }

  /** The score counts positions, not distinct words: it is the number of indices
      of the query whose word occurs in the content. */
  lemma {:induction false} MatchCountIsPositions(words: seq<Str>, text: Str)
    ensures MatchCount(words, text) == |MatchingPositions(words, text)|
    decreases |words|
  {
    if words != [] {
      var n := |words| - 1;
      var front := words[..n];
      MatchCountIsPositions(front, text);
      var before := MatchingPositions(front, text);
      var matchedLast := if Includes(text, words[n]) then {n} else {};
      assert MatchingPositions(words, text) == before + matchedLast by {
        forall i: nat | i < n ensures front[i] == words[i] { }
      }
      assert before !! matchedLast;
    }
  }

  lemma {:induction false} MatchCountAppend(a: seq<Str>, b: seq<Str>, text: Str)
    ensures MatchCount(a + b, text) == MatchCount(a, text) + MatchCount(b, text)
    decreases |b|
  {
    if b == [] {
      assert a + b == a;
    } else {
      var n := |b| - 1;
      assert (a + b)[..|a + b| - 1] == a + b[..n];
      assert (a + b)[|a + b| - 1] == b[n];
      MatchCountAppend(a, b[..n], text);
    }
  }

  function Repeat(w: Str, n: nat): (r: seq<Str>)
    ensures |r| == n && forall k :: 0 <= k < n ==> r[k] == w
  {
    if n == 0 then [] else Repeat(w, n - 1) + [w]
  }

  /** A query word repeated `n` times that occurs in the text adds exactly `n`. */
  lemma {:induction false} RepeatedWordCountsEachTime(words: seq<Str>, w: Str, n: nat, text: Str)
    requires Includes(text, w)
    ensures MatchCount(words + Repeat(w, n), text) == MatchCount(words, text) + n
    decreases n
  {
    MatchCountAppend(words, Repeat(w, n), text);
    RepeatAllMatch(w, n, text);
  }

  lemma {:induction false} RepeatAllMatch(w: Str, n: nat, text: Str)
    requires Includes(text, w)
    ensures MatchCount(Repeat(w, n), text) == n
    decreases n
  {
    if n > 0 {
      assert Repeat(w, n)[..n - 1] == Repeat(w, n - 1);
      RepeatAllMatch(w, n - 1, text);
    }
  }

  /** Adding text to a chunk's content never lowers its score. */
  lemma {:induction false} ScoreGrowsWithContent(words: seq<Str>, content: Str, extra: Str)
    ensures Score(words, content) <= Score(words, content + extra)
    ensures Score(words, content) <= Score(words, extra + content)
  {
    ToLowerAppend(content, extra);
    ToLowerAppend(extra, content);
    MatchCountGrows(words, ToLower(content), ToLower(extra));
  }

  lemma {:induction false} MatchCountGrows(words: seq<Str>, text: Str, extra: Str)
    ensures MatchCount(words, text) <= MatchCount(words, text + extra)
    ensures MatchCount(words, text) <= MatchCount(words, extra + text)
    decreases |words|
  {
    if words != [] {
      var n := |words| - 1;
      MatchCountGrows(words[..n], text, extra);
      if Includes(text, words[n]) {
        IncludesExtend(text, extra, words[n]);
      }
    }
  }

  /** A query that is empty, or starts or ends with white space, splits into an
      empty first or last word; the empty word occurs in every content, so every
      chunk scores at least one and none is dropped. */
  lemma EdgeSpaceMatchesEveryChunk(query: Str, content: Str)
    requires |query| == 0 || IsSpace(query[0]) || IsSpace(query[|query| - 1])
    ensures Score(Words(query), content) >= 1
  {
    var lowered := ToLower(query);
    var words := Words(query);
    SplitFirstEmpty(lowered);
    SplitLastEmpty(lowered);
    var k := if words[0] == [] then 0 else |words| - 1;
    assert words[k] == [];
    assert Includes(ToLower(content), words[k]) by {
      assert StartsWith(ToLower(content), []);
    }
    assert k in MatchingPositions(words, ToLower(content));
    MatchCountIsPositions(words, ToLower(content));
  }

  // ---------------------------------------------------------------------------
  // map / filter

  function ScoreChunk(words: seq<Str>, c: Chunk): Scored {
    Scored(c.id, c.content, Score(words, c.content), c.metadata)
  }

  /** The `map` step: every chunk with its score, in input order. */
  function ScoreAll(words: seq<Str>, chunks: seq<Chunk>): (r: seq<Scored>)
    ensures |r| == |chunks|
  {
    seq(|chunks|, i requires 0 <= i < |chunks| => ScoreChunk(words, chunks[i]))
  }

  /** The `map` step as the route runs it: the scoring loop once per chunk, each
      chunk's id, content and metadata carried over. */
  method ScoreChunks(queryWords: seq<Str>, chunks: seq<Chunk>) returns (scored: seq<Scored>)
    ensures scored == ScoreAll(queryWords, chunks)
  {
    scored := [];
    for i := 0 to |chunks|
      invariant scored == ScoreAll(queryWords, chunks[..i])
    {
      var score := ScoreContent(queryWords, chunks[i].content);
      scored := scored + [Scored(chunks[i].id, chunks[i].content, score, chunks[i].metadata)];
    }
    assert chunks[..|chunks|] == chunks;
  }

  /** The entries of `s` that have score `v`, in order: one tie group. */
  function WithScore(s: seq<Scored>, v: nat): (r: seq<Scored>)
  {
    if s == [] then []
    else WithScore(s[..|s| - 1], v) + (if s[|s| - 1].score == v then [s[|s| - 1]] else [])
  }

  /** A tie group holds exactly the entries of that score. */
  lemma {:induction false} WithScoreMembers(s: seq<Scored>, v: nat, e: Scored)
    ensures e in WithScore(s, v) <==> e in s && e.score == v
    decreases |s|
  {
    if s != [] {
      WithScoreMembers(s[..|s| - 1], v, e);
      assert s == s[..|s| - 1] + [s[|s| - 1]];
    }
  }

  /** The `filter((r) => r.score > 0)` step. */
  function Positive(s: seq<Scored>): (r: seq<Scored>)
    ensures forall e :: e in r <==> e in s && e.score > 0
    ensures |r| <= |s|
  {
    if s == [] then []
    else Positive(s[..|s| - 1]) + (if s[|s| - 1].score > 0 then [s[|s| - 1]] else [])
  }

  /** The filter keeps every tie group of a positive score whole and in order,
      and removes the group of score zero. */
  lemma {:induction false} PositiveKeepsTieGroups(s: seq<Scored>, v: nat)
    ensures WithScore(Positive(s), v) == if v > 0 then WithScore(s, v) else []
    decreases |s|
  {
    if s != [] {
      var n := |s| - 1;
      PositiveKeepsTieGroups(s[..n], v);
      var p := Positive(s[..n]);
      if s[n].score > 0 {
        assert (p + [s[n]])[..|p|] == p;
      } else {
        assert p + [] == p;
      }
    }
  }

  // ---------------------------------------------------------------------------
  // sort((a, b) => b.score - a.score), which ECMAScript requires to be stable

  ghost predicate SortedByScore(s: seq<Scored>) {
    forall i, j :: 0 <= i < j < |s| ==> s[i].score >= s[j].score
  }

  ghost predicate AllAtLeast(s: seq<Scored>, b: nat) {
    forall i :: 0 <= i < |s| ==> s[i].score >= b
  }

  /** Puts `x` after every entry of the sorted `s` whose score is at least its own. */
  function Insert(x: Scored, s: seq<Scored>): (r: seq<Scored>)
    ensures |r| == |s| + 1
    ensures multiset(r) == multiset(s) + multiset{x}
  {
    if s == [] || s[|s| - 1].score >= x.score then s + [x]
    else
      assert s == s[..|s| - 1] + [s[|s| - 1]];
      Insert(x, s[..|s| - 1]) + [s[|s| - 1]]
  }

  /** The stable descending sort, as an insertion sort over the input order. */
  function SortByScore(s: seq<Scored>): (r: seq<Scored>)
    ensures |r| == |s|
    ensures multiset(r) == multiset(s)
  {
    if s == [] then []
    else
      assert s == s[..|s| - 1] + [s[|s| - 1]];
      Insert(s[|s| - 1], SortByScore(s[..|s| - 1]))
  }

  lemma {:induction false} InsertAtLeast(x: Scored, s: seq<Scored>, b: nat)
    requires AllAtLeast(s, b) && x.score >= b
    ensures AllAtLeast(Insert(x, s), b)
    decreases |s|
  {
    if !(s == [] || s[|s| - 1].score >= x.score) {
      InsertAtLeast(x, s[..|s| - 1], b);
    }
  }

  lemma {:induction false} InsertSorted(x: Scored, s: seq<Scored>)
    requires SortedByScore(s)
    ensures SortedByScore(Insert(x, s))
    decreases |s|
  {
    if !(s == [] || s[|s| - 1].score >= x.score) {
      var n := |s| - 1;
      var y := s[n];
      InsertSorted(x, s[..n]);
      InsertAtLeast(x, s[..n], y.score);
    }
  }

  lemma {:induction false} InsertTieGroup(x: Scored, s: seq<Scored>, v: nat)
    ensures x.score == v ==> WithScore(Insert(x, s), v) == WithScore(s, v) + [x]
    ensures x.score != v ==> WithScore(Insert(x, s), v) == WithScore(s, v)
    decreases |s|
  {
    if s == [] || s[|s| - 1].score >= x.score {
      assert (s + [x])[..|s|] == s;
    } else {
      var n := |s| - 1;
      var y := s[n];
      var r := Insert(x, s[..n]);
      InsertTieGroup(x, s[..n], v);
      assert Insert(x, s) == r + [y];
      assert (r + [y])[..|r|] == r;
      if y.score == v {
        assert WithScore(r + [y], v) == WithScore(r, v) + [y];
        assert WithScore(s, v) == WithScore(s[..n], v) + [y];
      } else {
        assert WithScore(r + [y], v) == WithScore(r, v);
        assert WithScore(s, v) == WithScore(s[..n], v);
      }
    }
  }

  /** The sort yields non-increasing scores. */
  lemma {:induction false} SortByScoreSorted(s: seq<Scored>)
    ensures SortedByScore(SortByScore(s))
    decreases |s|
  {
    if s != [] {
      SortByScoreSorted(s[..|s| - 1]);
      InsertSorted(s[|s| - 1], SortByScore(s[..|s| - 1]));
    }
  }

  /** The sort is stable: the entries of each score come out in input order. */
  lemma {:induction false} SortByScoreStable(s: seq<Scored>, v: nat)
    ensures WithScore(SortByScore(s), v) == WithScore(s, v)
    decreases |s|
  {
    if s != [] {
      var n := |s| - 1;
      SortByScoreStable(s[..n], v);
      InsertTieGroup(s[n], SortByScore(s[..n]), v);
    }
  }

  lemma WithScoreLast(s: seq<Scored>)
    requires s != []
    ensures WithScore(s, s[|s| - 1].score) == WithScore(s[..|s| - 1], s[|s| - 1].score) + [s[|s| - 1]]
  {
  }

  /** Every entry of a sorted sequence scores at least as much as its last. */
  lemma SortedLastIsLeast(a: seq<Scored>, e: Scored)
    requires SortedByScore(a) && e in a
    ensures e.score >= a[|a| - 1].score
  {
    var i :| 0 <= i < |a| && a[i] == e;
    assert i == |a| - 1 || a[i].score >= a[|a| - 1].score;
  }

  /** Two sorted sequences with the same tie groups end with the same entry. */
  lemma SameTieGroupsSameLast(a: seq<Scored>, b: seq<Scored>)
    requires SortedByScore(a) && SortedByScore(b) && a != [] && b != []
    requires forall v: nat :: WithScore(a, v) == WithScore(b, v)
    ensures a[|a| - 1] == b[|b| - 1]
  {
    var x, y := a[|a| - 1], b[|b| - 1];
    WithScoreMembers(a, x.score, x);
    WithScoreMembers(b, x.score, x);
    WithScoreMembers(a, y.score, y);
    WithScoreMembers(b, y.score, y);
    assert WithScore(a, x.score) == WithScore(b, x.score);
    assert WithScore(a, y.score) == WithScore(b, y.score);
    SortedLastIsLeast(a, y);
    SortedLastIsLeast(b, x);
    assert x.score == y.score;
    WithScoreLast(a);
    WithScoreLast(b);
  }

  lemma CancelRight(p: seq<Scored>, q: seq<Scored>, t: seq<Scored>)
    requires p + t == q + t
    ensures p == q
  {
    assert |p| == |q|;
    assert p == (p + t)[..|p|];
    assert q == (q + t)[..|q|];
  }

  /** Sortedness and stability determine the order completely: two sorted
      sequences with the same tie groups are equal. So any stable descending
      sort of the scored chunks gives exactly `SortByScore`. */
  lemma {:induction false} TieGroupsDetermineOrder(a: seq<Scored>, b: seq<Scored>)
    requires SortedByScore(a) && SortedByScore(b)
    requires forall v: nat :: WithScore(a, v) == WithScore(b, v)
    ensures a == b
    decreases |a| + |b|
  {
    if a == [] && b != [] {
      var y := b[|b| - 1];
      WithScoreMembers(b, y.score, y);
      assert false;
    } else if a != [] && b == [] {
      var x := a[|a| - 1];
      WithScoreMembers(a, x.score, x);
      assert false;
    } else if a != [] {
      var na, nb := |a| - 1, |b| - 1;
      var a', b' := a[..na], b[..nb];
      SameTieGroupsSameLast(a, b);
      forall v: nat ensures WithScore(a', v) == WithScore(b', v) {
        var last := if a[na].score == v then [a[na]] else [];
        assert WithScore(a', v) + last == WithScore(b', v) + last by {
          assert WithScore(a, v) == WithScore(b, v);
        }
        CancelRight(WithScore(a', v), WithScore(b', v), last);
      }
      TieGroupsDetermineOrder(a', b');
      assert a == a[..na] + [a[na]];
      assert b == b[..nb] + [b[nb]];
    }
  }

  // ---------------------------------------------------------------------------
  // The pipeline

  /** `scored.filter(...).sort(...).slice(0, limit)` over the query's words. */
  function RankResults(query: Str, chunks: seq<Chunk>, limit: int): (rs: seq<Scored>)
    ensures |rs| <= |chunks|
    ensures 0 <= limit ==> |rs| <= limit
  {
    SliceTo(SortByScore(Positive(ScoreAll(Words(query), chunks))), limit)
  }

  /** The label of a block: `r.metadata?.filename || 'sin nombre'`. */
  function Label(metadata: Option<Metadata>): (l: Str)
    ensures l != []
  {
    if metadata.Some? && metadata.value.filename.Some? && metadata.value.filename.value != []
    then metadata.value.filename.value
    else Lit("sin nombre")
  }

  /** One block: `[Documento: <label>]\n<content>`. */
  function Block(r: Scored): (b: Str)
    ensures StartsWith(b, Lit("[Documento: ") + Label(r.metadata) + Lit("]\n"))
    ensures |b| == |Lit("[Documento: ")| + |Label(r.metadata)| + |Lit("]\n")| + |r.content|
    ensures b[|b| - |r.content|..] == r.content
  {
    Lit("[Documento: ") + Label(r.metadata) + Lit("]\n") + r.content
  }

  function Blocks(rs: seq<Scored>): (bs: seq<Str>)
    ensures |bs| == |rs|
  {
    seq(|rs|, i requires 0 <= i < |rs| => Block(rs[i]))
  }

  const Separator: Str := Lit("\n\n---\n\n")

  /** The blocks joined with the separator. */
  function FormatContext(rs: seq<Scored>): (c: Str)
    ensures rs == [] ==> c == []
    ensures rs != [] ==> StartsWith(c, Block(rs[0]))
  {
    JoinWith(Blocks(rs), Separator)
  }

  /** The ranker: the formatted context and the number of results. */
  function Rank(query: Str, chunks: seq<Chunk>, limit: int): (r: Ranking)
    ensures r.count <= |chunks|
    ensures 0 <= limit ==> r.count <= limit
    ensures r.count == 0 ==> r.context == []
  {
    var rs := RankResults(query, chunks, limit);
    Ranking(FormatContext(rs), |rs|)
  }

  /** The ranker as the routes run it: the query split once, the scoring loop for
      every chunk, then filter, sort, slice and format. */
  method RankChunks(query: Str, chunks: seq<Chunk>, limit: int) returns (r: Ranking)
    ensures r == Rank(query, chunks, limit)
  {
    var queryWords := Split(ToLower(query));
    var scored := ScoreChunks(queryWords, chunks);
    var results := SliceTo(SortByScore(Positive(scored)), limit);
    r := Ranking(FormatContext(results), |results|);
  }

  // ---------------------------------------------------------------------------
  // What the ranker promises

  /** The number of results is the limit clamped as `slice` clamps it to the
      number of chunks that scored above zero; for a limit that is not negative
      it is at most the limit. */
  lemma RankCount(query: Str, chunks: seq<Chunk>, limit: int)
    ensures Rank(query, chunks, limit).count ==
            SliceEnd(|Positive(ScoreAll(Words(query), chunks))|, limit)
    ensures Rank(query, chunks, limit).count <= |Positive(ScoreAll(Words(query), chunks))|
    ensures 0 <= limit ==> Rank(query, chunks, limit).count <= limit
  {
  }

  /** Every result is one input chunk, carried unchanged with its own score, and
      that score is positive. */
  lemma ResultsComeFromChunks(query: Str, chunks: seq<Chunk>, limit: int)
    ensures forall r :: r in RankResults(query, chunks, limit) ==>
              r.score > 0 &&
              exists j :: 0 <= j < |chunks| && r == ScoreChunk(Words(query), chunks[j])
  {
    var words := Words(query);
    var all := ScoreAll(words, chunks);
    var sorted := SortByScore(Positive(all));
    forall r | r in RankResults(query, chunks, limit)
      ensures r.score > 0 && exists j :: 0 <= j < |chunks| && r == ScoreChunk(words, chunks[j])
    {
      assert r in sorted;
      assert r in multiset(sorted);
      assert r in Positive(all);
      var j :| 0 <= j < |all| && all[j] == r;
    }
  }

  /** The results are in non-increasing score order. */
  lemma ResultsSorted(query: Str, chunks: seq<Chunk>, limit: int)
    ensures forall i, j :: 0 <= i < j < |RankResults(query, chunks, limit)| ==>
              RankResults(query, chunks, limit)[i].score >= RankResults(query, chunks, limit)[j].score
  {
    SortByScoreSorted(Positive(ScoreAll(Words(query), chunks)));
  }

  lemma {:induction false} WithScorePrefix(s: seq<Scored>, k: nat, v: nat)
    requires k <= |s|
    ensures WithScore(s[..k], v) <= WithScore(s, v)
    decreases |s| - k
  {
    if k < |s| {
      WithScorePrefix(s, k + 1, v);
      var n := k + 1;
      assert s[..n][..k] == s[..k];
    } else {
      assert s[..k] == s;
    }
  }

  /** Equal scores keep their input order: for every positive score, the results
      with that score are a leading part of the input chunks with that score, in
      the same order. */
  lemma ResultsKeepInputOrder(query: Str, chunks: seq<Chunk>, limit: int, v: nat)
    requires v > 0
    ensures WithScore(RankResults(query, chunks, limit), v) <= WithScore(ScoreAll(Words(query), chunks), v)
  {
    var all := ScoreAll(Words(query), chunks);
    var sorted := SortByScore(Positive(all));
    WithScorePrefix(sorted, |RankResults(query, chunks, limit)|, v);
    SortByScoreStable(Positive(all), v);
    PositiveKeepsTieGroups(all, v);
  }

  /** The results are a leading part of the one sequence that is sorted by
      descending score and keeps each tie group of the positive-scoring chunks in
      input order. */
  lemma ResultsAreStableTop(query: Str, chunks: seq<Chunk>, limit: int, order: seq<Scored>)
    requires SortedByScore(order)
    requires forall v: nat :: WithScore(order, v) == WithScore(Positive(ScoreAll(Words(query), chunks)), v)
    ensures order == SortByScore(Positive(ScoreAll(Words(query), chunks)))
    ensures Rank(query, chunks, limit).count <= |order|
    ensures RankResults(query, chunks, limit) == order[..Rank(query, chunks, limit).count]
  {
    var p := Positive(ScoreAll(Words(query), chunks));
    SortByScoreSorted(p);
    forall v: nat ensures WithScore(SortByScore(p), v) == WithScore(order, v) {
      SortByScoreStable(p, v);
    }
    TieGroupsDetermineOrder(SortByScore(p), order);
  }

  /** The context is the results' blocks joined by the separator; it is empty
      exactly when there are no results. */
  lemma ContextEmptyIffNoResults(query: Str, chunks: seq<Chunk>, limit: int)
    ensures Rank(query, chunks, limit).context == [] <==> Rank(query, chunks, limit).count == 0
  {
    var bs := Blocks(RankResults(query, chunks, limit));
    forall k | 0 <= k < |bs| ensures bs[k] != [] {
      assert |Lit("[Documento: ")| > 0;
    }
    JoinWithEmptyIff(bs, Separator);
  }

  /** A non-empty context starts with the block of the best-scoring result. */
  lemma ContextStartsWithBest(query: Str, chunks: seq<Chunk>, limit: int)
    requires Rank(query, chunks, limit).count > 0
    ensures StartsWith(Rank(query, chunks, limit).context, Block(RankResults(query, chunks, limit)[0]))
  {
  }

  /** No chunks, no context. */
  lemma RankNoChunks(query: Str, limit: int)
    ensures Rank(query, [], limit) == Ranking([], 0)
  {
  }
}
