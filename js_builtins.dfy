/** The ECMAScript built-ins the retrieval code relies on, over strings of
    UTF-16 code units: `toLowerCase`, `split(/\s+/)`, `includes`, `join`,
    `slice(0, end)`, the ToInt32 conversion behind `<<` and `&`, and the
    truncating remainder operator `%`. */
module JsBuiltins {
  import opened Wrappers

  /** One UTF-16 code unit, as returned by `charCodeAt`. */
  type CodeUnit = c: int | 0 <= c < 0x1_0000

  /** A JavaScript string: a sequence of UTF-16 code units. */
  type Str = seq<CodeUnit>

  /** A Dafny string literal as code units. Every literal of this model lies in
      the Basic Multilingual Plane, where a character is its own code unit, so
      the remainder below leaves each of them unchanged. */
  function Lit(s: string): (r: Str)
    ensures |r| == |s|
  {
    seq(|s|, i requires 0 <= i < |s| => (s[i] as int) % 0x1_0000)
  }

  /** A string field of a request body is truthy when it is present and not
      the empty string: the test `!field` rejects the other two cases. */
  predicate Truthy(field: Option<Str>) {
    field.Some? && field.value != []
  }

  // ---------------------------------------------------------------------------
  // Character classes

  /** The ECMAScript class `\s`: WhiteSpace (tab, vertical tab, form feed, space,
      no-break space, the byte-order mark and the Unicode Zs category) together
      with LineTerminator (line feed, carriage return, U+2028, U+2029). */
  predicate IsSpace(c: CodeUnit) {
    c == 0x09 || c == 0x0A || c == 0x0B || c == 0x0C || c == 0x0D || c == 0x20 ||
    c == 0xA0 || c == 0x1680 || (0x2000 <= c <= 0x200A) || c == 0x2028 ||
    c == 0x2029 || c == 0x202F || c == 0x205F || c == 0x3000 || c == 0xFEFF
  }

  /** `toLowerCase` on one code unit, for the capitals of Basic Latin and
      Latin-1 (A-Z and U+00C0..U+00DE except the multiplication sign); every
      other code unit is left as it is. */
  function LowerUnit(c: CodeUnit): (l: CodeUnit)
    ensures IsSpace(l) <==> IsSpace(c)
  {
    if 0x41 <= c <= 0x5A || (0xC0 <= c <= 0xDE && c != 0xD7) then c + 0x20 else c
  }

  /** `s.toLowerCase()`, one code unit at a time. */
  function ToLower(s: Str): (r: Str)
    ensures |r| == |s|
  {
    seq(|s|, i requires 0 <= i < |s| => LowerUnit(s[i]))
  }

  lemma ToLowerAppend(a: Str, b: Str)
    ensures ToLower(a + b) == ToLower(a) + ToLower(b)
  {
    assert forall i :: 0 <= i < |a + b| ==> ToLower(a + b)[i] == (ToLower(a) + ToLower(b))[i];
  }

  predicate NoSpace(s: Str) {
    forall k :: 0 <= k < |s| ==> !IsSpace(s[k])
  }

  /** The code units of `s` that are not white space, in order. */
  function RemoveSpaces(s: Str): (r: Str)
    ensures NoSpace(r) && |r| <= |s|
  {
    if s == [] then []
    else (if IsSpace(s[0]) then [] else [s[0]]) + RemoveSpaces(s[1..])
  }

  // ---------------------------------------------------------------------------
  // String.prototype.split with the separator /\s+/

  /** The first index at or after `from` that holds white space, or `|s|`. */
  function NextSpace(s: Str, from: nat): (i: nat)
    requires from <= |s|
    ensures from <= i <= |s|
    ensures forall k :: from <= k < i ==> !IsSpace(s[k])
    ensures i < |s| ==> IsSpace(s[i])
    decreases |s| - from
  {
    if from == |s| || IsSpace(s[from]) then from else NextSpace(s, from + 1)
  }

  /** The end of the white-space run that starts at `from` (the greedy match of
      `\s+` there). */
  function SpaceRunEnd(s: Str, from: nat): (j: nat)
    requires from < |s| && IsSpace(s[from])
    ensures from < j <= |s|
    ensures forall k :: from <= k < j ==> IsSpace(s[k])
    ensures j < |s| ==> !IsSpace(s[j])
    decreases |s| - from
  {
    if from + 1 < |s| && IsSpace(s[from + 1]) then SpaceRunEnd(s, from + 1) else from + 1
  }

  /** `s.split(/\s+/)`: the pieces between maximal runs of white space. A
      leading or trailing run yields an empty first or last piece, and the empty
      string splits into one empty piece (the regular expression never matches
      the empty string). */
  function Split(s: Str): (r: seq<Str>)
    ensures |r| >= 1
    ensures forall t :: t in r ==> NoSpace(t)
    decreases |s|
  {
    var i := NextSpace(s, 0);
    if i == |s| then [s]
    else
      var j := SpaceRunEnd(s, i);
      [s[..i]] + Split(s[j..])
  }

  function Concat(ts: seq<Str>): Str {
    if ts == [] then [] else ts[0] + Concat(ts[1..])
  }

  lemma RemoveSpacesAppend(a: Str, b: Str)
    ensures RemoveSpaces(a + b) == RemoveSpaces(a) + RemoveSpaces(b)
    decreases |a|
  {
    if a != [] {
      assert (a + b)[0] == a[0] && (a + b)[1..] == a[1..] + b;
      RemoveSpacesAppend(a[1..], b);
      if IsSpace(a[0]) {
        assert RemoveSpaces(a + b) == RemoveSpaces(a[1..] + b);
        assert RemoveSpaces(a) == RemoveSpaces(a[1..]);
      } else {
        assert RemoveSpaces(a + b) == [a[0]] + RemoveSpaces(a[1..] + b);
        assert RemoveSpaces(a) == [a[0]] + RemoveSpaces(a[1..]);
      }
    } else {
      assert a + b == b;
    }
  }

  lemma RemoveSpacesOfSpaces(s: Str)
    requires forall k :: 0 <= k < |s| ==> IsSpace(s[k])
    ensures RemoveSpaces(s) == []
    decreases |s|
  {
    if s != [] { RemoveSpacesOfSpaces(s[1..]); }
  }

  lemma RemoveSpacesOfNoSpace(s: Str)
    requires NoSpace(s)
    ensures RemoveSpaces(s) == s
    decreases |s|
  {
    if s != [] { RemoveSpacesOfNoSpace(s[1..]); }
  }

  lemma ConcatCons(t: Str, ts: seq<Str>)
    ensures Concat([t] + ts) == t + Concat(ts)
  {
    assert ([t] + ts)[1..] == ts;
  }

  /** Splitting loses exactly the white space: the pieces, put back together,
      are the input without its white-space code units. */
  lemma {:induction false} SplitKeepsNonSpace(s: Str)
    ensures Concat(Split(s)) == RemoveSpaces(s)
    decreases |s|
  {
    var i := NextSpace(s, 0);
    if i == |s| {
      RemoveSpacesOfNoSpace(s);
      ConcatCons(s, []);
    } else {
      var j := SpaceRunEnd(s, i);
      var head, run, tail := s[..i], s[i..j], s[j..];
      SplitKeepsNonSpace(tail);
      SpacesRemovedAround(s, i, j);
      calc {
        Concat(Split(s));
        Concat([head] + Split(tail));
        { ConcatCons(head, Split(tail)); }
        head + RemoveSpaces(tail);
      }
    }
  }

  /** Removing the white space of `s[..i] + s[i..j] + s[j..]`, where the first
      part has none and the second is all white space. */
  lemma SpacesRemovedAround(s: Str, i: nat, j: nat)
    requires i < j <= |s|
    requires forall k :: 0 <= k < i ==> !IsSpace(s[k])
    requires forall k :: i <= k < j ==> IsSpace(s[k])
    ensures RemoveSpaces(s) == s[..i] + RemoveSpaces(s[j..])
  {
    NoSpaceSlice(s, i);
    AllSpaceSlice(s, i, j);
    CutInThree(s, i, j);
    SpacesRemovedBetween(s[..i], s[i..j], s[j..]);
  }

  lemma CutInThree(s: Str, i: nat, j: nat)
    requires i <= j <= |s|
    ensures s == s[..i] + s[i..j] + s[j..]
  {
  }

  lemma NoSpaceSlice(s: Str, i: nat)
    requires i <= |s|
    requires forall k :: 0 <= k < i ==> !IsSpace(s[k])
    ensures NoSpace(s[..i])
  {
    forall k | 0 <= k < i ensures !IsSpace(s[..i][k]) { assert s[..i][k] == s[k]; }
  }

  lemma AllSpaceSlice(s: Str, i: nat, j: nat)
    requires i <= j <= |s|
    requires forall k :: i <= k < j ==> IsSpace(s[k])
    ensures forall k :: 0 <= k < j - i ==> IsSpace(s[i..j][k])
  {
    forall k | 0 <= k < j - i ensures IsSpace(s[i..j][k]) { assert s[i..j][k] == s[i + k]; }
  }

  lemma SpacesRemovedBetween(head: Str, run: Str, tail: Str)
    requires NoSpace(head)
    requires forall k :: 0 <= k < |run| ==> IsSpace(run[k])
    ensures RemoveSpaces(head + run + tail) == head + RemoveSpaces(tail)
  {
    RemoveSpacesAppend(head + run, tail);
    RemoveSpacesAppend(head, run);
    RemoveSpacesOfNoSpace(head);
    RemoveSpacesOfSpaces(run);
    assert head + [] == head;
  }

  /** The first piece is empty exactly when the input is empty or starts with
      white space. */
  lemma SplitFirstEmpty(s: Str)
    ensures Split(s)[0] == [] <==> (|s| == 0 || IsSpace(s[0]))
  {
  }

  /** The last piece is empty exactly when the input is empty or ends with white
      space. */
  lemma {:induction false} SplitLastEmpty(s: Str)
    ensures Split(s)[|Split(s)| - 1] == [] <==> (|s| == 0 || IsSpace(s[|s| - 1]))
    decreases |s|
  {
    var i := NextSpace(s, 0);
    if i < |s| {
      var j := SpaceRunEnd(s, i);
      SplitLastEmpty(s[j..]);
      var r := [s[..i]] + Split(s[j..]);
      assert Split(s) == r;
      assert r[|r| - 1] == Split(s[j..])[|Split(s[j..])| - 1];
      if j < |s| {
        assert s[j..][|s[j..]| - 1] == s[|s| - 1];
      } else {
        assert IsSpace(s[j - 1]);
      }
    }
  }

  /** Only the first and the last piece can be empty. */
  lemma {:induction false} SplitInteriorNonEmpty(s: Str)
    ensures forall k :: 0 < k < |Split(s)| - 1 ==> Split(s)[k] != []
    decreases |s|
  {
    var i := NextSpace(s, 0);
    if i < |s| {
      var j := SpaceRunEnd(s, i);
      SplitInteriorNonEmpty(s[j..]);
      var rest := Split(s[j..]);
      var r := [s[..i]] + rest;
      if |rest| > 1 {
        SplitFirstEmpty(s[j..]);
        assert rest[0] != [];
      }
      forall k | 0 < k < |r| - 1 ensures r[k] != [] {
        assert r[k] == rest[k - 1];
      }
    }
  }

  /** Every code unit of `s` is white space. */
  predicate AllSpace(s: Str) {
    forall k :: 0 <= k < |s| ==> IsSpace(s[k])
  }

  /** The white-space runs that `split(/\s+/)` cuts at, in order: each greedy
      match of `\s+`. */
  function Separators(s: Str): (r: seq<Str>)
    decreases |s|
  {
    var i := NextSpace(s, 0);
    if i == |s| then [] else var j := SpaceRunEnd(s, i); [s[i..j]] + Separators(s[j..])
  }

  /** `pieces[0] + seps[0] + pieces[1] + ... + seps[n-1] + pieces[n]`. */
  function Interleave(pieces: seq<Str>, seps: seq<Str>): Str
    requires |pieces| == |seps| + 1
    decreases |seps|
  {
    if seps == [] then pieces[0] else pieces[0] + seps[0] + Interleave(pieces[1..], seps[1..])
  }

  /** The pieces are cut exactly at the white-space runs: there is one run
      between each two pieces, every run is non-empty white space, and putting
      pieces and runs back together gives the input. */
  lemma {:induction false} SplitRoundTrip(s: Str)
    ensures |Separators(s)| == |Split(s)| - 1
    ensures forall k :: 0 <= k < |Separators(s)| ==> Separators(s)[k] != [] && AllSpace(Separators(s)[k])
    ensures Interleave(Split(s), Separators(s)) == s
    decreases |s|
  {
    var i := NextSpace(s, 0);
    if i < |s| {
      var j := SpaceRunEnd(s, i);
      var head, run, tail := s[..i], s[i..j], s[j..];
      SplitRoundTrip(tail);
      var pieces, seps := [head] + Split(tail), [run] + Separators(tail);
      assert Split(s) == pieces && Separators(s) == seps;
      assert pieces[1..] == Split(tail) && seps[1..] == Separators(tail);
      AllSpaceSlice(s, i, j);
      assert AllSpace(run);
      forall k | 0 <= k < |seps| ensures seps[k] != [] && AllSpace(seps[k]) {
        if k > 0 { assert seps[k] == Separators(tail)[k - 1]; }
      }
      CutInThree(s, i, j);
    }
  }

  /** Text without white space is one piece. */
  lemma NoSpaceSplit(s: Str)
    requires NoSpace(s)
    ensures Split(s) == [s]
  {
  }

  // ---------------------------------------------------------------------------
  // String.prototype.includes

  predicate StartsWith(s: Str, w: Str) {
    |w| <= |s| && s[..|w|] == w
  }

  /** `s.includes(w)`: `w` occurs in `s` at some position. */
  predicate Includes(s: Str, w: Str)
    decreases |s|
  {
    StartsWith(s, w) || (|s| > 0 && Includes(s[1..], w))
  }

  /** The window of `s` that starts at `i` equals `w`. */
  predicate OccursAt(s: Str, w: Str, i: int) {
    0 <= i <= |s| - |w| && s[i..i + |w|] == w
  }

  /** `includes` is substring containment: some window of `s` equals `w`. */
  lemma {:induction false} IncludesIffOccurs(s: Str, w: Str)
    ensures Includes(s, w) <==> exists i :: OccursAt(s, w, i)
    decreases |s|
  {
    if StartsWith(s, w) {
      assert OccursAt(s, w, 0);
    }
    if |s| > 0 {
      IncludesIffOccurs(s[1..], w);
      if exists i :: OccursAt(s, w, i) {
        var i :| OccursAt(s, w, i);
        if i > 0 {
          assert s[1..][i - 1..i - 1 + |w|] == s[i..i + |w|];
          assert OccursAt(s[1..], w, i - 1);
        }
      }
      if Includes(s[1..], w) {
        var i :| OccursAt(s[1..], w, i);
        assert s[i + 1..i + 1 + |w|] == s[1..][i..i + |w|];
        assert OccursAt(s, w, i + 1);
      }
    } else if exists i :: OccursAt(s, w, i) {
      var i :| OccursAt(s, w, i);
      assert i == 0 && StartsWith(s, w);
    }
  }

  /** Text added after or before `s` cannot remove an occurrence. */
  lemma IncludesExtend(s: Str, t: Str, w: Str)
    requires Includes(s, w)
    ensures Includes(s + t, w) && Includes(t + s, w)
  {
    IncludesIffOccurs(s, w);
    IncludesIffOccurs(s + t, w);
    IncludesIffOccurs(t + s, w);
    var i :| OccursAt(s, w, i);
    assert (s + t)[i..i + |w|] == s[i..i + |w|];
    assert OccursAt(s + t, w, i);
    assert (t + s)[|t| + i..|t| + i + |w|] == s[i..i + |w|];
    assert OccursAt(t + s, w, |t| + i);
  }

  // ---------------------------------------------------------------------------
  // Array.prototype.join

  /** `parts.join(sep)`. */
  function JoinWith(parts: seq<Str>, sep: Str): (r: Str)
    ensures parts == [] ==> r == []
    ensures parts != [] ==> StartsWith(r, parts[0])
  {
    if parts == [] then []
    else if |parts| == 1 then parts[0]
    else parts[0] + sep + JoinWith(parts[1..], sep)
  }

  function TotalLength(parts: seq<Str>): nat {
    if parts == [] then 0 else |parts[0]| + TotalLength(parts[1..])
  }

  /** The joined string holds every part and one separator between each two. */
  lemma {:induction false} JoinWithLength(parts: seq<Str>, sep: Str)
    requires parts != []
    ensures |JoinWith(parts, sep)| == TotalLength(parts) + (|parts| - 1) * |sep|
    decreases |parts|
  {
    if |parts| > 1 {
      JoinWithLength(parts[1..], sep);
    }
  }

  /** Joining non-empty parts gives the empty string only when there are none. */
  lemma JoinWithEmptyIff(parts: seq<Str>, sep: Str)
    requires forall k :: 0 <= k < |parts| ==> parts[k] != []
    ensures JoinWith(parts, sep) == [] <==> parts == []
  {
  }

  // ---------------------------------------------------------------------------
  // Array.prototype.slice(0, end)

  /** The number of elements `slice(0, end)` keeps of `len`: a negative end
      counts back from the length, and the end is clamped to [0, len]. */
  function SliceEnd(len: nat, end: int): (k: nat)
    ensures k <= len
    ensures 0 <= end ==> k == if end < len then end else len
    ensures end < 0 ==> k == if len + end < 0 then 0 else len + end
  {
    if end < 0 then (if len + end < 0 then 0 else len + end)
    else if end < len then end else len
  }

  /** `s.slice(0, end)`. */
  function SliceTo<T>(s: seq<T>, end: int): (r: seq<T>)
    ensures |r| == SliceEnd(|s|, end) && r == s[..|r|]
  {
    s[..SliceEnd(|s|, end)]
  }

  // ---------------------------------------------------------------------------
  // Numbers

  const TwoTo31: int := 0x8000_0000
  const TwoTo32: int := 0x1_0000_0000

  predicate IsInt32(x: int) {
    -TwoTo31 <= x < TwoTo31
  }

  /** The ToInt32 conversion: the signed 32-bit integer congruent to `x`
      modulo 2^32. */
  function ToInt32(x: int): (r: int)
    ensures IsInt32(r)
    ensures (x - r) % TwoTo32 == 0
  {
    var m := x % TwoTo32;
    if m >= TwoTo31 then m - TwoTo32 else m
  }

  /** Numbers congruent modulo 2^32 convert to the same 32-bit integer. */
  lemma ToInt32Congruent(x: int, y: int)
    requires (x - y) % TwoTo32 == 0
    ensures ToInt32(x) == ToInt32(y)
  {
    var rx, ry := ToInt32(x), ToInt32(y);
    var d := rx - ry;
    assert d == (rx - x) + (x - y) + (y - ry);
    assert (x - rx) % TwoTo32 == 0 && (y - ry) % TwoTo32 == 0;
    assert (x - rx) == TwoTo32 * ((x - rx) / TwoTo32);
    assert (x - y) == TwoTo32 * ((x - y) / TwoTo32);
    assert (y - ry) == TwoTo32 * ((y - ry) / TwoTo32);
    var q := (x - y) / TwoTo32 + (y - ry) / TwoTo32 - (x - rx) / TwoTo32;
    assert d == TwoTo32 * q;
    assert -TwoTo32 < d < TwoTo32;
  }

  /** ToInt32 leaves a 32-bit integer unchanged. */
  lemma ToInt32OfInt32(x: int)
    requires IsInt32(x)
    ensures ToInt32(x) == x
  {
    ToInt32Congruent(x, x);
    assert (x - x) % TwoTo32 == 0;
    if x >= 0 {
      assert x % TwoTo32 == x;
    } else {
      assert x % TwoTo32 == x + TwoTo32;
    }
  }

  /** `a << 5` on a 32-bit integer: the low 32 bits of `a * 32`, read as signed. */
  function ShiftLeft5(a: int): (r: int)
    ensures IsInt32(r)
    ensures (32 * ToInt32(a) - r) % TwoTo32 == 0
  {
    ToInt32(ToInt32(a) * 32)
  }

  /** `a % d` for a positive divisor: the remainder of truncating division, which
      takes the sign of the dividend. */
  function TruncRem(a: int, d: int): (r: int)
    requires d > 0
    ensures -d < r < d
    ensures a >= 0 ==> r >= 0
    ensures a <= 0 ==> r <= 0
  {
    if a >= 0 then a % d else -((-a) % d)
  }

  /** The truncating remainder differs from the dividend by a multiple of the
      divisor, and is Dafny's (Euclidean) remainder for a dividend that is not
      negative. */
  lemma TruncRemCongruent(a: int, d: int)
    requires d > 0
    ensures (a - TruncRem(a, d)) % d == 0
    ensures a >= 0 ==> TruncRem(a, d) == a % d
  {
    var b := if a >= 0 then a else -a;
    var q := b / d;
    assert b == d * q + b % d;
    var k := if a >= 0 then q else -q;
    assert a - TruncRem(a, d) == d * k;
    MultipleMod(d, k);
  }

  lemma MultipleMod(d: int, k: int)
    requires d > 0
    ensures (d * k) % d == 0
  {
    var x := d * k;
    var t := k - x / d;
    assert x == d * (x / d) + x % d;
    assert d * t == x % d by {
      assert d * k - d * (x / d) == d * (k - x / d);
    }
    if t > 0 {
      assert d * t == d + d * (t - 1);
    }
  }

}
