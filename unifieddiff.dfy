/** `difflib.unified_diff(a, b, n=0)` as `diff_python` calls it (stockholm_diff.py:117),
    seen from its output. How the sequence matcher chooses which lines match is not part
    of this model: the matcher's answer is an edit script over the two line sequences, and
    the output is rendered from that script. With no context lines every run of changed
    lines becomes one hunk: its `@@` line, the removed lines prefixed with '-', then the
    added lines prefixed with '+'. */
module UnifiedDiff {
  import Text

  /** One step of an edit script: a line kept from both sides, taken from the first side
      only, or from the second side only. */
  datatype Edit = Keep(line: string) | Delete(line: string) | Insert(line: string)

  /** The first sequence that the script reads. */
  function Source(e: seq<Edit>): seq<string> {
    if e == [] then [] else (if e[0].Insert? then [] else [e[0].line]) + Source(e[1..])
  }

  /** The second sequence that the script produces. */
  function Target(e: seq<Edit>): seq<string> {
    if e == [] then [] else (if e[0].Delete? then [] else [e[0].line]) + Target(e[1..])
  }

  /** The lines the script removes, in order. */
  function Deleted(e: seq<Edit>): seq<string> {
    if e == [] then [] else (if e[0].Delete? then [e[0].line] else []) + Deleted(e[1..])
  }

  /** The lines the script adds, in order. */
  function Inserted(e: seq<Edit>): seq<string> {
    if e == [] then [] else (if e[0].Insert? then [e[0].line] else []) + Inserted(e[1..])
  }

  predicate HasChange(e: seq<Edit>) {
    exists i :: 0 <= i < |e| && !e[i].Keep?
  }

  /** The sequence matcher of `difflib`, as far as this model relies on it: a function from
      two line sequences to an edit script that reads the first and produces the second. */
  type Matcher = (seq<string>, seq<string>) -> seq<Edit>

  ghost predicate IsMatcher(m: Matcher) {
    forall a, b :: Source(m(a, b)) == a && Target(m(a, b)) == b
  }

  /** Equal sequences are matched completely (no change is reported for them). */
  ghost predicate MatchesEqual(m: Matcher) {
    forall a :: !HasChange(m(a, a))
  }

  /** One hunk: where it starts on each side (0-based), how many lines it covers there,
      and the lines themselves. */
  datatype Hunk = Hunk(aStart: nat, aLen: nat, bStart: nat, bLen: nat,
                       removed: seq<string>, added: seq<string>)

  /** Length of the run of changes at the front of `e`. */
  function ChangeRun(e: seq<Edit>): (k: nat)
    ensures k <= |e|
    ensures forall i :: 0 <= i < k ==> !e[i].Keep?
    ensures k < |e| ==> e[k].Keep?
  {
    if e == [] || e[0].Keep? then 0 else 1 + ChangeRun(e[1..])
  }

  /** The hunks of `e` when the script starts at line i of the first sequence and line j
      of the second: one per maximal run of changes. */
  function Hunks(e: seq<Edit>, i: nat, j: nat): seq<Hunk>
    decreases |e|
  {
    if e == [] then []
    else if e[0].Keep? then Hunks(e[1..], i + 1, j + 1)
    else
      var k := ChangeRun(e);
      var rem := Deleted(e[..k]);
      var add := Inserted(e[..k]);
      [Hunk(i, |rem|, j, |add|, rem, add)] + Hunks(e[k..], i + |rem|, j + |add|)
  }

  /** Decimal digits of n, most significant first. */
  function NatToString(n: nat): (r: string)
    ensures |r| >= 1
    ensures AllDigits(r)
  {
    if n < 10 then [Digit(n)] else NatToString(n / 10) + [Digit(n % 10)]
  }

  function Digit(d: nat): char
    requires d < 10
  {
    ['0', '1', '2', '3', '4', '5', '6', '7', '8', '9'][d]
  }

  function DigitValue(c: char): nat {
    if '0' <= c <= '9' then (c as int - '0' as int) as nat else 0
  }

  /** The number a string of decimal digits denotes. */
  function ParseNat(s: string): nat {
    if s == [] then 0 else 10 * ParseNat(s[..|s| - 1]) + DigitValue(s[|s| - 1])
  }

  /** `_format_range_unified(start, start + len)`: lines count from 1; a one-line range is
      written as its line, an empty range as the line before it followed by ",0". */
  function FormatRange(start: nat, len: nat): string {
    if len == 1 then NatToString(start + 1)
    else if len == 0 then NatToString(start) + ",0"
    else NatToString(start + 1) + "," + NatToString(len)
  }

  function Prefixed(mark: char, lines: seq<string>): (r: seq<string>)
    ensures |r| == |lines|
    ensures forall i :: 0 <= i < |r| ==> r[i] == [mark] + lines[i]
  {
    if lines == [] then [] else [[mark] + lines[0]] + Prefixed(mark, lines[1..])
  }

  function RenderHunk(h: Hunk): seq<string> {
    ["@@ -" + FormatRange(h.aStart, h.aLen) + " +" + FormatRange(h.bStart, h.bLen) + " @@\n"]
      + Prefixed('-', h.removed) + Prefixed('+', h.added)
  }

  function RenderHunks(hs: seq<Hunk>): seq<string> {
    if hs == [] then [] else RenderHunk(hs[0]) + RenderHunks(hs[1..])
  }

  /** The lines `unified_diff(a, b, n=0)` yields for the script `e`: nothing when there is
      no hunk, otherwise the two file headers (empty names, no dates) and every hunk. */
  function UnifiedDiffZero(e: seq<Edit>): seq<string> {
    var hs := Hunks(e, 0, 0);
    if hs == [] then [] else ["--- \n", "+++ \n"] + RenderHunks(hs)
  }

  // Properties of the rendering.

  lemma DigitValueOfDigit(d: nat)
    requires d < 10
    ensures DigitValue(Digit(d)) == d
  {
  }

  lemma {:induction false} ParseDigits(n: nat)
    ensures ParseNat(NatToString(n)) == n
  {
    DigitValueOfDigit(n % 10);
    if n >= 10 {
      ParseDigits(n / 10);
      var p := NatToString(n / 10);
      var s := p + [Digit(n % 10)];
      assert s[..|s| - 1] == p;
      assert s[|s| - 1] == Digit(n % 10);
      assert ParseNat(s) == 10 * ParseNat(p) + DigitValue(Digit(n % 10));
    } else {
      assert [Digit(n)][..0] == [];
    }
  }

  /** `@@` ranges read back: the start and the length are both recoverable from the text. */
  function ParseRange(r: string): (nat, nat) {
    var comma := CommaIndex(r, 0);
    if comma == |r| then
      var b := ParseNat(r);
      (if b == 0 then 0 else b - 1, 1)
    else
      var b := ParseNat(r[..comma]);
      var len := ParseNat(r[comma + 1..]);
      (if len == 0 || b == 0 then b else b - 1, len)
  }

  /** Index of the first ',' at or after `from`, or |s| when there is none. */
  function CommaIndex(s: string, from: nat): (k: nat)
    requires from <= |s|
    ensures from <= k <= |s|
    ensures forall i :: from <= i < k ==> s[i] != ','
    ensures k < |s| ==> s[k] == ','
    decreases |s| - from
  {
    if from == |s| || s[from] == ',' then from else CommaIndex(s, from + 1)
  }

  predicate AllDigits(s: string) {
    forall i :: 0 <= i < |s| ==> '0' <= s[i] <= '9'
  }

  lemma CommaIndexOfDigits(d: string, t: string)
    requires AllDigits(d)
    requires |t| > 0 && t[0] == ','
    ensures CommaIndex(d + t, 0) == |d|
  {
    assert (d + t)[|d|] == ',';
    assert forall i :: 0 <= i < |d| ==> (d + t)[i] != ',';
  }

  lemma CommaIndexNone(d: string)
    requires AllDigits(d)
    ensures CommaIndex(d, 0) == |d|
  {
    assert forall i :: 0 <= i < |d| ==> d[i] != ',';
  }

  lemma ParseRangeWithComma(d: string, t: string)
    requires AllDigits(d) && AllDigits(t)
    ensures var b := ParseNat(d);
      ParseRange(d + "," + t) == (if ParseNat(t) == 0 || b == 0 then b else b - 1, ParseNat(t))
  {
    var r := d + "," + t;
    assert r == d + ("," + t);
    CommaIndexOfDigits(d, "," + t);
    assert r[..|d|] == d;
    assert r[|d| + 1..] == t;
    ParseRangeAt(r, d, t);
  }

  lemma ParseRangeAt(r: string, d: string, t: string)
    requires |d| < |r| && CommaIndex(r, 0) == |d|
    requires r[..|d|] == d && r[|d| + 1..] == t
    ensures var b := ParseNat(d);
      ParseRange(r) == (if ParseNat(t) == 0 || b == 0 then b else b - 1, ParseNat(t))
  {
  }

  /** The hunk header parses back to the range it was written from. */
  lemma FormatRangeParses(start: nat, len: nat)
    ensures ParseRange(FormatRange(start, len)) == (start, len)
  {
    if len == 1 {
      CommaIndexNone(NatToString(start + 1));
      ParseDigits(start + 1);
    } else if len == 0 {
      assert "0"[..0] == "";
      assert ParseNat("0") == 0;
      assert FormatRange(start, len) == NatToString(start) + "," + "0";
      ParseRangeWithComma(NatToString(start), "0");
      ParseDigits(start);
    } else {
      ParseRangeWithComma(NatToString(start + 1), NatToString(len));
      ParseDigits(start + 1);
      ParseDigits(len);
    }
  }

  // Properties of the hunks.

  lemma DeletedInsertedOfRun(e: seq<Edit>, k: nat)
    requires k <= |e|
    requires forall i :: 0 <= i < k ==> !e[i].Keep?
    ensures Source(e) == Deleted(e[..k]) + Source(e[k..])
    ensures Target(e) == Inserted(e[..k]) + Target(e[k..])
    ensures Deleted(e) == Deleted(e[..k]) + Deleted(e[k..])
    ensures Inserted(e) == Inserted(e[..k]) + Inserted(e[k..])
  {
    DeletedOfRun(e, k);
    InsertedOfRun(e, k);
  }

  lemma DeletedOfRun(e: seq<Edit>, k: nat)
    requires k <= |e|
    requires forall i :: 0 <= i < k ==> !e[i].Keep?
    ensures Source(e) == Deleted(e[..k]) + Source(e[k..])
    ensures Deleted(e) == Deleted(e[..k]) + Deleted(e[k..])
  {
    assert e == e[..k] + e[k..];
    SourceAppend(e[..k], e[k..]);
    DeletedAppend(e[..k], e[k..]);
    SourceOfRun(e[..k]);
  }

  lemma InsertedOfRun(e: seq<Edit>, k: nat)
    requires k <= |e|
    requires forall i :: 0 <= i < k ==> !e[i].Keep?
    ensures Target(e) == Inserted(e[..k]) + Target(e[k..])
    ensures Inserted(e) == Inserted(e[..k]) + Inserted(e[k..])
  {
    assert e == e[..k] + e[k..];
    TargetAppend(e[..k], e[k..]);
    InsertedAppend(e[..k], e[k..]);
    TargetOfRun(e[..k]);
  }

  /** In a run of changes the first side reads exactly the deleted lines. */
  lemma {:induction false} SourceOfRun(r: seq<Edit>)
    requires forall i :: 0 <= i < |r| ==> !r[i].Keep?
    ensures Source(r) == Deleted(r)
  {
    if r != [] {
      assert forall i :: 0 <= i < |r| - 1 ==> r[1..][i] == r[i + 1];
      SourceOfRun(r[1..]);
    }
  }

  /** In a run of changes the second side gets exactly the inserted lines. */
  lemma {:induction false} TargetOfRun(r: seq<Edit>)
    requires forall i :: 0 <= i < |r| ==> !r[i].Keep?
    ensures Target(r) == Inserted(r)
  {
    if r != [] {
      assert forall i :: 0 <= i < |r| - 1 ==> r[1..][i] == r[i + 1];
      TargetOfRun(r[1..]);
    }
  }

  lemma {:induction false} SourceAppend(e: seq<Edit>, f: seq<Edit>)
    ensures Source(e + f) == Source(e) + Source(f)
  {
    if e == [] {
      assert e + f == f;
    } else {
      assert (e + f)[0] == e[0];
      assert (e + f)[1..] == e[1..] + f;
      SourceAppend(e[1..], f);
    }
  }

  lemma {:induction false} TargetAppend(e: seq<Edit>, f: seq<Edit>)
    ensures Target(e + f) == Target(e) + Target(f)
  {
    if e == [] {
      assert e + f == f;
    } else {
      assert (e + f)[0] == e[0];
      assert (e + f)[1..] == e[1..] + f;
      TargetAppend(e[1..], f);
    }
  }

  lemma {:induction false} DeletedAppend(e: seq<Edit>, f: seq<Edit>)
    ensures Deleted(e + f) == Deleted(e) + Deleted(f)
  {
    if e == [] {
      assert e + f == f;
    } else {
      assert (e + f)[0] == e[0];
      assert (e + f)[1..] == e[1..] + f;
      DeletedAppend(e[1..], f);
    }
  }

  lemma {:induction false} InsertedAppend(e: seq<Edit>, f: seq<Edit>)
    ensures Inserted(e + f) == Inserted(e) + Inserted(f)
  {
    if e == [] {
      assert e + f == f;
    } else {
      assert (e + f)[0] == e[0];
      assert (e + f)[1..] == e[1..] + f;
      InsertedAppend(e[1..], f);
    }
  }

  /** How the hunks of a script that starts with a change unfold. */
  lemma HunksOfChange(e: seq<Edit>, i: nat, j: nat)
    requires e != [] && !e[0].Keep?
    ensures var k := ChangeRun(e);
      var rem := Deleted(e[..k]);
      var add := Inserted(e[..k]);
      && 0 < k
      && Hunks(e, i, j) == [Hunk(i, |rem|, j, |add|, rem, add)] + Hunks(e[k..], i + |rem|, j + |add|)
      && Source(e) == rem + Source(e[k..])
      && Target(e) == add + Target(e[k..])
      && Deleted(e) == rem + Deleted(e[k..])
      && Inserted(e) == add + Inserted(e[k..])
      && |rem| + |add| > 0
  {
    var k := ChangeRun(e);
    DeletedInsertedOfRun(e, k);
    assert e[..k] == [e[0]] + e[..k][1..];
  }

  /** There is a hunk exactly when the script changes something. */
  lemma {:induction false} HunksEmptyIff(e: seq<Edit>, i: nat, j: nat)
    ensures Hunks(e, i, j) == [] <==> !HasChange(e)
    decreases |e|
  {
    if e != [] && e[0].Keep? {
      HunksEmptyIff(e[1..], i + 1, j + 1);
      assert forall m :: 0 < m < |e| ==> e[m] == e[1..][m - 1];
      assert HasChange(e) ==> HasChange(e[1..]) by {
        if HasChange(e) {
          var m :| 0 <= m < |e| && !e[m].Keep?;
          assert !e[1..][m - 1].Keep?;
        }
      }
      assert HasChange(e[1..]) ==> HasChange(e) by {
        if HasChange(e[1..]) {
          var m :| 0 <= m < |e[1..]| && !e[1..][m].Keep?;
          assert !e[m + 1].Keep?;
        }
      }
    } else if e != [] {
      assert !e[0].Keep?;
    }
  }

  /** Hunk h covers, on each side, exactly the lines it lists: `removed` is the slice of
      the first sequence `a` at `aStart`, `added` the slice of the second sequence `b` at
      `bStart` (both sequences starting at line i and j respectively), and it is not empty. */
  predicate HunkCovers(h: Hunk, a: seq<string>, b: seq<string>, i: nat, j: nat) {
    && i <= h.aStart && h.aStart - i + h.aLen <= |a|
    && j <= h.bStart && h.bStart - j + h.bLen <= |b|
    && |h.removed| == h.aLen && |h.added| == h.bLen
    && h.removed == a[h.aStart - i .. h.aStart - i + h.aLen]
    && h.added == b[h.bStart - j .. h.bStart - j + h.bLen]
    && h.aLen + h.bLen > 0
  }

  lemma HunkCoversShift(h: Hunk, x: seq<string>, a: seq<string>, y: seq<string>, b: seq<string>, i: nat, j: nat)
    requires |x| <= i && |y| <= j
    requires HunkCovers(h, a, b, i, j)
    ensures HunkCovers(h, x + a, y + b, i - |x|, j - |y|)
  {
    var p := h.aStart - i;
    var q := h.bStart - j;
    assert (x + a)[|x| + p .. |x| + p + h.aLen] == a[p .. p + h.aLen];
    assert (y + b)[|y| + q .. |y| + q + h.bLen] == b[q .. q + h.bLen];
  }

  /** Every hunk of the script covers the lines it lists, on both sides. */
  lemma {:induction false} HunksAreSlices(e: seq<Edit>, i: nat, j: nat)
    ensures forall h :: h in Hunks(e, i, j) ==> HunkCovers(h, Source(e), Target(e), i, j)
    decreases |e|, 1
  {
    if e != [] {
      if e[0].Keep? {
        HunksAreSlicesAfterKeep(e, i, j);
      } else {
        HunksAreSlicesAfterChange(e, i, j);
      }
    }
  }

  lemma {:induction false} HunksAreSlicesAfterKeep(e: seq<Edit>, i: nat, j: nat)
    requires e != [] && e[0].Keep?
    ensures forall h :: h in Hunks(e, i, j) ==> HunkCovers(h, Source(e), Target(e), i, j)
    decreases |e|, 0
  {
    HunksAreSlices(e[1..], i + 1, j + 1);
    assert Hunks(e, i, j) == Hunks(e[1..], i + 1, j + 1);
    assert Source(e) == [e[0].line] + Source(e[1..]);
    assert Target(e) == [e[0].line] + Target(e[1..]);
    AllCoverShift(Hunks(e, i, j), [e[0].line], Source(e[1..]), [e[0].line], Target(e[1..]), i + 1, j + 1);
  }

  lemma {:induction false} HunksAreSlicesAfterChange(e: seq<Edit>, i: nat, j: nat)
    requires e != [] && !e[0].Keep?
    ensures forall h :: h in Hunks(e, i, j) ==> HunkCovers(h, Source(e), Target(e), i, j)
    decreases |e|, 0
  {
    HunksOfChange(e, i, j);
    var k := ChangeRun(e);
    var rem := Deleted(e[..k]);
    var add := Inserted(e[..k]);
    HunksAreSlices(e[k..], i + |rem|, j + |add|);
    CoverCons(rem, Source(e[k..]), add, Target(e[k..]), Hunks(e[k..], i + |rem|, j + |add|), i, j);
  }

  /** A first hunk followed by hunks covering the lines after it. */
  lemma CoverCons(rem: seq<string>, a: seq<string>, add: seq<string>, b: seq<string>, rest: seq<Hunk>, i: nat, j: nat)
    requires |rem| + |add| > 0
    requires forall h :: h in rest ==> HunkCovers(h, a, b, i + |rem|, j + |add|)
    ensures forall h :: h in [Hunk(i, |rem|, j, |add|, rem, add)] + rest ==> HunkCovers(h, rem + a, add + b, i, j)
  {
    var first := Hunk(i, |rem|, j, |add|, rem, add);
    FirstHunkCovers(rem, a, add, b, i, j);
    AllCoverShift(rest, rem, a, add, b, i + |rem|, j + |add|);
    ConsCovers(first, rest, rem + a, add + b, i, j);
  }

  lemma FirstHunkCovers(rem: seq<string>, a: seq<string>, add: seq<string>, b: seq<string>, i: nat, j: nat)
    requires |rem| + |add| > 0
    ensures HunkCovers(Hunk(i, |rem|, j, |add|, rem, add), rem + a, add + b, i, j)
  {
    assert (rem + a)[0..|rem|] == rem;
    assert (add + b)[0..|add|] == add;
  }

  lemma AllCoverShift(hs: seq<Hunk>, x: seq<string>, a: seq<string>, y: seq<string>, b: seq<string>, i: nat, j: nat)
    requires |x| <= i && |y| <= j
    requires forall h :: h in hs ==> HunkCovers(h, a, b, i, j)
    ensures forall h :: h in hs ==> HunkCovers(h, x + a, y + b, i - |x|, j - |y|)
  {
    forall h | h in hs
      ensures HunkCovers(h, x + a, y + b, i - |x|, j - |y|)
    {
      HunkCoversShift(h, x, a, y, b, i, j);
    }
  }

  lemma ConsCovers(h0: Hunk, hs: seq<Hunk>, a: seq<string>, b: seq<string>, i: nat, j: nat)
    requires HunkCovers(h0, a, b, i, j)
    requires forall h :: h in hs ==> HunkCovers(h, a, b, i, j)
    ensures forall h :: h in [h0] + hs ==> HunkCovers(h, a, b, i, j)
  {
  }

  function AllRemoved(hs: seq<Hunk>): seq<string> {
    if hs == [] then [] else hs[0].removed + AllRemoved(hs[1..])
  }

  function AllAdded(hs: seq<Hunk>): seq<string> {
    if hs == [] then [] else hs[0].added + AllAdded(hs[1..])
  }

  /** Every removed line of the script appears in exactly one hunk, in order, and so does
      every added line. */
  lemma {:induction false} HunksCoverChanges(e: seq<Edit>, i: nat, j: nat)
    ensures AllRemoved(Hunks(e, i, j)) == Deleted(e)
    ensures AllAdded(Hunks(e, i, j)) == Inserted(e)
    decreases |e|
  {
    if e != [] {
      if e[0].Keep? {
        HunksCoverChanges(e[1..], i + 1, j + 1);
      } else {
        HunksOfChange(e, i, j);
        var k := ChangeRun(e);
        var rem := Deleted(e[..k]);
        var add := Inserted(e[..k]);
        var hs := Hunks(e, i, j);
        HunksCoverChanges(e[k..], i + |rem|, j + |add|);
        assert hs[1..] == Hunks(e[k..], i + |rem|, j + |add|);
        assert AllRemoved(hs) == rem + AllRemoved(hs[1..]);
        assert AllAdded(hs) == add + AllAdded(hs[1..]);
      }
    }
  }

  /** Every hunk starts at or after line i of the first side and line j of the second. */
  predicate StartAfter(hs: seq<Hunk>, i: nat, j: nat) {
    forall h :: h in hs ==> i <= h.aStart && j <= h.bStart
  }

  /** Each hunk ends, on both sides, before the next one starts. */
  predicate Ordered(hs: seq<Hunk>) {
    forall n :: 0 <= n < |hs| - 1 ==>
      hs[n].aStart + hs[n].aLen < hs[n + 1].aStart && hs[n].bStart + hs[n].bLen < hs[n + 1].bStart
  }

  /** The hunks follow each other: each starts after the previous one ends, on both sides,
      with at least one kept line between them. */
  lemma {:induction false} HunksOrdered(e: seq<Edit>, i: nat, j: nat)
    ensures StartAfter(Hunks(e, i, j), i, j)
    ensures Ordered(Hunks(e, i, j))
    decreases |e|, 1
  {
    if e != [] {
      if e[0].Keep? {
        HunksOrdered(e[1..], i + 1, j + 1);
        HunksOfKeep(e, i, j);
        StartAfterWeaken(Hunks(e, i, j), i, j, i + 1, j + 1);
      } else {
        HunksOrderedAfterChange(e, i, j);
      }
    }
  }

  lemma {:induction false} HunksOrderedAfterChange(e: seq<Edit>, i: nat, j: nat)
    requires e != [] && !e[0].Keep?
    ensures StartAfter(Hunks(e, i, j), i, j)
    ensures Ordered(Hunks(e, i, j))
    decreases |e|, 0
  {
    HunksOfChange(e, i, j);
    var k := ChangeRun(e);
    var rem := Deleted(e[..k]);
    var add := Inserted(e[..k]);
    var rest := e[k..];
    var first := Hunk(i, |rem|, j, |add|, rem, add);
    if rest != [] {
      assert rest[0].Keep?;
      HunksOrdered(rest[1..], i + |rem| + 1, j + |add| + 1);
      HunksOfKeep(rest, i + |rem|, j + |add|);
    }
    OrderedCons(first, Hunks(rest, i + |rem|, j + |add|));
  }

  /** A kept line moves both line numbers on and starts no hunk. */
  lemma HunksOfKeep(e: seq<Edit>, i: nat, j: nat)
    requires e != [] && e[0].Keep?
    ensures Hunks(e, i, j) == Hunks(e[1..], i + 1, j + 1)
  {
  }

  lemma StartAfterWeaken(hs: seq<Hunk>, i: nat, j: nat, i': nat, j': nat)
    requires StartAfter(hs, i', j') && i <= i' && j <= j'
    ensures StartAfter(hs, i, j)
  {
  }

  lemma OrderedCons(first: Hunk, tail: seq<Hunk>)
    requires StartAfter(tail, first.aStart + first.aLen + 1, first.bStart + first.bLen + 1)
    requires Ordered(tail)
    ensures StartAfter([first] + tail, first.aStart, first.bStart)
    ensures Ordered([first] + tail)
  {
    var hs := [first] + tail;
    forall n | 0 <= n < |hs| - 1
      ensures hs[n].aStart + hs[n].aLen < hs[n + 1].aStart && hs[n].bStart + hs[n].bLen < hs[n + 1].bStart
    {
      if n > 0 {
        assert hs[n] == tail[n - 1] && hs[n + 1] == tail[n];
      } else {
        assert hs[1] == tail[0] && tail[0] in tail;
      }
    }
  }

  lemma {:induction false} RenderHunksLength(hs: seq<Hunk>)
    ensures |RenderHunks(hs)| == |hs| + |AllRemoved(hs)| + |AllAdded(hs)|
  {
    if hs != [] {
      RenderHunksLength(hs[1..]);
    }
  }

  /** The delta is empty exactly when the script changes nothing; otherwise it holds the
      two headers, one `@@` line per hunk, one '-' line per removed line and one '+' line
      per added line. */
  lemma DeltaShape(e: seq<Edit>)
    ensures UnifiedDiffZero(e) == [] <==> !HasChange(e)
    ensures HasChange(e) ==>
      |UnifiedDiffZero(e)| == 2 + |Hunks(e, 0, 0)| + |Deleted(e)| + |Inserted(e)|
  {
    HunksEmptyIff(e, 0, 0);
    HunksCoverChanges(e, 0, 0);
    RenderHunksLength(Hunks(e, 0, 0));
  }

  /** A script that reads `a` and changes nothing produces `a`. */
  lemma {:induction false} NoChangeSameSides(e: seq<Edit>)
    requires !HasChange(e)
    ensures Source(e) == Target(e)
  {
    if e != [] {
      assert !e[0].Keep? ==> HasChange(e);
      assert forall m :: 0 <= m < |e[1..]| ==> e[1..][m] == e[m + 1];
      NoChangeSameSides(e[1..]);
    }
  }

  /** The lines of `lines` that start with `mark`, without it, in order. */
  function Marked(lines: seq<string>, mark: char): seq<string> {
    if lines == [] then []
    else (if |lines[0]| > 0 && lines[0][0] == mark then [lines[0][1..]] else []) + Marked(lines[1..], mark)
  }

  lemma {:induction false} MarkedAppend(xs: seq<string>, ys: seq<string>, mark: char)
    ensures Marked(xs + ys, mark) == Marked(xs, mark) + Marked(ys, mark)
  {
    if xs == [] {
      assert xs + ys == ys;
    } else {
      assert (xs + ys)[1..] == xs[1..] + ys;
      MarkedAppend(xs[1..], ys, mark);
    }
  }

  lemma {:induction false} MarkedPrefixed(lines: seq<string>, mark: char, other: char)
    ensures Marked(Prefixed(mark, lines), mark) == lines
    ensures other != mark ==> Marked(Prefixed(mark, lines), other) == []
  {
    if lines != [] {
      MarkedPrefixed(lines[1..], mark, other);
      assert ([mark] + lines[0])[1..] == lines[0];
      assert Prefixed(mark, lines)[1..] == Prefixed(mark, lines[1..]);
    }
  }

  lemma MarkedHunk(h: Hunk)
    ensures Marked(RenderHunk(h), '-') == h.removed
    ensures Marked(RenderHunk(h), '+') == h.added
  {
    var head := ["@@ -" + FormatRange(h.aStart, h.aLen) + " +" + FormatRange(h.bStart, h.bLen) + " @@\n"];
    assert head[0][0] == '@' && head[1..] == [];
    assert Marked(head[1..], '-') == [] && Marked(head[1..], '+') == [];
    assert Marked(head, '-') == [] && Marked(head, '+') == [];
    MarkedAppend(head, Prefixed('-', h.removed), '-');
    MarkedAppend(head + Prefixed('-', h.removed), Prefixed('+', h.added), '-');
    MarkedAppend(head, Prefixed('-', h.removed), '+');
    MarkedAppend(head + Prefixed('-', h.removed), Prefixed('+', h.added), '+');
    MarkedPrefixed(h.removed, '-', '+');
    MarkedPrefixed(h.added, '+', '-');
  }

  lemma {:induction false} MarkedHunks(hs: seq<Hunk>)
    ensures Marked(RenderHunks(hs), '-') == AllRemoved(hs)
    ensures Marked(RenderHunks(hs), '+') == AllAdded(hs)
  {
    if hs != [] {
      MarkedHunks(hs[1..]);
      MarkedHunk(hs[0]);
      MarkedAppend(RenderHunk(hs[0]), RenderHunks(hs[1..]), '-');
      MarkedAppend(RenderHunk(hs[0]), RenderHunks(hs[1..]), '+');
    }
  }

  /** After the two headers, the '-' lines of the delta are the removed lines of the
      script and the '+' lines its added lines, each in order; no kept line is shown. */
  lemma DeltaLinesComeFromScript(e: seq<Edit>)
    requires HasChange(e)
    ensures |UnifiedDiffZero(e)| >= 2
    ensures Marked(UnifiedDiffZero(e)[2..], '-') == Deleted(e)
    ensures Marked(UnifiedDiffZero(e)[2..], '+') == Inserted(e)
  {
    HunksEmptyIff(e, 0, 0);
    HunksCoverChanges(e, 0, 0);
    MarkedHunks(Hunks(e, 0, 0));
    assert UnifiedDiffZero(e)[2..] == RenderHunks(Hunks(e, 0, 0));
  }

  /** For a valid script the delta is empty exactly when the two sides are equal, provided
      equal sides are matched completely. */
  lemma EmptyDeltaIffEqual(m: Matcher, a: seq<string>, b: seq<string>)
    requires IsMatcher(m) && MatchesEqual(m)
    ensures UnifiedDiffZero(m(a, b)) == [] <==> a == b
  {
    DeltaShape(m(a, b));
    if !HasChange(m(a, b)) {
      NoChangeSameSides(m(a, b));
    }
  }

  /** Every '-' line of the delta is a line of the first sequence and every '+' line one of
      the second, taken in order: all removed lines together form Deleted(e), a
      subsequence of the first side. */
  lemma {:induction false} DeletedIsSubsequence(e: seq<Edit>)
    ensures Text.IsSubsequence(Deleted(e), Source(e))
    ensures Text.IsSubsequence(Inserted(e), Target(e))
  {
    if e != [] {
      DeletedIsSubsequence(e[1..]);
      if e[0].Delete? {
        assert Deleted(e) == [e[0].line] + Deleted(e[1..]);
        assert Source(e) == [e[0].line] + Source(e[1..]);
        assert Deleted(e)[1..] == Deleted(e[1..]);
        assert Source(e)[1..] == Source(e[1..]);
      } else {
        assert Deleted(e) == Deleted(e[1..]);
        assert Source(e) == Source(e[1..]) || Source(e)[1..] == Source(e[1..]);
        SubsequenceCons(Deleted(e[1..]), Source(e[1..]), Source(e));
      }
      if e[0].Insert? {
        assert Inserted(e) == [e[0].line] + Inserted(e[1..]);
        assert Target(e) == [e[0].line] + Target(e[1..]);
        assert Inserted(e)[1..] == Inserted(e[1..]);
        assert Target(e)[1..] == Target(e[1..]);
      } else {
        assert Inserted(e) == Inserted(e[1..]);
        assert Target(e) == Target(e[1..]) || Target(e)[1..] == Target(e[1..]);
        SubsequenceCons(Inserted(e[1..]), Target(e[1..]), Target(e));
      }
    }
  }

  lemma SubsequenceCons(xs: seq<string>, ys: seq<string>, zs: seq<string>)
    requires Text.IsSubsequence(xs, ys)
    requires zs == ys || (|zs| > 0 && zs[1..] == ys)
    ensures Text.IsSubsequence(xs, zs)
  {
  }

  /** Delete-all-then-insert-all, except for equal sides: a matcher in the sense above
      (it witnesses that the requirements can be met). */
  function CoarseMatcher(a: seq<string>, b: seq<string>): seq<Edit> {
    if a == b then KeepAll(a) else DeleteAll(a) + InsertAll(b)
  }

  function KeepAll(a: seq<string>): seq<Edit> {
    if a == [] then [] else [Keep(a[0])] + KeepAll(a[1..])
  }

  function DeleteAll(a: seq<string>): seq<Edit> {
    if a == [] then [] else [Delete(a[0])] + DeleteAll(a[1..])
  }

  function InsertAll(b: seq<string>): seq<Edit> {
    if b == [] then [] else [Insert(b[0])] + InsertAll(b[1..])
  }

  lemma SourceTargetAppend(e: seq<Edit>, f: seq<Edit>)
    ensures Source(e + f) == Source(e) + Source(f)
    ensures Target(e + f) == Target(e) + Target(f)
  {
    SourceAppend(e, f);
    TargetAppend(e, f);
  }

  lemma {:induction false} KeepAllSides(a: seq<string>)
    ensures Source(KeepAll(a)) == a && Target(KeepAll(a)) == a
    ensures !HasChange(KeepAll(a))
    ensures |KeepAll(a)| == |a|
  {
    if a != [] {
      KeepAllSides(a[1..]);
      assert [a[0]] + a[1..] == a;
      var e := KeepAll(a);
      assert forall m :: 0 < m < |e| ==> e[m] == KeepAll(a[1..])[m - 1];
    }
  }

  lemma {:induction false} DeleteInsertAllSides(a: seq<string>)
    ensures Source(DeleteAll(a)) == a && Target(DeleteAll(a)) == []
    ensures Source(InsertAll(a)) == [] && Target(InsertAll(a)) == a
  {
    if a != [] {
      DeleteInsertAllSides(a[1..]);
      assert [a[0]] + a[1..] == a;
    }
  }

  lemma CoarseMatcherIsMatcher()
    ensures IsMatcher(CoarseMatcher) && MatchesEqual(CoarseMatcher)
  {
    forall a, b ensures Source(CoarseMatcher(a, b)) == a && Target(CoarseMatcher(a, b)) == b {
      if a == b {
        KeepAllSides(a);
      } else {
        DeleteInsertAllSides(a);
        DeleteInsertAllSides(b);
        SourceTargetAppend(DeleteAll(a), InsertAll(b));
      }
    }
    forall a ensures !HasChange(CoarseMatcher(a, a)) {
      KeepAllSides(a);
    }
  }
}
