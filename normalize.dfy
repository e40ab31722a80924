/** The line normaliser of the behavioural diff: `prefilter` and `split_for_diff`. */
module LineNormalizer {
  import opened Text

  /** `s` with its leading whitespace removed. */
  function TrimLeft(s: string): (r: string)
    ensures |r| <= |s|
  {
    if s != [] && IsSpace(s[0]) then TrimLeft(s[1..]) else s
  }

  /** `s` with its trailing whitespace removed. */
  function TrimRight(s: string): (r: string)
    ensures |r| <= |s|
  {
    if s != [] && IsSpace(s[|s| - 1]) then TrimRight(s[..|s| - 1]) else s
  }

  /** `line.strip()` */
  function PyStrip(line: string): string {
    TrimRight(TrimLeft(line))
  }

  /** Every maximal run of whitespace becomes one blank (the `re.sub` of prefilter). */
  function CollapseSpaces(s: string): string
    decreases |s|
  {
    if s == [] then ""
    else if IsSpace(s[0]) then " " + CollapseSpaces(TrimLeft(s))
    else [s[0]] + CollapseSpaces(s[1..])
  }

  /** `prefilter(line)` (stockholm_diff.py:70-74). */
  function Prefilter(line: string): string {
    CollapseSpaces(PyStrip(line))
  }

  predicate NoEdgeSpace(s: string) {
    s == [] || (!IsSpace(s[0]) && !IsSpace(s[|s| - 1]))
  }

  predicate NoDoubleSpace(s: string) {
    forall i :: 0 <= i < |s| - 1 ==> !(IsSpace(s[i]) && IsSpace(s[i + 1]))
  }

  predicate OnlyBlanks(s: string) {
    forall i :: 0 <= i < |s| ==> IsSpace(s[i]) ==> s[i] == ' '
  }

  /** The shape of a line after `prefilter`. */
  predicate IsNormalized(s: string) {
    NoEdgeSpace(s) && NoDoubleSpace(s) && OnlyBlanks(s)
  }

  /** `TrimLeft` drops a leading run of whitespace and stops at the first other character. */
  lemma {:induction false} TrimLeftShape(s: string)
    ensures var r := TrimLeft(s);
      && r == s[|s| - |r|..]
      && (r == [] || !IsSpace(r[0]))
      && forall i :: 0 <= i < |s| - |r| ==> IsSpace(s[i])
  {
    if s != [] && IsSpace(s[0]) {
      TrimLeftShape(s[1..]);
    }
  }

  /** `TrimRight` drops a trailing run of whitespace and stops at the last other character. */
  lemma {:induction false} TrimRightShape(s: string)
    ensures var r := TrimRight(s);
      && r == s[..|r|]
      && (r == [] || !IsSpace(r[|r| - 1]))
      && forall i :: |r| <= i < |s| ==> IsSpace(s[i])
  {
    if s != [] && IsSpace(s[|s| - 1]) {
      TrimRightShape(s[..|s| - 1]);
    }
  }

  /** The first character after collapsing: a blank for a leading run, the character itself otherwise. */
  lemma CollapseSpacesHead(s: string)
    ensures s == [] <==> CollapseSpaces(s) == []
    ensures s != [] && !IsSpace(s[0]) ==> CollapseSpaces(s)[0] == s[0]
  {
  }

  /** A string that ends with a non-space still does after collapsing. */
  lemma {:induction false} CollapseSpacesLast(s: string)
    requires s != [] && !IsSpace(s[|s| - 1])
    ensures CollapseSpaces(s) != [] && !IsSpace(CollapseSpaces(s)[|CollapseSpaces(s)| - 1])
    decreases |s|
  {
    if IsSpace(s[0]) {
      var t := TrimLeft(s);
      TrimLeftShape(s);
      assert t != [];
      assert t[|t| - 1] == s[|s| - 1];
      CollapseSpacesLast(t);
    } else if |s| > 1 {
      CollapseSpacesLast(s[1..]);
    }
  }

  /** After collapsing, every whitespace character is a blank and no two are adjacent. */
  lemma {:induction false} CollapseSpacesRuns(s: string)
    ensures NoDoubleSpace(CollapseSpaces(s)) && OnlyBlanks(CollapseSpaces(s))
    decreases |s|
  {
    var c := CollapseSpaces(s);
    if s != [] {
      var t := if IsSpace(s[0]) then TrimLeft(s) else s[1..];
      var ct := CollapseSpaces(t);
      CollapseSpacesRuns(t);
      assert c == [c[0]] + ct;
      assert c[1..] == ct;
      if IsSpace(s[0]) {
        TrimLeftShape(s);
        CollapseSpacesHead(t);
        assert ct != [] ==> !IsSpace(ct[0]);
      }
      forall i | 0 <= i < |c| - 1 ensures !(IsSpace(c[i]) && IsSpace(c[i + 1])) {
        if i > 0 {
          assert c[i] == ct[i - 1] && c[i + 1] == ct[i];
        }
      }
      forall i | 0 <= i < |c| && IsSpace(c[i]) ensures c[i] == ' ' {
        if i > 0 {
          assert c[i] == ct[i - 1];
        }
      }
    }
  }

  /** Collapsing changes nothing but whitespace. */
  lemma {:induction false} CollapseSpacesKeepsText(s: string)
    ensures RemoveSpaces(CollapseSpaces(s)) == RemoveSpaces(s)
    decreases |s|
  {
    if s != [] {
      if IsSpace(s[0]) {
        var t := TrimLeft(s);
        CollapseSpacesKeepsText(t);
        TrimLeftDropsSpaces(s);
        RemoveSpacesAppend(" ", CollapseSpaces(t));
      } else {
        CollapseSpacesKeepsText(s[1..]);
        assert s == [s[0]] + s[1..];
        RemoveSpacesAppend([s[0]], s[1..]);
        RemoveSpacesAppend([s[0]], CollapseSpaces(s[1..]));
      }
    }
  }

  /** What collapsing whitespace runs does to a string. */
  lemma CollapseSpacesShape(s: string)
    ensures NoDoubleSpace(CollapseSpaces(s)) && OnlyBlanks(CollapseSpaces(s))
    ensures RemoveSpaces(CollapseSpaces(s)) == RemoveSpaces(s)
    ensures s == [] <==> CollapseSpaces(s) == []
    ensures s != [] && !IsSpace(s[0]) ==> CollapseSpaces(s)[0] == s[0]
    ensures s != [] && !IsSpace(s[|s| - 1]) ==> !IsSpace(CollapseSpaces(s)[|CollapseSpaces(s)| - 1])
  {
    CollapseSpacesHead(s);
    CollapseSpacesRuns(s);
    CollapseSpacesKeepsText(s);
    if s != [] && !IsSpace(s[|s| - 1]) {
      CollapseSpacesLast(s);
    }
  }

  /** What `TrimLeft` drops is whitespace only. */
  lemma TrimLeftDropsSpaces(s: string)
    ensures RemoveSpaces(TrimLeft(s)) == RemoveSpaces(s)
  {
    var t := TrimLeft(s);
    TrimLeftShape(s);
    var lead := s[..|s| - |t|];
    assert s == lead + t;
    RemoveSpacesOfSpaces(lead);
    RemoveSpacesAppend(lead, t);
  }

  /** What `TrimRight` drops is whitespace only. */
  lemma TrimRightDropsSpaces(s: string)
    ensures RemoveSpaces(TrimRight(s)) == RemoveSpaces(s)
  {
    var r := TrimRight(s);
    TrimRightShape(s);
    var trail := s[|r|..];
    assert s == r + trail;
    RemoveSpacesOfSpaces(trail);
    RemoveSpacesAppend(r, trail);
  }

  /** `strip()` removes only whitespace and leaves none at either end. */
  lemma PyStripShape(line: string)
    ensures NoEdgeSpace(PyStrip(line))
    ensures RemoveSpaces(PyStrip(line)) == RemoveSpaces(line)
    ensures PyStrip(line) == [] <==> forall i :: 0 <= i < |line| ==> IsSpace(line[i])
  {
    var t := TrimLeft(line);
    var r := TrimRight(t);
    TrimLeftShape(line);
    TrimRightShape(t);
    assert NoEdgeSpace(r) by {
      if r != [] {
        assert r[0] == t[0];
      }
    }
    TrimLeftDropsSpaces(line);
    TrimRightDropsSpaces(t);
    assert r == [] ==> t == [];
  }

  /** `prefilter` leaves no whitespace at either end, no two whitespace characters side by
      side and no whitespace other than blanks, and changes nothing but whitespace. */
  lemma PrefilterShape(line: string)
    ensures IsNormalized(Prefilter(line))
    ensures RemoveSpaces(Prefilter(line)) == RemoveSpaces(line)
    ensures '\n' !in Prefilter(line)
  {
    var p := PyStrip(line);
    PyStripShape(line);
    CollapseSpacesShape(p);
    assert IsSpace('\n');
  }

  /** An already normalised line is left as it is. */
  lemma {:induction false} CollapseSpacesFixpoint(s: string)
    requires NoDoubleSpace(s) && OnlyBlanks(s)
    requires s == [] || !IsSpace(s[0])
    ensures CollapseSpaces(s) == s
    decreases |s|
  {
    if s != [] {
      var t := s[1..];
      if t != [] && IsSpace(t[0]) {
        assert t[0] == ' ';
        assert TrimLeft(t) == t[1..];
        CollapseSpacesFixpoint(t[1..]);
        assert CollapseSpaces(t) == " " + t[1..];
        assert [s[0]] + ([t[0]] + t[1..]) == s;
      } else {
        CollapseSpacesFixpoint(t);
        assert [s[0]] + t == s;
      }
    }
  }

  /** A line is a fixpoint of `prefilter` exactly when it has the normalised shape. */
  lemma PrefilterFixpointIff(s: string)
    ensures Prefilter(s) == s <==> IsNormalized(s)
  {
    PrefilterShape(s);
    if IsNormalized(s) {
      assert TrimLeft(s) == s;
      assert TrimRight(s) == s;
      CollapseSpacesFixpoint(s);
    }
  }

  /** Applying `prefilter` twice equals applying it once. */
  lemma PrefilterIdempotent(line: string)
    ensures Prefilter(Prefilter(line)) == Prefilter(line)
  {
    PrefilterShape(line);
    PrefilterFixpointIff(Prefilter(line));
  }

  /** `prefilter` gives the empty string exactly for whitespace-only lines. */
  lemma PrefilterEmptyIff(line: string)
    ensures Prefilter(line) == "" <==> forall i :: 0 <= i < |line| ==> IsSpace(line[i])
  {
    PyStripShape(line);
    CollapseSpacesShape(PyStrip(line));
  }

  /** The non-empty strings of `xs`, in order. */
  function KeepNonEmpty(xs: seq<string>): seq<string> {
    if xs == [] then [] else (if xs[0] != "" then [xs[0]] else []) + KeepNonEmpty(xs[1..])
  }

  function PrefilterAll(lines: seq<string>): (r: seq<string>)
    ensures |r| == |lines| && forall i :: 0 <= i < |lines| ==> r[i] == Prefilter(lines[i])
  {
    seq(|lines|, i requires 0 <= i < |lines| => Prefilter(lines[i]))
  }

  /** The normalised, non-empty lines of `lines`, in order (the comprehension of
      `split_for_diff`, which keeps `prefilter(x)` whenever it is non-empty). */
  function NormalizeLines(lines: seq<string>): seq<string> {
    KeepNonEmpty(PrefilterAll(lines))
  }

  /** `split_for_diff(s)` (stockholm_diff.py:76-79). */
  function SplitForDiff(s: string): seq<string> {
    NormalizeLines(Split(s, '\n'))
  }

  /** A line made of whitespace only, the empty line included. */
  predicate IsBlankLine(line: string) {
    forall i :: 0 <= i < |line| ==> IsSpace(line[i])
  }

  /** Number of lines that are not whitespace-only. */
  function NonBlankCount(lines: seq<string>): nat {
    if lines == [] then 0 else (if IsBlankLine(lines[0]) then 0 else 1) + NonBlankCount(lines[1..])
  }

  lemma {:induction false} KeepNonEmptyShape(xs: seq<string>)
    ensures forall i :: 0 <= i < |KeepNonEmpty(xs)| ==> KeepNonEmpty(xs)[i] != "" && KeepNonEmpty(xs)[i] in xs
    ensures IsSubsequence(KeepNonEmpty(xs), xs)
  {
    if xs != [] {
      KeepNonEmptyShape(xs[1..]);
      var rest := KeepNonEmpty(xs[1..]);
      if xs[0] != "" {
        assert KeepNonEmpty(xs) == [xs[0]] + rest;
        assert KeepNonEmpty(xs)[1..] == rest;
      } else {
        assert KeepNonEmpty(xs) == rest;
        if rest != [] {
          assert rest[0] != "";
        }
      }
    }
  }

  lemma {:induction false} KeepNonEmptyAppend(xs: seq<string>, ys: seq<string>)
    ensures KeepNonEmpty(xs + ys) == KeepNonEmpty(xs) + KeepNonEmpty(ys)
  {
    if xs == [] {
      assert xs + ys == ys;
    } else {
      assert (xs + ys)[0] == xs[0];
      assert (xs + ys)[1..] == xs[1..] + ys;
      KeepNonEmptyAppend(xs[1..], ys);
    }
  }

  lemma {:induction false} KeepNonEmptyAll(xs: seq<string>)
    requires forall i :: 0 <= i < |xs| ==> xs[i] != ""
    ensures KeepNonEmpty(xs) == xs
  {
    if xs != [] {
      KeepNonEmptyAll(xs[1..]);
      assert [xs[0]] + xs[1..] == xs;
    }
  }

  lemma PrefilterAllAppend(a: seq<string>, b: seq<string>)
    ensures PrefilterAll(a + b) == PrefilterAll(a) + PrefilterAll(b)
  {
    assert forall i :: 0 <= i < |a| ==> (a + b)[i] == a[i];
    assert forall i :: |a| <= i < |a| + |b| ==> (a + b)[i] == b[i - |a|];
  }

  /** One kept line per line that is not whitespace-only. */
  lemma {:induction false} NormalizeLinesCount(lines: seq<string>)
    ensures |NormalizeLines(lines)| == NonBlankCount(lines) <= |lines|
  {
    if lines != [] {
      NormalizeLinesCount(lines[1..]);
      PrefilterAllAppend([lines[0]], lines[1..]);
      assert [lines[0]] + lines[1..] == lines;
      var p := PrefilterAll([lines[0]]);
      assert p == [Prefilter(lines[0])];
      KeepNonEmptyAppend(p, PrefilterAll(lines[1..]));
      assert KeepNonEmpty(p) == if Prefilter(lines[0]) != "" then [Prefilter(lines[0])] else [] by {
        assert p[1..] == [];
      }
      PrefilterEmptyIff(lines[0]);
    }
  }

  /** Every kept line is non-empty and already normalised; the kept lines are the
      normalised lines in source order with the empty ones left out, one per
      non-blank input line. */
  lemma NormalizeLinesShape(lines: seq<string>)
    ensures forall i :: 0 <= i < |NormalizeLines(lines)| ==>
      NormalizeLines(lines)[i] != "" && Prefilter(NormalizeLines(lines)[i]) == NormalizeLines(lines)[i]
    ensures IsSubsequence(NormalizeLines(lines), PrefilterAll(lines))
    ensures |NormalizeLines(lines)| == NonBlankCount(lines) <= |lines|
  {
    var all := PrefilterAll(lines);
    var r := KeepNonEmpty(all);
    KeepNonEmptyShape(all);
    forall i | 0 <= i < |r| ensures Prefilter(r[i]) == r[i] {
      var j :| 0 <= j < |all| && all[j] == r[i];
      PrefilterIdempotent(lines[j]);
    }
    NormalizeLinesCount(lines);
  }

  /** `split_for_diff` keeps at most one line per `'\n'`-separated source line. */
  lemma SplitForDiffShape(s: string)
    ensures forall i :: 0 <= i < |SplitForDiff(s)| ==>
      SplitForDiff(s)[i] != "" && Prefilter(SplitForDiff(s)[i]) == SplitForDiff(s)[i]
    ensures IsSubsequence(SplitForDiff(s), PrefilterAll(Split(s, '\n')))
    ensures |SplitForDiff(s)| <= Count(s, '\n') + 1
  {
    NormalizeLinesShape(Split(s, '\n'));
    SplitCount(s, '\n');
  }

  lemma NormalizeLinesAppend(a: seq<string>, b: seq<string>)
    ensures NormalizeLines(a + b) == NormalizeLines(a) + NormalizeLines(b)
  {
    PrefilterAllAppend(a, b);
    KeepNonEmptyAppend(PrefilterAll(a), PrefilterAll(b));
  }

  /** Inserting a whitespace-only line anywhere does not change what is compared. */
  lemma BlankLineIgnored(a: seq<string>, blank: string, b: seq<string>)
    requires forall i :: 0 <= i < |blank| ==> IsSpace(blank[i])
    ensures NormalizeLines(a + [blank] + b) == NormalizeLines(a + b)
  {
    PrefilterEmptyIff(blank);
    assert NormalizeLines([blank]) == [] by {
      assert PrefilterAll([blank]) == [""];
      assert [""][1..] == [];
    }
    NormalizeLinesAppend(a + [blank], b);
    NormalizeLinesAppend(a, [blank]);
    NormalizeLinesAppend(a, b);
    assert NormalizeLines(a + [blank]) == NormalizeLines(a);
  }

  /** Lines that `prefilter` maps to the same text are interchangeable: re-indenting a
      line or changing the spacing inside it does not change what is compared. */
  lemma NormalizeLinesRespectsPrefilter(a: seq<string>, b: seq<string>)
    requires |a| == |b|
    requires forall i :: 0 <= i < |a| ==> Prefilter(a[i]) == Prefilter(b[i])
    ensures NormalizeLines(a) == NormalizeLines(b)
  {
    assert PrefilterAll(a) == PrefilterAll(b);
  }

  lemma NormalizeLinesFixpoint(lines: seq<string>)
    requires forall i :: 0 <= i < |lines| ==> lines[i] != "" && Prefilter(lines[i]) == lines[i]
    ensures NormalizeLines(lines) == lines
  {
    assert PrefilterAll(lines) == lines;
    KeepNonEmptyAll(lines);
  }

  /** Normalising the normalised text again changes nothing. */
  lemma SplitForDiffIdempotent(s: string)
    ensures SplitForDiff(Join("\n", SplitForDiff(s))) == SplitForDiff(s)
  {
    var r := SplitForDiff(s);
    SplitForDiffShape(s);
    if r == [] {
      assert Join("\n", r) == "";
    } else {
      forall i | 0 <= i < |r| ensures '\n' !in r[i] {
        PrefilterShape(r[i]);
      }
      SplitJoin(r, '\n');
      NormalizeLinesFixpoint(r);
    }
  }
}
