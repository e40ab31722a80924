/** The two fixed regular expressions of ellm.py, as explicit scans: the fenced-block
    pattern of `extract_program` (ellm.py:155) and the triple-quote pattern of
    `replace_docstring` (ellm.py:181-184). Both are "a delimiter, an optional literal tag,
    then the shortest text up to the next delimiter" (the triple-quote pattern has no
    tag). The optional group is greedy: the tag is tried first, and the match without it
    is tried only when no closing delimiter follows the tag. `lang` is taken as a literal
    string (it is pasted into the pattern unescaped, so a tag with regex metacharacters
    is outside this model). */
module DelimitedScan {
  import opened Text
  import opened Outcome

  const Fence: string := "```"
  const TripleQuote: string := "\"\"\""

  /** The first index at or after `from` where `pat` occurs. */
  function FirstAt(s: string, pat: string, from: nat): (r: Option<nat>)
    ensures r.Some? ==> from <= r.value && r.value + |pat| <= |s|
    decreases |s| - from
  {
    if from + |pat| > |s| then None
    else if OccursAt(s, pat, from) then Some(from)
    else FirstAt(s, pat, from + 1)
  }

  /** What FirstAt finds is the first occurrence: it is one, none lies before it, and
      there is none at all when it finds nothing. */
  lemma {:induction false} FirstAtIsFirst(s: string, pat: string, from: nat)
    ensures var r := FirstAt(s, pat, from);
      && (r.Some? ==> OccursAt(s, pat, r.value))
      && (r.Some? ==> forall q :: from <= q < r.value ==> !OccursAt(s, pat, q))
      && (r.None? ==> forall q :: from <= q ==> !OccursAt(s, pat, q))
    decreases |s| - from
  {
    if from + |pat| <= |s| && !OccursAt(s, pat, from) {
      FirstAtIsFirst(s, pat, from + 1);
    }
  }

  /** A match: the captured group and the index just after the closing delimiter. */
  datatype Match = Match(group: string, end: nat)

  /** The match of `delim (?:tag)? (shortest text) delim` that starts exactly at p. */
  function MatchAt(s: string, p: nat, delim: string, tag: string): (r: Option<Match>)
    requires |delim| > 0
    ensures r.Some? ==> p + 2 * |delim| <= r.value.end <= |s|
  {
    if !OccursAt(s, delim, p) then None
    else
      var afterTag := p + |delim| + |tag|;
      var closeAfterTag := FirstAt(s, delim, afterTag);
      if OccursAt(s, tag, p + |delim|) && closeAfterTag.Some? then
        Some(Match(s[afterTag..closeAfterTag.value], closeAfterTag.value + |delim|))
      else
        match FirstAt(s, delim, p + |delim|)
        case None => None
        case Some(q) => Some(Match(s[p + |delim|..q], q + |delim|))
  }

  /** `re.findall` from index p: the groups of the successive non-overlapping matches,
      the scan resuming after each match and moving one character on after a failure. */
  function FindAll(s: string, delim: string, tag: string, p: nat): seq<string>
    requires |delim| > 0
    decreases |s| - p
  {
    if p >= |s| then []
    else
      match MatchAt(s, p, delim, tag)
      case Some(m) => [m.group] + FindAll(s, delim, tag, m.end)
      case None => FindAll(s, delim, tag, p + 1)
  }

  /** `re.search` from index p: the leftmost match. */
  function Search(s: string, delim: string, p: nat): Option<Match>
    requires |delim| > 0
    decreases |s| - p
  {
    if p >= |s| then None
    else
      match MatchAt(s, p, delim, "")
      case Some(m) => Some(m)
      case None => Search(s, delim, p + 1)
  }

  /** Some opening delimiter at or after p is followed by a closing one after it. */
  ghost predicate HasBlock(s: string, delim: string, p: nat) {
    exists i, j :: p <= i && i + |delim| <= j && OccursAt(s, delim, i) && OccursAt(s, delim, j)
  }

  lemma Found(s: string, pat: string, from: nat)
    requires FirstAt(s, pat, from).Some?
    ensures OccursAt(s, pat, FirstAt(s, pat, from).value)
  {
    FirstAtIsFirst(s, pat, from);
  }

  lemma NoneFound(s: string, pat: string, from: nat, q: nat)
    requires FirstAt(s, pat, from).None? && from <= q
    ensures !OccursAt(s, pat, q)
  {
    FirstAtIsFirst(s, pat, from);
  }

  // Properties of one match.

  /** A match at p opens with the delimiter at p, captures text that starts right after
      it (or after the tag), ends at the next delimiter, and contains no delimiter. */
  lemma MatchAtSound(s: string, p: nat, delim: string, tag: string)
    requires |delim| > 0
    requires MatchAt(s, p, delim, tag).Some?
    ensures var m := MatchAt(s, p, delim, tag).value;
      && OccursAt(s, delim, p)
      && (Captures(s, delim, p + |delim|, m) ||
          (OccursAt(s, tag, p + |delim|) && Captures(s, delim, p + |delim| + |tag|, m)))
  {
    var afterTag := p + |delim| + |tag|;
    var m := MatchAt(s, p, delim, tag).value;
    if OccursAt(s, tag, p + |delim|) && FirstAt(s, delim, afterTag).Some? {
      CaptureSound(s, delim, afterTag, m);
    } else {
      CaptureSound(s, delim, p + |delim|, m);
    }
  }

  /** `m` captures the text from `from` up to a closing delimiter, with no delimiter
      inside, and ends just after the closing one. */
  predicate Captures(s: string, delim: string, from: nat, m: Match) {
    && from + |m.group| + |delim| == m.end <= |s|
    && m.group == s[from..from + |m.group|]
    && OccursAt(s, delim, from + |m.group|)
    && (forall k :: from <= k < from + |m.group| ==> !OccursAt(s, delim, k))
  }

  /** The capture that runs from `from` to the next delimiter. */
  lemma CaptureSound(s: string, delim: string, from: nat, m: Match)
    requires FirstAt(s, delim, from).Some?
    requires var q := FirstAt(s, delim, from).value; m == Match(s[from..q], q + |delim|)
    ensures Captures(s, delim, from, m)
  {
    FirstAtIsFirst(s, delim, from);
  }

  /** A match starts at p exactly when the delimiter is at p and occurs again after it. */
  lemma MatchAtExists(s: string, p: nat, delim: string, tag: string)
    requires |delim| > 0
    ensures MatchAt(s, p, delim, tag).Some? <==>
      OccursAt(s, delim, p) && FirstAt(s, delim, p + |delim|).Some?
  {
    var afterTag := p + |delim| + |tag|;
    if OccursAt(s, delim, p) && FirstAt(s, delim, afterTag).Some? {
      var q := FirstAt(s, delim, afterTag).value;
      Found(s, delim, afterTag);
      if FirstAt(s, delim, p + |delim|).None? {
        NoneFound(s, delim, p + |delim|, q);
      }
    }
  }

  /** No text between two delimiters contains the delimiter itself. */
  lemma GroupHasNoDelimiter(s: string, p: nat, delim: string, tag: string)
    requires |delim| > 0
    requires MatchAt(s, p, delim, tag).Some?
    ensures var g := MatchAt(s, p, delim, tag).value.group;
      forall k :: !OccursAt(g, delim, k)
  {
    MatchAtSound(s, p, delim, tag);
    var m := MatchAt(s, p, delim, tag).value;
    if Captures(s, delim, p + |delim|, m) {
      NoDelimiterInCapture(s, delim, p + |delim|, m);
    } else {
      NoDelimiterInCapture(s, delim, p + |delim| + |tag|, m);
    }
  }

  lemma NoDelimiterInCapture(s: string, delim: string, from: nat, m: Match)
    requires |delim| > 0 && Captures(s, delim, from, m)
    ensures forall k :: !OccursAt(m.group, delim, k)
  {
    NoDelimiterInSlice(s, from, from + |m.group|, delim);
  }

  /** A slice of positions where the delimiter does not start holds no delimiter. */
  lemma NoDelimiterInSlice(s: string, start: nat, end: nat, delim: string)
    requires |delim| > 0 && start <= end <= |s|
    requires forall q :: start <= q < end ==> !OccursAt(s, delim, q)
    ensures forall k :: !OccursAt(s[start..end], delim, k)
  {
    forall k: nat | OccursAt(s[start..end], delim, k)
      ensures false
    {
      OccursInSlice(s, start, end, delim, k);
    }
  }

  lemma OccursInSlice(s: string, start: nat, end: nat, pat: string, k: nat)
    requires start <= end <= |s|
    requires OccursAt(s[start..end], pat, k)
    ensures OccursAt(s, pat, start + k)
  {
    var u := s[start..end][k..k + |pat|];
    var v := s[start + k..start + k + |pat|];
    forall t | 0 <= t < |pat|
      ensures u[t] == v[t]
    {
      assert u[t] == s[start..end][k + t] == s[start + k + t];
    }
    assert u == v;
  }

  // Properties of the scans.

  lemma NoBlockAtEnd(s: string, delim: string, p: nat)
    requires |delim| > 0 && p >= |s|
    ensures !HasBlock(s, delim, p)
  {
  }

  /** Positions where no match starts are stepped over without effect on HasBlock. */
  lemma HasBlockStep(s: string, delim: string, tag: string, p: nat)
    requires |delim| > 0
    requires MatchAt(s, p, delim, tag).None?
    ensures HasBlock(s, delim, p) <==> HasBlock(s, delim, p + 1)
  {
    MatchAtExists(s, p, delim, tag);
    if HasBlock(s, delim, p) {
      var i, j :| p <= i && i + |delim| <= j && OccursAt(s, delim, i) && OccursAt(s, delim, j);
      if FirstAt(s, delim, p + |delim|).None? && i == p {
        NoneFound(s, delim, p + |delim|, j);
      }
      assert p < i;
      assert HasBlock(s, delim, p + 1);
    }
  }

  lemma HasBlockOfMatch(s: string, delim: string, tag: string, p: nat)
    requires |delim| > 0
    requires MatchAt(s, p, delim, tag).Some?
    ensures HasBlock(s, delim, p)
  {
    MatchAtExists(s, p, delim, tag);
    var j := FirstAt(s, delim, p + |delim|).value;
    Found(s, delim, p + |delim|);
    assert p <= p && p + |delim| <= j && OccursAt(s, delim, p) && OccursAt(s, delim, j);
  }

  /** `findall` finds nothing exactly when no delimiter is followed by another one. */
  lemma {:induction false} FindAllEmptyIff(s: string, delim: string, tag: string, p: nat)
    requires |delim| > 0
    ensures FindAll(s, delim, tag, p) == [] <==> !HasBlock(s, delim, p)
    decreases |s| - p
  {
    if p >= |s| {
      NoBlockAtEnd(s, delim, p);
    } else if MatchAt(s, p, delim, tag).Some? {
      HasBlockOfMatch(s, delim, tag, p);
    } else {
      FindAllEmptyIff(s, delim, tag, p + 1);
      HasBlockStep(s, delim, tag, p);
    }
  }

  /** `re.search` finds nothing exactly when no delimiter is followed by another one. */
  lemma {:induction false} SearchNoneIff(s: string, delim: string, p: nat)
    requires |delim| > 0
    ensures Search(s, delim, p).None? <==> !HasBlock(s, delim, p)
    decreases |s| - p
  {
    if p >= |s| {
      NoBlockAtEnd(s, delim, p);
    } else if MatchAt(s, p, delim, "").Some? {
      HasBlockOfMatch(s, delim, "", p);
    } else {
      SearchNoneIff(s, delim, p + 1);
      HasBlockStep(s, delim, "", p);
    }
  }

  /** The group `re.search` returns is the first group `re.findall` returns. */
  lemma {:induction false} SearchIsFirstOfFindAll(s: string, delim: string, p: nat)
    requires |delim| > 0
    ensures Search(s, delim, p).None? <==> FindAll(s, delim, "", p) == []
    ensures Search(s, delim, p).Some? ==> FindAll(s, delim, "", p)[0] == Search(s, delim, p).value.group
    decreases |s| - p
  {
    if p < |s| && MatchAt(s, p, delim, "").None? {
      SearchIsFirstOfFindAll(s, delim, p + 1);
    }
  }

  /** Every group `findall` returns is delimiter-free. */
  lemma {:induction false} FindAllGroupsHaveNoDelimiter(s: string, delim: string, tag: string, p: nat)
    requires |delim| > 0
    ensures forall g :: g in FindAll(s, delim, tag, p) ==> forall k :: !OccursAt(g, delim, k)
    decreases |s| - p
  {
    if p < |s| {
      match MatchAt(s, p, delim, tag)
      case Some(m) =>
        GroupHasNoDelimiter(s, p, delim, tag);
        FindAllGroupsHaveNoDelimiter(s, delim, tag, m.end);
      case None =>
        FindAllGroupsHaveNoDelimiter(s, delim, tag, p + 1);
    }
  }

  /** Positions without a delimiter are skipped by the scan. */
  lemma {:induction false} FindAllSkip(s: string, delim: string, tag: string, p: nat, p': nat)
    requires |delim| > 0
    requires p <= p' <= |s|
    requires forall i :: p <= i < p' ==> !OccursAt(s, delim, i)
    ensures FindAll(s, delim, tag, p) == FindAll(s, delim, tag, p')
    decreases p' - p
  {
    if p < p' {
      FindAllSkip(s, delim, tag, p + 1, p');
    }
  }

  lemma {:induction false} SearchSkip(s: string, delim: string, p: nat, p': nat)
    requires |delim| > 0
    requires p <= p' <= |s|
    requires forall i :: p <= i < p' ==> !OccursAt(s, delim, i)
    ensures Search(s, delim, p) == Search(s, delim, p')
    decreases p' - p
  {
    if p < p' {
      SearchSkip(s, delim, p + 1, p');
    }
  }

  /** The first delimited pair in closed form: the first delimiter opens, the nearest
      delimiter after it closes, and there is none when either is missing. */
  function FirstPair(s: string, delim: string): Option<Match> {
    match FirstAt(s, delim, 0)
    case None => None
    case Some(i) =>
      match FirstAt(s, delim, i + |delim|)
      case None => None
      case Some(j) => Some(Match(s[i + |delim|..j], j + |delim|))
  }

  /** `re.search` of the triple-quote pattern is the first delimited pair. */
  lemma SearchIsFirstPair(s: string, delim: string)
    requires |delim| > 0
    ensures Search(s, delim, 0) == FirstPair(s, delim)
  {
    match FirstAt(s, delim, 0)
    case None =>
      SearchWithoutOpening(s, delim);
    case Some(i) =>
      SearchFromFirstOpening(s, delim, i);
      SearchAtOpening(s, delim, i);
      FirstPairFrom(s, delim, i);
  }

  lemma FirstPairFrom(s: string, delim: string, i: nat)
    requires FirstAt(s, delim, 0) == Some(i)
    ensures FirstPair(s, delim) == match FirstAt(s, delim, i + |delim|)
        case None => None
        case Some(j) => Some(Match(s[i + |delim|..j], j + |delim|))
  {
  }

  lemma SearchWithoutOpening(s: string, delim: string)
    requires |delim| > 0 && FirstAt(s, delim, 0).None?
    ensures Search(s, delim, 0).None?
  {
    FirstAtIsFirst(s, delim, 0);
    SearchSkip(s, delim, 0, |s|);
  }

  lemma SearchFromFirstOpening(s: string, delim: string, i: nat)
    requires |delim| > 0 && FirstAt(s, delim, 0) == Some(i)
    ensures OccursAt(s, delim, i) && Search(s, delim, 0) == Search(s, delim, i)
  {
    FirstAtIsFirst(s, delim, 0);
    SearchSkip(s, delim, 0, i);
  }

  lemma SearchAtOpening(s: string, delim: string, i: nat)
    requires |delim| > 0 && OccursAt(s, delim, i)
    ensures Search(s, delim, i) ==
      match FirstAt(s, delim, i + |delim|)
      case None => None
      case Some(j) => Some(Match(s[i + |delim|..j], j + |delim|))
  {
    assert OccursAt(s, "", i + |delim|);
    if FirstAt(s, delim, i + |delim|).None? {
      assert MatchAt(s, i, delim, "").None?;
      assert Search(s, delim, i) == Search(s, delim, i + 1);
      NoBlockAfterLastOpening(s, delim, i);
      SearchNoneIff(s, delim, i + 1);
    }
  }

  lemma NoBlockAfterLastOpening(s: string, delim: string, i: nat)
    requires |delim| > 0
    requires FirstAt(s, delim, i + |delim|).None?
    ensures !HasBlock(s, delim, i + 1)
  {
    FirstAtIsFirst(s, delim, i + |delim|);
    forall a, b | i + 1 <= a && a + |delim| <= b && OccursAt(s, delim, a)
      ensures !OccursAt(s, delim, b)
    {
      assert i + |delim| <= b;
    }
  }

  /** FirstAt finds q when nothing occurs before it. */
  lemma {:induction false} FirstAtIs(s: string, pat: string, from: nat, q: nat)
    requires from <= q && OccursAt(s, pat, q)
    requires forall k :: from <= k < q ==> !OccursAt(s, pat, k)
    ensures FirstAt(s, pat, from) == Some(q)
    decreases q - from
  {
    if from < q {
      FirstAtIs(s, pat, from + 1, q);
    }
  }

  /** A block with no backtick inside, after text with no backtick, is found whole; the
      tag, when present right after the opening fence, is left out of the group. */
  lemma FindAllOfOneBlock(pre: string, tag: string, code: string, post: string)
    requires '`' !in pre && '`' !in tag && '`' !in code && '`' !in post
    ensures FindAll(pre + Fence + tag + code + Fence + post, Fence, tag, 0) == [code]
  {
    var s := pre + Fence + tag + code + Fence + post;
    OneBlockLayout(s, pre, tag, code, post);
    FindAllOfLayout(s, |pre|, |pre| + 3 + |tag| + |code|, tag, code);
  }

  lemma FindAllOfLayout(s: string, open: nat, close: nat, tag: string, code: string)
    requires close + 3 <= |s|
    requires OccursAt(s, Fence, open) && OccursAt(s, Fence, close) && OccursAt(s, tag, open + 3)
    requires close == open + 3 + |tag| + |code| && s[open + 3 + |tag|..close] == code
    requires forall i: nat :: i < open || open + 3 + |tag| <= i < close || close + 3 <= i ==> !OccursAt(s, Fence, i)
    ensures FindAll(s, Fence, tag, 0) == [code]
  {
    FindAllSkip(s, Fence, tag, 0, open);
    FindAllFromOpening(s, open, close, tag, code);
  }

  lemma FindAllFromOpening(s: string, open: nat, close: nat, tag: string, code: string)
    requires close + 3 <= |s|
    requires OccursAt(s, Fence, open) && OccursAt(s, Fence, close) && OccursAt(s, tag, open + 3)
    requires close == open + 3 + |tag| + |code| && s[open + 3 + |tag|..close] == code
    requires forall i: nat :: open + 3 + |tag| <= i < close || close + 3 <= i ==> !OccursAt(s, Fence, i)
    ensures FindAll(s, Fence, tag, open) == [code]
  {
    MatchOfLayout(s, open, close, tag, code);
    FindAllOfMatch(s, Fence, tag, open, code, close + 3);
    FindAllNoneFrom(s, Fence, tag, close + 3);
    var rest := FindAll(s, Fence, tag, close + 3);
    assert rest == [];
    assert FindAll(s, Fence, tag, open) == [code] + rest;
  }

  /** With no delimiter at or after p, `findall` finds nothing from p. */
  lemma FindAllNoneFrom(s: string, delim: string, tag: string, p: nat)
    requires |delim| > 0 && p <= |s|
    requires forall i: nat :: p <= i ==> !OccursAt(s, delim, i)
    ensures FindAll(s, delim, tag, p) == []
  {
    FindAllSkip(s, delim, tag, p, |s|);
    FindAllAtEnd(s, delim, tag);
  }

  /** Where a match starts, `findall` reports its group and resumes after it. */
  lemma FindAllOfMatch(s: string, delim: string, tag: string, p: nat, group: string, end: nat)
    requires |delim| > 0 && MatchAt(s, p, delim, tag) == Some(Match(group, end))
    ensures FindAll(s, delim, tag, p) == [group] + FindAll(s, delim, tag, end)
  {
  }

  lemma FindAllAtEnd(s: string, delim: string, tag: string)
    requires |delim| > 0
    ensures FindAll(s, delim, tag, |s|) == []
  {
  }

  lemma MatchOfLayout(s: string, open: nat, close: nat, tag: string, code: string)
    requires close + 3 <= |s|
    requires OccursAt(s, Fence, open) && OccursAt(s, Fence, close) && OccursAt(s, tag, open + 3)
    requires close == open + 3 + |tag| + |code| && s[open + 3 + |tag|..close] == code
    requires forall i: nat :: open + 3 + |tag| <= i < close ==> !OccursAt(s, Fence, i)
    ensures MatchAt(s, open, Fence, tag) == Some(Match(code, close + 3))
  {
    FirstAtIs(s, Fence, open + 3 + |tag|, close);
  }

  lemma OneBlockLayout(s: string, pre: string, tag: string, code: string, post: string)
    requires s == pre + Fence + tag + code + Fence + post
    requires '`' !in pre && '`' !in tag && '`' !in code && '`' !in post
    ensures var open := |pre|; var close := open + 3 + |tag| + |code|;
      && |s| == close + 3 + |post|
      && OccursAt(s, Fence, open) && OccursAt(s, Fence, close) && OccursAt(s, tag, open + 3)
      && s[open + 3 + |tag|..close] == code
      && (forall i: nat :: i < open || open + 3 + |tag| <= i < close || close + 3 <= i ==> !OccursAt(s, Fence, i))
  {
    var open := |pre|;
    var close := open + 3 + |tag| + |code|;
    assert s[open..open + 3] == Fence;
    assert s[close..close + 3] == Fence;
    assert s[open + 3..open + 3 + |tag|] == tag;
    assert s[open + 3 + |tag|..close] == code;
    forall i: nat | i < open || open + 3 + |tag| <= i < close || close + 3 <= i
      ensures !OccursAt(s, Fence, i)
    {
      NoFenceAt(s, pre, tag, code, post, i);
    }
  }

  lemma NoFenceAt(s: string, pre: string, tag: string, code: string, post: string, i: nat)
    requires s == pre + Fence + tag + code + Fence + post
    requires '`' !in pre && '`' !in tag && '`' !in code && '`' !in post
    requires var a := |pre|; var b := a + 3 + |tag| + |code|;
      i < a || a + 3 + |tag| <= i < b || b + 3 <= i
    ensures !OccursAt(s, Fence, i)
  {
    var a := |pre|;
    var b := a + 3 + |tag| + |code|;
    if i + 3 <= |s| {
      assert s[i..i + 3][0] == s[i];
      if i < a {
        assert s[i] == pre[i];
      } else if i < b {
        assert s[i] == code[i - (a + 3 + |tag|)];
      } else {
        assert s[i] == post[i - (b + 3)];
      }
    }
  }
}
