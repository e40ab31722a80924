/** `extract_program` (ellm.py:146-156): the program inside a language model's answer.
    Trailing empty lines are dropped; an answer whose first and last lines open with a
    fence yields the lines in between, any other answer the bodies of its fenced blocks,
    joined by newlines. */
module ProgramExtraction {
  import opened Text
  import opened Outcome
  import opened DelimitedScan

  /** `lines` without its trailing empty lines. */
  function DropTrailingEmpty(lines: seq<string>): (r: seq<string>)
    ensures |r| <= |lines| && r == lines[..|r|]
    ensures r == [] || r[|r| - 1] != ""
    ensures forall i :: |r| <= i < |lines| ==> lines[i] == ""
  {
    if lines != [] && lines[|lines| - 1] == "" then DropTrailingEmpty(lines[..|lines| - 1]) else lines
  }

  /** `k` empty lines. */
  function Empties(k: nat): (r: seq<string>)
    ensures |r| == k && forall i :: 0 <= i < k ==> r[i] == ""
  {
    seq(k, _ => "")
  }

  /** The first and the last line both start with a fence. */
  predicate IsFenced(lines: seq<string>)
    requires lines != []
  {
    StartsWith(lines[0], Fence) && StartsWith(lines[|lines| - 1], Fence)
  }

  /** `lines[1:-1]` */
  function Inner(lines: seq<string>): (r: seq<string>)
    ensures |lines| >= 2 ==> |r| == |lines| - 2 && forall i :: 0 <= i < |r| ==> r[i] == lines[i + 1]
    ensures |lines| < 2 ==> r == []
  {
    if |lines| >= 2 then lines[1..|lines| - 1] else []
  }

  /** An answer made of newlines only, the empty answer included. */
  predicate IsBlank(answer: string) {
    forall i :: 0 <= i < |answer| ==> answer[i] == '\n'
  }

  /** What `extract_program(answer, lang)` returns or raises: `lines[-1]` raises an
      IndexError once every line has been popped. The tag `lang` is matched literally. */
  function Extracted(answer: string, lang: string): Result<string> {
    var lines := DropTrailingEmpty(Split(answer, '\n'));
    if lines == [] then Failure(IndexError)
    else if IsFenced(lines) then Success(Join("\n", Inner(lines)))
    else Success(Join("\n", FindAll(answer, Fence, lang, 0)))
  }

  /** The loop that pops trailing empty lines: `None` where it runs out of lines. */
  method PopTrailingEmpty(lines0: seq<string>) returns (r: Option<seq<string>>)
    ensures r.None? <==> DropTrailingEmpty(lines0) == []
    ensures r.Some? ==> r.value == DropTrailingEmpty(lines0)
  {
    var lines := lines0;
    while true
      invariant DropTrailingEmpty(lines) == DropTrailingEmpty(lines0)
      decreases |lines|
    {
      if |lines| == 0 {
        return None;
      }
      if lines[|lines| - 1] != "" {
        return Some(lines);
      }
      lines := lines[..|lines| - 1];
    }
  }

  method ExtractProgram(answer: string, lang: string) returns (r: Result<string>)
    ensures r == Extracted(answer, lang)
  {
    var popped := PopTrailingEmpty(Split(answer, '\n'));
    if popped.None? {
      return Failure(IndexError);
    }
    var lines := popped.value;
    if StartsWith(lines[0], Fence) && StartsWith(lines[|lines| - 1], Fence) {
      return Success(Join("\n", Inner(lines)));
    }
    r := Success(Join("\n", FindAll(answer, Fence, lang, 0)));
  }

  // The lines of an answer.

  /** The lines of the answer are the kept lines followed by the dropped empty ones. */
  lemma KeptThenEmpty(answer: string)
    ensures var all := Split(answer, '\n'); var lines := DropTrailingEmpty(all);
      all == lines + Empties(|all| - |lines|)
  {
    KeptThenEmptyLines(Split(answer, '\n'));
  }

  lemma KeptThenEmptyLines(all: seq<string>)
    ensures var lines := DropTrailingEmpty(all); all == lines + Empties(|all| - |lines|)
  {
    var lines := DropTrailingEmpty(all);
    var e := Empties(|all| - |lines|);
    forall i | 0 <= i < |all|
      ensures all[i] == (lines + e)[i]
    {
      if i < |lines| {
        assert lines[i] == all[i];
      } else {
        assert e[i - |lines|] == "";
      }
    }
  }

  lemma {:induction false} SplitBlank(s: string)
    ensures (forall i :: 0 <= i < |Split(s, '\n')| ==> Split(s, '\n')[i] == "") <==> IsBlank(s)
  {
    if s != [] {
      SplitBlank(s[1..]);
      var rest := Split(s[1..], '\n');
      if s[0] == '\n' {
        var all := Split(s, '\n');
        assert all == [""] + rest;
        assert (forall i :: 0 <= i < |all| ==> all[i] == "") <==> (forall i :: 0 <= i < |rest| ==> rest[i] == "") by {
          assert forall i :: 1 <= i < |all| ==> all[i] == rest[i - 1];
          assert forall j :: 0 <= j < |rest| ==> rest[j] == all[j + 1];
        }
        assert IsBlank(s) <==> IsBlank(s[1..]) by {
          assert forall i :: 1 <= i < |s| ==> s[i] == s[1..][i - 1];
        }
      } else {
        assert Split(s, '\n')[0] == [s[0]] + rest[0];
      }
    }
  }

  /** No line is kept exactly when the answer is blank. */
  lemma NothingKeptIff(answer: string)
    ensures DropTrailingEmpty(Split(answer, '\n')) == [] <==> IsBlank(answer)
  {
    SplitBlank(answer);
    var all := Split(answer, '\n');
    var lines := DropTrailingEmpty(all);
    if lines != [] {
      assert all[|lines| - 1] == lines[|lines| - 1];
    } else {
      assert forall i :: 0 <= i < |all| ==> all[i] == "";
    }
  }

  /** The kept lines start with the answer's first line. */
  lemma FirstKeptLine(answer: string)
    requires DropTrailingEmpty(Split(answer, '\n')) != []
    ensures var first := DropTrailingEmpty(Split(answer, '\n'))[0];
      |first| <= |answer| && first == answer[..|first|]
  {
    SplitFirstIsPrefix(answer, '\n');
  }

  /** Empty lines after a non-empty one are all dropped. */
  lemma DropEmpties(xs: seq<string>, k: nat)
    requires xs != [] && xs[|xs| - 1] != ""
    ensures DropTrailingEmpty(xs + Empties(k)) == xs
  {
    var r := DropTrailingEmpty(xs + Empties(k));
    assert (xs + Empties(k))[|xs| - 1] != "";
    assert |r| == |xs|;
  }

  lemma {:induction false} SplitNewlines(k: nat)
    ensures Split(Repeat('\n', k), '\n') == Empties(k + 1)
  {
    if k > 0 {
      SplitNewlines(k - 1);
      assert Repeat('\n', k)[1..] == Repeat('\n', k - 1);
    }
  }

  /** A closing fence line followed by `k` newlines. */
  lemma SplitClosing(k: nat)
    ensures Split(Fence + Repeat('\n', k), '\n') == [Fence] + Empties(k)
  {
    if k == 0 {
      assert Fence + Repeat('\n', k) == Fence;
      SplitNoSep(Fence, '\n');
    } else {
      assert Fence + Repeat('\n', k) == Fence + ['\n'] + Repeat('\n', k - 1);
      SplitConcat(Fence, Repeat('\n', k - 1), '\n');
      SplitNoSep(Fence, '\n');
      SplitNewlines(k - 1);
    }
  }

  lemma SplitThreeParts(a: string, c: string, t: string)
    requires '\n' !in a
    ensures Split(a + ['\n'] + (c + ['\n'] + t), '\n') == [a] + Split(c, '\n') + Split(t, '\n')
  {
    SplitConcat(a, c + ['\n'] + t, '\n');
    SplitConcat(c, t, '\n');
    SplitNoSep(a, '\n');
  }

  /** The kept lines of a fenced answer: the opening line, the code's lines, the closing line. */
  lemma FencedLines(tag: string, code: string, k: nat)
    requires '\n' !in tag
    ensures DropTrailingEmpty(Split(Fence + tag + "\n" + code + "\n" + Fence + Repeat('\n', k), '\n'))
         == [Fence + tag] + Split(code, '\n') + [Fence]
  {
    var a := Fence + tag;
    var tail := Fence + Repeat('\n', k);
    assert Fence + tag + "\n" + code + "\n" + Fence + Repeat('\n', k) == a + ['\n'] + (code + ['\n'] + tail);
    assert '\n' !in a;
    SplitThreeParts(a, code, tail);
    SplitClosing(k);
    var xs := [a] + Split(code, '\n') + [Fence];
    assert [a] + Split(code, '\n') + ([Fence] + Empties(k)) == xs + Empties(k);
    DropEmpties(xs, k);
  }

  // Properties.

  /** The only error is the IndexError of a blank answer. */
  lemma ExtractedFailsIff(answer: string, lang: string)
    ensures Extracted(answer, lang).Failure? <==> IsBlank(answer)
    ensures Extracted(answer, lang).Failure? ==> Extracted(answer, lang).error == IndexError
  {
    NothingKeptIff(answer);
  }

  /** A fenced block, opened with any tag and followed by blank lines, gives its code back. */
  lemma FencedRoundTrip(tag: string, code: string, k: nat, lang: string)
    requires '\n' !in tag
    ensures Extracted(Fence + tag + "\n" + code + "\n" + Fence + Repeat('\n', k), lang) == Success(code)
  {
    FencedLines(tag, code, k);
    var lines := [Fence + tag] + Split(code, '\n') + [Fence];
    assert (Fence + tag)[..3] == Fence;
    assert Inner(lines) == Split(code, '\n');
    JoinSplit(code, '\n');
  }

  lemma {:induction false} JoinEmpties(lines: seq<string>, m: nat)
    requires lines != []
    ensures Join("\n", lines + Empties(m)) == Join("\n", lines) + Repeat('\n', m)
  {
    if m == 0 {
      assert lines + Empties(m) == lines;
    } else {
      JoinEmpties(lines, m - 1);
      assert lines + Empties(m) == (lines + Empties(m - 1)) + [""];
      JoinSnoc("\n", lines + Empties(m - 1), "");
      RepeatSnoc('\n', m - 1);
    }
  }

  lemma JoinThree(sep: string, first: string, mid: seq<string>, last: string)
    requires |mid| >= 1
    ensures Join(sep, [first] + mid + [last]) == first + sep + Join(sep, mid) + sep + last
  {
    var xs := [first] + mid + [last];
    var tail := mid + [last];
    assert xs[0] == first && xs[1..] == tail && |xs| > 1;
    assert Join(sep, xs) == first + sep + Join(sep, tail);
    JoinSnoc(sep, mid, last);
  }

  lemma JoinOfFenced(lines: seq<string>, m: nat)
    requires |lines| >= 3
    ensures Join("\n", lines + Empties(m))
         == lines[0] + "\n" + Join("\n", Inner(lines)) + "\n" + lines[|lines| - 1] + Repeat('\n', m)
  {
    var first, mid, last := lines[0], Inner(lines), lines[|lines| - 1];
    assert lines == [first] + mid + [last];
    JoinFencedParts(first, mid, last, m);
  }

  lemma JoinFencedParts(first: string, mid: seq<string>, last: string, m: nat)
    requires |mid| >= 1
    ensures Join("\n", [first] + mid + [last] + Empties(m))
         == first + "\n" + Join("\n", mid) + "\n" + last + Repeat('\n', m)
  {
    var xs := [first] + mid + [last];
    JoinEmpties(xs, m);
    JoinThree("\n", first, mid, last);
    var j := Join("\n", mid);
    assert Join("\n", xs) == first + "\n" + j + "\n" + last;
  }

  /** Of a fenced answer the result is exactly what lies between the first line and the
      last kept line; with fewer than three kept lines it is empty. */
  lemma FencedBody(answer: string, lang: string)
    requires DropTrailingEmpty(Split(answer, '\n')) != []
    requires IsFenced(DropTrailingEmpty(Split(answer, '\n')))
    ensures Extracted(answer, lang).Success?
    ensures var all := Split(answer, '\n'); var lines := DropTrailingEmpty(all);
      var code := Extracted(answer, lang).value;
      && (|lines| <= 2 ==> code == "")
      && (|lines| >= 3 ==> Reassembles(answer, lines, code, |all| - |lines|))
  {
    var all := Split(answer, '\n');
    var lines := DropTrailingEmpty(all);
    ExtractedOfFenced(answer, lang, lines);
    FencedCode(answer, all, lines);
  }

  /** `answer` is the first line, the code, the last line and `m` more newlines. */
  predicate Reassembles(answer: string, lines: seq<string>, code: string, m: nat)
    requires lines != []
  {
    answer == lines[0] + "\n" + code + "\n" + lines[|lines| - 1] + Repeat('\n', m)
  }

  lemma FencedCode(answer: string, all: seq<string>, lines: seq<string>)
    requires all == Split(answer, '\n') && lines == DropTrailingEmpty(all)
    ensures |lines| <= 2 ==> Join("\n", Inner(lines)) == ""
    ensures |lines| >= 3 ==> Reassembles(answer, lines, Join("\n", Inner(lines)), |all| - |lines|)
  {
    if |lines| <= 2 {
      assert Inner(lines) == [];
    } else {
      JoinSplit(answer, '\n');
      assert ['\n'] == "\n";
      FencedLayout(answer, all, lines);
    }
  }

  lemma ExtractedOfFenced(answer: string, lang: string, lines: seq<string>)
    requires lines == DropTrailingEmpty(Split(answer, '\n')) && lines != [] && IsFenced(lines)
    ensures Extracted(answer, lang) == Success(Join("\n", Inner(lines)))
  {
  }

  /** Lines of which three or more are kept join to the first line, the inner lines, the
      last kept line and the dropped newlines. */
  lemma FencedLayout(s: string, all: seq<string>, lines: seq<string>)
    requires lines == DropTrailingEmpty(all) && |lines| >= 3
    requires Join("\n", all) == s
    ensures s == lines[0] + "\n" + Join("\n", Inner(lines)) + "\n" + lines[|lines| - 1] + Repeat('\n', |all| - |lines|)
  {
    KeptThenEmptyLines(all);
    JoinOfFenced(lines, |all| - |lines|);
  }

  /** An answer that does not start with a backtick is searched for fenced blocks. */
  lemma ProseIsNotFenced(answer: string)
    requires '`' in answer && answer[0] != '`'
    ensures DropTrailingEmpty(Split(answer, '\n')) != []
    ensures !IsFenced(DropTrailingEmpty(Split(answer, '\n')))
  {
    NothingKeptIff(answer);
    FirstKeptLine(answer);
    var first := DropTrailingEmpty(Split(answer, '\n'))[0];
    if |first| >= 3 {
      assert first[0] == answer[0];
      assert first[..3][0] == first[0];
    }
  }

  /** Without a complete fenced block an unfenced answer gives the empty program. */
  lemma NoBlockNoProgram(answer: string, lang: string)
    requires DropTrailingEmpty(Split(answer, '\n')) != []
    requires !IsFenced(DropTrailingEmpty(Split(answer, '\n')))
    ensures Extracted(answer, lang) == Success("") <== !HasBlock(answer, Fence, 0)
  {
    FindAllEmptyIff(answer, Fence, lang, 0);
  }

  /** Prose around one block tagged with `lang`: the block's code, without the tag. */
  lemma OneBlockInProse(pre: string, lang: string, code: string, post: string)
    requires pre != [] && '`' !in pre && '`' !in lang && '`' !in code && '`' !in post
    ensures Extracted(pre + Fence + lang + code + Fence + post, lang) == Success(code)
  {
    var answer := pre + Fence + lang + code + Fence + post;
    assert answer[0] == pre[0];
    assert answer[|pre|] == '`';
    ProseIsNotFenced(answer);
    FindAllOfOneBlock(pre, lang, code, post);
  }
}
