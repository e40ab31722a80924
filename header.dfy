/** The helpers of header-comment-python-file-with-llm.py: its chat prompt (96-100), its
    `extract_program` (114-123), which accepts fenced answers only, and the language tag
    taken from the file name (134). */
module HeaderComment {
  import opened Text
  import opened Outcome
  import opened DelimitedScan
  import opened ProgramExtraction
  import opened Prompts

  const ChatSystem: string :=
    "You are a software developer. You write only code as output, starting with ``` and ending with ```."

  /** `get_openai_chat_promp`: the format instruction, then the prompt as it is. */
  function ChatPrompt(prompt: string): (r: seq<Message>)
    ensures |r| == 2 && r[0] == Message("system", ChatSystem)
    ensures r[1].role == "user" && r[1].content == prompt
  {
    [Message("system", ChatSystem), Message("user", prompt)]
  }

  /** What this `extract_program` returns or raises. Any answer that is not fenced raises
      an Exception carrying the answer, so the regex scan after the `raise` never runs. */
  function ExtractedStrict(answer: string): Result<string> {
    var lines := DropTrailingEmpty(Split(answer, '\n'));
    if lines == [] then Failure(IndexError)
    else if IsFenced(lines) then Success(Join("\n", Inner(lines)))
    else Failure(RaisedException(answer))
  }

  /** `lang` is accepted and unused: it only appears after the `raise`. */
  method ExtractProgram(answer: string, lang: string) returns (r: Result<string>)
    ensures r == ExtractedStrict(answer)
  {
    var popped := PopTrailingEmpty(Split(answer, '\n'));
    if popped.None? {
      return Failure(IndexError);
    }
    var lines := popped.value;
    if StartsWith(lines[0], Fence) && StartsWith(lines[|lines| - 1], Fence) {
      return Success(Join("\n", Inner(lines)));
    }
    r := Failure(RaisedException(answer));
  }

  /** The last piece of the file name split at dots: what follows the last dot, or the
      whole name. */
  function LangSuffix(file: string): (r: string)
    ensures '.' !in r
    ensures '.' !in file ==> r == file
    ensures '.' in file ==> |r| < |file| && file[|file| - |r| - 1] == '.' && file[|file| - |r|..] == r
  {
    var parts := Split(file, '.');
    SplitLastIsSuffix(file, '.');
    if '.' !in file then SplitNoSep(file, '.'); parts[|parts| - 1]
    else parts[|parts| - 1]
  }

  // Properties.

  /** The tag of `stem.ext` is `ext`, for any stem, dotted or not. */
  lemma LangOfName(stem: string, ext: string)
    requires '.' !in ext
    ensures LangSuffix(stem + "." + ext) == ext
  {
    var file := stem + "." + ext;
    var r := LangSuffix(file);
    assert file[|stem|] == '.';
    assert file[|file| - |ext|..] == ext;
  }

  /** The user message is the default message of ellm.py. */
  lemma ChatPromptUserPart(prompt: string)
    ensures ChatPrompt(prompt)[1..] == DefaultMeta(prompt)
  {
  }

  /** The three outcomes: an IndexError for a blank answer, the code of a fenced answer
      (the same as ellm.py's), and otherwise the raised answer. */
  lemma StrictOutcomes(answer: string, lang: string)
    ensures ExtractedStrict(answer) == Failure(IndexError) <==> IsBlank(answer)
    ensures ExtractedStrict(answer).Success? ==> ExtractedStrict(answer) == Extracted(answer, lang)
    ensures ExtractedStrict(answer) == Failure(RaisedException(answer)) <==>
      var lines := DropTrailingEmpty(Split(answer, '\n')); lines != [] && !IsFenced(lines)
  {
    NothingKeptIff(answer);
  }

  /** A fenced block followed by blank lines gives its code back. */
  lemma StrictFencedRoundTrip(tag: string, code: string, k: nat)
    requires '\n' !in tag
    ensures ExtractedStrict(Fence + tag + "\n" + code + "\n" + Fence + Repeat('\n', k)) == Success(code)
  {
    FencedLines(tag, code, k);
    FencedRoundTrip(tag, code, k, "");
  }

  /** A model that echoes the prompt's code block, tagged with the file's suffix, gives
      the program back. */
  lemma EchoedBlock(file: string, program: string)
    requires '\n' !in file
    ensures ExtractedStrict(Fence + LangSuffix(file) + "\n" + program + "\n" + Fence) == Success(program)
  {
    var tag := LangSuffix(file);
    assert '\n' !in tag by {
      if '.' in file {
        assert forall i :: 0 <= i < |tag| ==> tag[i] == file[|file| - |tag| + i];
      }
    }
    assert Fence + tag + "\n" + program + "\n" + Fence + Repeat('\n', 0) == Fence + tag + "\n" + program + "\n" + Fence;
    StrictFencedRoundTrip(tag, program, 0);
  }

  /** Prose around a fenced block raises where ellm.py's version would return the block. */
  lemma ProseRaises(pre: string, lang: string, code: string, post: string)
    requires pre != [] && '`' !in pre && '`' !in lang && '`' !in code && '`' !in post
    ensures var answer := pre + Fence + lang + code + Fence + post;
      && ExtractedStrict(answer) == Failure(RaisedException(answer))
      && Extracted(answer, lang) == Success(code)
  {
    var answer := pre + Fence + lang + code + Fence + post;
    assert answer[0] == pre[0];
    assert answer[|pre|] == '`';
    ProseIsNotFenced(answer);
    OneBlockInProse(pre, lang, code, post);
  }
}
