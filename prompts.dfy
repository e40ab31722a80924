/** The chat messages sent to a language model (ellm.py:34, 126-131). `json.dumps` is
    a parameter, `dumps`, since only its result is spliced into the text. */
module Prompts {
  import opened Text

  /** One message of a chat request: `{'role': role, 'content': content}`. */
  datatype Message = Message(role: string, content: string)

  const SynthesisSystem: string :=
    "You are a software developer who writes python code. You write only code as output, starting with ``` and ending with ```."
  const SynthesisOpening: string := "write "
  const SynthesisClosing: string := " and at the end call that function"

  /** `DEFAULT_META`: the prompt as the one user message. */
  function DefaultMeta(x: string): (r: seq<Message>)
    ensures |r| == 1 && r[0].role == "user" && r[0].content == x
  {
    [Message("user", x)]
  }

  /** `get_openai_synthesis_prompt`: a system message fixing the output format, then the
      request to write the quoted prompt and call it. */
  function SynthesisPrompt(prompt: string, dumps: string -> string): (r: seq<Message>)
    ensures |r| == 2 && r[0].role == "system" && r[1].role == "user"
    ensures r[0].content == SynthesisSystem
    ensures |r[1].content| == |SynthesisOpening| + |dumps(prompt)| + |SynthesisClosing|
    ensures StartsWith(r[1].content, SynthesisOpening)
    ensures r[1].content[|SynthesisOpening|..|r[1].content| - |SynthesisClosing|] == dumps(prompt)
    ensures r[1].content[|r[1].content| - |SynthesisClosing|..] == SynthesisClosing
  {
    [Message("system", SynthesisSystem), Message("user", SynthesisOpening + dumps(prompt) + SynthesisClosing)]
  }

  /** The contents joined by single spaces, the flattening used for the providers
      that take one text. */
  function JoinContents(messages: seq<Message>): string {
    Join(" ", Contents(messages))
  }

  function Contents(messages: seq<Message>): (r: seq<string>)
    ensures |r| == |messages| && forall i :: 0 <= i < |r| ==> r[i] == messages[i].content
  {
    if messages == [] then [] else [messages[0].content] + Contents(messages[1..])
  }

  /** `decorate_prompt_exec`: the synthesis prompt flattened into one text. */
  function DecoratePromptExec(prompt: string, dumps: string -> string): string {
    JoinContents(SynthesisPrompt(prompt, dumps))
  }

  // Properties.

  /** Flattening the default message gives the prompt back: the single-text providers
      send the prompt unchanged. */
  lemma DefaultMetaFlattens(x: string)
    ensures JoinContents(DefaultMeta(x)) == x
  {
    assert Contents(DefaultMeta(x)) == [x];
  }

  /** The flattened synthesis prompt is the system text, a space, then the user text; the
      quoted prompt sits at a fixed place in it, so it can be read back. */
  lemma DecoratedLayout(prompt: string, dumps: string -> string)
    ensures var d := DecoratePromptExec(prompt, dumps);
      var start := |SynthesisSystem| + 1 + |SynthesisOpening|;
      && d == SynthesisSystem + " " + SynthesisOpening + dumps(prompt) + SynthesisClosing
      && start + |SynthesisClosing| <= |d|
      && d[start..|d| - |SynthesisClosing|] == dumps(prompt)
  {
    var m := SynthesisPrompt(prompt, dumps);
    assert Contents(m) == [SynthesisSystem, SynthesisOpening + dumps(prompt) + SynthesisClosing];
    assert Join(" ", Contents(m)) == SynthesisSystem + " " + Join(" ", Contents(m)[1..]);
    var d := DecoratePromptExec(prompt, dumps);
    var start := |SynthesisSystem| + 1 + |SynthesisOpening|;
    assert d == (SynthesisSystem + " " + SynthesisOpening) + dumps(prompt) + SynthesisClosing;
  }

  /** Two prompts give the same decorated text exactly when `dumps` encodes them alike;
      with an injective encoder, as `json.dumps` is on strings, different prompts are
      never confused. */
  lemma DecoratedInjective(p: string, q: string, dumps: string -> string)
    ensures DecoratePromptExec(p, dumps) == DecoratePromptExec(q, dumps) <==> dumps(p) == dumps(q)
  {
    DecoratedLayout(p, dumps);
    DecoratedLayout(q, dumps);
  }
}
