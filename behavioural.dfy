/** The behavioural diff `diff_python` (stockholm_diff.py:109-118) and the canonical
    printer `str2ast2str` (stockholm_diff.py:101-107). Python's parser and printer are
    parameters: `parse` stands for `ast.parse` (which fails with a SyntaxError on invalid
    source) and `unparse` for `ast.unparse`. */
module BehaviouralDiff {
  import opened Outcome
  import opened PyAst
  import opened DocstringRemoval
  import opened LineNormalizer
  import opened UnifiedDiff
  import Text

  type Parser = string -> Result<Module>
  type Unparser = Module -> string

  /** `str2ast2str`: parse, remove the docstrings, print back. */
  function Str2Ast2Str(parse: Parser, unparse: Unparser, source: string): Result<string> {
    match parse(source)
    case Failure(err) => Failure(err)
    case Success(tree) => Success(unparse(VisitModule(tree)))
  }

  /** `diff_python`: both sides through `str2ast2str` (the earlier assignment of
      `remove_comments_and_docstrings` to `f` is overwritten before use), split into
      normalised lines, then compared line by line with no context. `before` is printed
      first, so its error wins when both fail. */
  function DiffPython(parse: Parser, unparse: Unparser, matcher: Matcher, before: string, after: string): Result<seq<string>> {
    match Str2Ast2Str(parse, unparse, before)
    case Failure(err) => Failure(err)
    case Success(b) =>
      match Str2Ast2Str(parse, unparse, after)
      case Failure(err) => Failure(err)
      case Success(a) => Success(UnifiedDiffZero(matcher(SplitForDiff(b), SplitForDiff(a))))
  }

  /** The printed forms only differ where the trees differ once docstrings are removed. */
  lemma CanonicalFormIgnoresDocstrings(parse: Parser, unparse: Unparser, x: string, y: string, mx: Module, my: Module)
    requires parse(x) == Success(mx) && parse(y) == Success(my)
    requires VisitModule(mx) == VisitModule(my)
    ensures Str2Ast2Str(parse, unparse, x) == Str2Ast2Str(parse, unparse, y)
    ensures Str2Ast2Str(parse, unparse, x).Success?
  {
  }

  /** A source that does not parse makes the diff fail with the parser's error; before
      is reported first. */
  lemma DiffPythonErrors(parse: Parser, unparse: Unparser, matcher: Matcher, before: string, after: string)
    ensures DiffPython(parse, unparse, matcher, before, after).Failure? <==>
      parse(before).Failure? || parse(after).Failure?
    ensures parse(before).Failure? ==>
      DiffPython(parse, unparse, matcher, before, after) == Failure(parse(before).error)
    ensures parse(before).Success? && parse(after).Failure? ==>
      DiffPython(parse, unparse, matcher, before, after) == Failure(parse(after).error)
  {
  }

  /** The verdict: for two sources that parse, the delta is empty exactly when their
      canonical forms split into the same normalised lines. */
  lemma DiffPythonVerdict(parse: Parser, unparse: Unparser, matcher: Matcher, before: string, after: string)
    requires IsMatcher(matcher) && MatchesEqual(matcher)
    requires parse(before).Success? && parse(after).Success?
    ensures var b := unparse(VisitModule(parse(before).value));
      var a := unparse(VisitModule(parse(after).value));
      && DiffPython(parse, unparse, matcher, before, after).Success?
      && (DiffPython(parse, unparse, matcher, before, after).value == [] <==> SplitForDiff(b) == SplitForDiff(a))
  {
    var b := unparse(VisitModule(parse(before).value));
    var a := unparse(VisitModule(parse(after).value));
    EmptyDeltaIffEqual(matcher, SplitForDiff(b), SplitForDiff(a));
  }

  /** With no context lines, the '-' lines of a non-empty delta are normalised lines of
      the canonical `before`, in their order, and the '+' lines likewise come from `after`. */
  lemma DiffPythonLines(parse: Parser, unparse: Unparser, matcher: Matcher, before: string, after: string)
    requires IsMatcher(matcher)
    requires parse(before).Success? && parse(after).Success?
    requires DiffPython(parse, unparse, matcher, before, after).Success?
    requires DiffPython(parse, unparse, matcher, before, after).value != []
    ensures var delta := DiffPython(parse, unparse, matcher, before, after).value;
      var b := SplitForDiff(unparse(VisitModule(parse(before).value)));
      var a := SplitForDiff(unparse(VisitModule(parse(after).value)));
      && |delta| >= 2
      && Text.IsSubsequence(Marked(delta[2..], '-'), b)
      && Text.IsSubsequence(Marked(delta[2..], '+'), a)
  {
    var b := SplitForDiff(unparse(VisitModule(parse(before).value)));
    var a := SplitForDiff(unparse(VisitModule(parse(after).value)));
    var e := matcher(b, a);
    DeltaShape(e);
    DeltaLinesComeFromScript(e);
    DeletedIsSubsequence(e);
  }

  /** Two sources whose trees agree once docstrings are removed show no difference. */
  lemma DocstringChangeInvisible(parse: Parser, unparse: Unparser, matcher: Matcher,
                                 before: string, after: string, mb: Module, ma: Module)
    requires IsMatcher(matcher) && MatchesEqual(matcher)
    requires parse(before) == Success(mb) && parse(after) == Success(ma)
    requires VisitModule(mb) == VisitModule(ma)
    ensures DiffPython(parse, unparse, matcher, before, after) == Success([])
  {
    DiffPythonVerdict(parse, unparse, matcher, before, after);
  }

  /** Two modules that differ only in a function's docstring agree once docstrings are removed. */
  lemma ExampleDocstringEdit()
    ensures VisitModule(Module([Def(FunctionDef, "f", [Expr(Str("old")), Simple("return 1")])]))
         == VisitModule(Module([Def(FunctionDef, "f", [Expr(Str("new")), Simple("return 1")])]))
  {
    assert [Expr(Str("old")), Simple("return 1")][1..] == [Simple("return 1")];
    assert [Expr(Str("new")), Simple("return 1")][1..] == [Simple("return 1")];
  }
}
