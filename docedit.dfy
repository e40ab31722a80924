/** The tree edit of `replace_docstring` (ellm.py:176-202): the new docstring is cut out
    of the model's answer, then every FunctionDef named `fname` gets it as its first
    statement. `ast.walk` reaches every node, nested ones included, and the edits only
    touch bodies, so the walk is modelled as a recursive rebuild of the tree. Reading the
    file, printing, and the network call after the check are not part of this model. */
module DocstringEdit {
  import opened Text
  import opened Outcome
  import opened PyAst
  import opened DelimitedScan
  import opened DocstringRemoval
  import opened UnifiedDiff
  import opened BehaviouralDiff

  /** ellm.py:181-186: the text between the first `"""` and the nearest `"""` after it;
      the whole text when there is no such pair. */
  function NewDocstring(text: string): (r: string)
    ensures match FirstAt(text, TripleQuote, 0)
      case None => r == text
      case Some(i) =>
        match FirstAt(text, TripleQuote, i + 3)
        case None => r == text
        case Some(j) => r == text[i + 3..j]
  {
    SearchIsFirstPair(text, TripleQuote);
    match Search(text, TripleQuote, 0)
    case Some(m) => m.group
    case None => text
  }

  /** ellm.py:198-202: overwrite the leading string expression, or insert one. */
  function WithDocstring(body: seq<Stmt>, doc: string): (r: seq<Stmt>)
    ensures StartsWithDocstring(r) && r[0] == Expr(Str(doc))
    ensures |r| == if StartsWithDocstring(body) then |body| else |body| + 1
    ensures DropDocstring(r) == DropDocstring(body)
  {
    if StartsWithDocstring(body) then [Expr(Str(doc))] + body[1..] else [Expr(Str(doc))] + body
  }

  function ReplaceStmt(s: Stmt, fname: string, doc: string): Stmt {
    match s
    case Def(kind, name, body) =>
      if IsFunctionNamed(s, fname) then Def(kind, name, WithDocstring(ReplaceBody(body, fname, doc), doc))
      else Def(kind, name, ReplaceBody(body, fname, doc))
    case Compound(tag, blocks) => Compound(tag, ReplaceBlocks(blocks, fname, doc))
    case _ => s
  }

  function ReplaceBody(body: seq<Stmt>, fname: string, doc: string): seq<Stmt> {
    if body == [] then [] else [ReplaceStmt(body[0], fname, doc)] + ReplaceBody(body[1..], fname, doc)
  }

  function ReplaceBlocks(blocks: seq<Block>, fname: string, doc: string): seq<Block> {
    if blocks == [] then []
    else [Block(ReplaceBody(blocks[0].stmts, fname, doc))] + ReplaceBlocks(blocks[1..], fname, doc)
  }

  /** The module after the walk (the module itself is not a FunctionDef). */
  function ReplaceModule(m: Module, fname: string, doc: string): Module {
    Module(ReplaceBody(m.body, fname, doc))
  }

  /** Every FunctionDef named `fname`, at any depth, starts with `doc`. */
  predicate Documented(s: Stmt, fname: string, doc: string) {
    (IsFunctionNamed(s, fname) ==> StartsWithDocstring(s.body) && s.body[0] == Expr(Str(doc))) &&
    match s
    case Def(_, _, body) => DocumentedBody(body, fname, doc)
    case Compound(_, blocks) => DocumentedBlocks(blocks, fname, doc)
    case _ => true
  }

  predicate DocumentedBody(body: seq<Stmt>, fname: string, doc: string) {
    body == [] || (Documented(body[0], fname, doc) && DocumentedBody(body[1..], fname, doc))
  }

  predicate DocumentedBlocks(blocks: seq<Block>, fname: string, doc: string) {
    blocks == [] || (DocumentedBody(blocks[0].stmts, fname, doc) && DocumentedBlocks(blocks[1..], fname, doc))
  }

  // The text of the new docstring.

  /** A docstring quoted in prose is cut out without its quotes. */
  lemma NewDocstringOfQuoted(pre: string, doc: string, post: string)
    requires '"' !in pre && '"' !in doc
    ensures NewDocstring(pre + TripleQuote + doc + TripleQuote + post) == doc
  {
    var s := pre + TripleQuote + doc + TripleQuote + post;
    var i := |pre|;
    var j := i + 3 + |doc|;
    assert s[i..i + 3] == TripleQuote;
    assert s[j..j + 3] == TripleQuote;
    assert s[i + 3..j] == doc;
    forall k: nat | k < i
      ensures !OccursAt(s, TripleQuote, k)
    {
      assert s[k] == pre[k];
    }
    forall k: nat | i + 3 <= k < j
      ensures !OccursAt(s, TripleQuote, k)
    {
      assert s[k] == doc[k - i - 3];
    }
    FirstAtIs(s, TripleQuote, 0, i);
    FirstAtIs(s, TripleQuote, i + 3, j);
  }

  // One edited node.

  lemma {:induction false} ReplaceBodyPointwise(body: seq<Stmt>, fname: string, doc: string)
    ensures |ReplaceBody(body, fname, doc)| == |body|
    ensures forall i :: 0 <= i < |body| ==> ReplaceBody(body, fname, doc)[i] == ReplaceStmt(body[i], fname, doc)
  {
    if body != [] {
      ReplaceBodyPointwise(body[1..], fname, doc);
    }
  }

  /** The edit keeps every node's kind and name. */
  lemma ReplaceKeepsKind(s: Stmt, fname: string, doc: string)
    ensures IsDocstring(ReplaceStmt(s, fname, doc)) == IsDocstring(s)
    ensures ReplaceStmt(s, fname, doc).Def? == s.Def?
    ensures s.Def? ==> ReplaceStmt(s, fname, doc).kind == s.kind && ReplaceStmt(s, fname, doc).name == s.name
  {
  }

  /** A FunctionDef named `fname`: its leading string is overwritten (same length) or one
      is inserted (one longer); every other statement keeps its place and order. */
  lemma TargetEdited(s: Stmt, fname: string, doc: string)
    requires IsFunctionNamed(s, fname)
    ensures var r := ReplaceStmt(s, fname, doc).body;
      var shift := if StartsWithDocstring(s.body) then 0 else 1;
      && |r| == |s.body| + shift
      && r[0] == Expr(Str(doc))
      && forall i :: 1 <= i < |r| ==> r[i] == ReplaceStmt(s.body[i - shift], fname, doc)
  {
    var b := ReplaceBody(s.body, fname, doc);
    ReplaceBodyPointwise(s.body, fname, doc);
    if StartsWithDocstring(s.body) {
      ReplaceKeepsKind(s.body[0], fname, doc);
      assert StartsWithDocstring(b);
      assert WithDocstring(b, doc)[1..] == b[1..];
    } else {
      if s.body != [] {
        ReplaceKeepsKind(s.body[0], fname, doc);
      }
      assert !StartsWithDocstring(b);
      assert WithDocstring(b, doc)[1..] == b;
    }
  }

  /** Any other statement is only rebuilt around its edited children. */
  lemma OtherUntouched(s: Stmt, fname: string, doc: string)
    requires s.Def? && !IsFunctionNamed(s, fname)
    ensures var r := ReplaceStmt(s, fname, doc).body;
      && |r| == |s.body|
      && forall i :: 0 <= i < |r| ==> r[i] == ReplaceStmt(s.body[i], fname, doc)
  {
    ReplaceBodyPointwise(s.body, fname, doc);
  }

  /** A comment before the docstring is a statement too: the new string is inserted in
      front of it and the old docstring stays. */
  lemma CommentBeforeDocstring()
    ensures ReplaceStmt(Def(FunctionDef, "f", [Simple("# note"), Expr(Str("old"))]), "f", "new")
         == Def(FunctionDef, "f", [Expr(Str("new")), Simple("# note"), Expr(Str("old"))])
  {
    var body := [Simple("# note"), Expr(Str("old"))];
    ReplaceBodyPointwise(body, "f", "new");
    assert ReplaceBody(body, "f", "new") == body;
  }

  // The whole tree.

  /** After the walk every FunctionDef named `fname` carries the new docstring. */
  lemma {:induction false} ReplaceDocuments(s: Stmt, fname: string, doc: string)
    ensures Documented(ReplaceStmt(s, fname, doc), fname, doc)
    decreases s
  {
    match s
    case Def(kind, name, body) =>
      ReplaceDocumentsBody(body, fname, doc);
      if IsFunctionNamed(s, fname) {
        var b := ReplaceBody(body, fname, doc);
        var w := WithDocstring(b, doc);
        assert DocumentedBody(w, fname, doc) by {
          assert Documented(w[0], fname, doc);
          if StartsWithDocstring(b) {
            assert w[1..] == b[1..];
          } else {
            assert w[1..] == b;
          }
        }
      }
    case Compound(_, blocks) => ReplaceDocumentsBlocks(blocks, fname, doc);
    case _ =>
  }

  lemma {:induction false} ReplaceDocumentsBody(body: seq<Stmt>, fname: string, doc: string)
    ensures DocumentedBody(ReplaceBody(body, fname, doc), fname, doc)
    decreases body
  {
    if body != [] {
      ReplaceDocuments(body[0], fname, doc);
      ReplaceDocumentsBody(body[1..], fname, doc);
      var r := ReplaceBody(body, fname, doc);
      assert r[0] == ReplaceStmt(body[0], fname, doc);
      assert r[1..] == ReplaceBody(body[1..], fname, doc);
    }
  }

  lemma {:induction false} ReplaceDocumentsBlocks(blocks: seq<Block>, fname: string, doc: string)
    ensures DocumentedBlocks(ReplaceBlocks(blocks, fname, doc), fname, doc)
    decreases blocks
  {
    if blocks != [] {
      ReplaceDocumentsBody(blocks[0].stmts, fname, doc);
      ReplaceDocumentsBlocks(blocks[1..], fname, doc);
      assert ReplaceBlocks(blocks, fname, doc)[1..] == ReplaceBlocks(blocks[1..], fname, doc);
    }
  }

  lemma ReplaceDocumentsModule(m: Module, fname: string, doc: string)
    ensures DocumentedBody(ReplaceModule(m, fname, doc).body, fname, doc)
  {
    ReplaceDocumentsBody(m.body, fname, doc);
  }

  /** A tree without a FunctionDef named `fname` is left as it is. */
  lemma {:induction false} NoTargetNoEdit(s: Stmt, fname: string, doc: string)
    requires CountNamed(s, fname) == 0
    ensures ReplaceStmt(s, fname, doc) == s
    decreases s
  {
    match s
    case Def(_, _, body) => NoTargetNoEditBody(body, fname, doc);
    case Compound(_, blocks) => NoTargetNoEditBlocks(blocks, fname, doc);
    case _ =>
  }

  lemma {:induction false} NoTargetNoEditBody(body: seq<Stmt>, fname: string, doc: string)
    requires CountNamedBody(body, fname) == 0
    ensures ReplaceBody(body, fname, doc) == body
    decreases body
  {
    if body != [] {
      NoTargetNoEdit(body[0], fname, doc);
      NoTargetNoEditBody(body[1..], fname, doc);
      assert [body[0]] + body[1..] == body;
    }
  }

  lemma {:induction false} NoTargetNoEditBlocks(blocks: seq<Block>, fname: string, doc: string)
    requires CountNamedBlocks(blocks, fname) == 0
    ensures ReplaceBlocks(blocks, fname, doc) == blocks
    decreases blocks
  {
    if blocks != [] {
      NoTargetNoEditBody(blocks[0].stmts, fname, doc);
      NoTargetNoEditBlocks(blocks[1..], fname, doc);
      assert [blocks[0]] + blocks[1..] == blocks;
    }
  }

  lemma NoTargetNoEditModule(m: Module, fname: string, doc: string)
    requires CountNamedBody(m.body, fname) == 0
    ensures ReplaceModule(m, fname, doc) == m
  {
    NoTargetNoEditBody(m.body, fname, doc);
  }

  /** The edit neither adds nor removes a FunctionDef named `fname`. */
  lemma {:induction false} TargetsKept(s: Stmt, fname: string, doc: string)
    ensures CountNamed(ReplaceStmt(s, fname, doc), fname) == CountNamed(s, fname)
    decreases s
  {
    match s
    case Def(_, _, body) =>
      TargetsKeptBody(body, fname, doc);
      if IsFunctionNamed(s, fname) {
        var b := ReplaceBody(body, fname, doc);
        var w := WithDocstring(b, doc);
        if StartsWithDocstring(b) {
          assert b == [b[0]] + b[1..] && w == [w[0]] + b[1..];
          CountNamedCons(b[0], b[1..], fname);
          CountNamedCons(w[0], b[1..], fname);
        } else {
          assert w == [w[0]] + b;
          CountNamedCons(w[0], b, fname);
        }
      }
    case Compound(_, blocks) => TargetsKeptBlocks(blocks, fname, doc);
    case _ =>
  }

  lemma CountNamedCons(x: Stmt, xs: seq<Stmt>, fname: string)
    ensures CountNamedBody([x] + xs, fname) == CountNamed(x, fname) + CountNamedBody(xs, fname)
  {
    assert ([x] + xs)[0] == x && ([x] + xs)[1..] == xs;
  }

  lemma {:induction false} TargetsKeptBody(body: seq<Stmt>, fname: string, doc: string)
    ensures CountNamedBody(ReplaceBody(body, fname, doc), fname) == CountNamedBody(body, fname)
    decreases body
  {
    if body != [] {
      TargetsKept(body[0], fname, doc);
      TargetsKeptBody(body[1..], fname, doc);
      CountNamedCons(ReplaceStmt(body[0], fname, doc), ReplaceBody(body[1..], fname, doc), fname);
    }
  }

  lemma {:induction false} TargetsKeptBlocks(blocks: seq<Block>, fname: string, doc: string)
    ensures CountNamedBlocks(ReplaceBlocks(blocks, fname, doc), fname) == CountNamedBlocks(blocks, fname)
    decreases blocks
  {
    if blocks != [] {
      TargetsKeptBody(blocks[0].stmts, fname, doc);
      TargetsKeptBlocks(blocks[1..], fname, doc);
      assert ReplaceBlocks(blocks, fname, doc)[1..] == ReplaceBlocks(blocks[1..], fname, doc);
    }
  }

  // Idempotence.

  lemma ReplaceCons(x: Stmt, xs: seq<Stmt>, fname: string, doc: string)
    ensures ReplaceBody([x] + xs, fname, doc) == [ReplaceStmt(x, fname, doc)] + ReplaceBody(xs, fname, doc)
  {
    assert ([x] + xs)[0] == x && ([x] + xs)[1..] == xs;
  }

  /** Editing then walking is walking then editing. */
  lemma EditCommutes(body: seq<Stmt>, fname: string, doc: string)
    ensures ReplaceBody(WithDocstring(body, doc), fname, doc) == WithDocstring(ReplaceBody(body, fname, doc), doc)
  {
    var e := Expr(Str(doc));
    if StartsWithDocstring(body) {
      ReplaceCons(e, body[1..], fname, doc);
      ReplaceCons(body[0], body[1..], fname, doc);
      assert [body[0]] + body[1..] == body;
      ReplaceKeepsKind(body[0], fname, doc);
    } else {
      ReplaceCons(e, body, fname, doc);
      if body != [] {
        ReplaceCons(body[0], body[1..], fname, doc);
        assert [body[0]] + body[1..] == body;
        ReplaceKeepsKind(body[0], fname, doc);
      }
    }
  }

  lemma WithDocstringTwice(body: seq<Stmt>, doc: string)
    ensures WithDocstring(WithDocstring(body, doc), doc) == WithDocstring(body, doc)
  {
  }

  /** Replacing the same docstring twice is replacing it once. */
  lemma {:induction false} ReplaceIdempotent(s: Stmt, fname: string, doc: string)
    ensures ReplaceStmt(ReplaceStmt(s, fname, doc), fname, doc) == ReplaceStmt(s, fname, doc)
    decreases s
  {
    match s
    case Def(kind, name, body) =>
      ReplaceIdempotentBody(body, fname, doc);
      if IsFunctionNamed(s, fname) {
        var b := ReplaceBody(body, fname, doc);
        EditCommutes(b, fname, doc);
        WithDocstringTwice(ReplaceBody(b, fname, doc), doc);
      }
    case Compound(_, blocks) => ReplaceIdempotentBlocks(blocks, fname, doc);
    case _ =>
  }

  lemma {:induction false} ReplaceIdempotentBody(body: seq<Stmt>, fname: string, doc: string)
    ensures ReplaceBody(ReplaceBody(body, fname, doc), fname, doc) == ReplaceBody(body, fname, doc)
    decreases body
  {
    if body != [] {
      ReplaceIdempotent(body[0], fname, doc);
      ReplaceIdempotentBody(body[1..], fname, doc);
      ReplaceCons(ReplaceStmt(body[0], fname, doc), ReplaceBody(body[1..], fname, doc), fname, doc);
    }
  }

  lemma {:induction false} ReplaceIdempotentBlocks(blocks: seq<Block>, fname: string, doc: string)
    ensures ReplaceBlocks(ReplaceBlocks(blocks, fname, doc), fname, doc) == ReplaceBlocks(blocks, fname, doc)
    decreases blocks
  {
    if blocks != [] {
      ReplaceIdempotentBody(blocks[0].stmts, fname, doc);
      ReplaceIdempotentBlocks(blocks[1..], fname, doc);
      var r := ReplaceBlocks(blocks, fname, doc);
      assert r[0] == Block(ReplaceBody(blocks[0].stmts, fname, doc));
      assert r[1..] == ReplaceBlocks(blocks[1..], fname, doc);
    }
  }

  lemma ReplaceIdempotentModule(m: Module, fname: string, doc: string)
    ensures ReplaceModule(ReplaceModule(m, fname, doc), fname, doc) == ReplaceModule(m, fname, doc)
  {
    ReplaceIdempotentBody(m.body, fname, doc);
  }

  // What the behavioural check sees.

  /** Dropping a leading string and editing commute. */
  lemma DropCommutes(body: seq<Stmt>, fname: string, doc: string)
    ensures DropDocstring(ReplaceBody(body, fname, doc)) == ReplaceBody(DropDocstring(body), fname, doc)
  {
    if body != [] {
      ReplaceCons(body[0], body[1..], fname, doc);
      assert [body[0]] + body[1..] == body;
      ReplaceKeepsKind(body[0], fname, doc);
    }
  }

  /** Once docstrings are removed, an edited tree is the tree it came from. */
  lemma {:induction false} EditInvisible(s: Stmt, fname: string, doc: string)
    ensures VisitStmt(ReplaceStmt(s, fname, doc)) == VisitStmt(s)
    decreases s
  {
    match s
    case Def(kind, name, body) =>
      if kind == AsyncFunctionDef {
        EditInvisibleBody(body, fname, doc);
      } else {
        DropCommutes(body, fname, doc);
        EditInvisibleBody(DropDocstring(body), fname, doc);
      }
    case Compound(_, blocks) => EditInvisibleBlocks(blocks, fname, doc);
    case _ =>
  }

  lemma {:induction false} EditInvisibleBody(body: seq<Stmt>, fname: string, doc: string)
    ensures VisitBody(ReplaceBody(body, fname, doc)) == VisitBody(body)
    decreases body
  {
    if body != [] {
      EditInvisible(body[0], fname, doc);
      EditInvisibleBody(body[1..], fname, doc);
      ReplaceCons(body[0], body[1..], fname, doc);
      var r := ReplaceBody(body, fname, doc);
      assert r[0] == ReplaceStmt(body[0], fname, doc) && r[1..] == ReplaceBody(body[1..], fname, doc);
    }
  }

  lemma {:induction false} EditInvisibleBlocks(blocks: seq<Block>, fname: string, doc: string)
    ensures VisitBlocks(ReplaceBlocks(blocks, fname, doc)) == VisitBlocks(blocks)
    decreases blocks
  {
    if blocks != [] {
      EditInvisibleBody(blocks[0].stmts, fname, doc);
      EditInvisibleBlocks(blocks[1..], fname, doc);
      var r := ReplaceBlocks(blocks, fname, doc);
      assert r[0] == Block(ReplaceBody(blocks[0].stmts, fname, doc));
      assert r[1..] == ReplaceBlocks(blocks[1..], fname, doc);
    }
  }

  lemma EditInvisibleModule(m: Module, fname: string, doc: string)
    ensures VisitModule(ReplaceModule(m, fname, doc)) == VisitModule(m)
  {
    DropCommutes(m.body, fname, doc);
    EditInvisibleBody(DropDocstring(m.body), fname, doc);
  }

  /** The check at ellm.py:207-211: when the printed program parses back to the edited
      tree, `diff_python` reports no difference and the warning is not printed. */
  lemma EditPassesCheck(parse: Parser, unparse: Unparser, matcher: Matcher,
                        before: string, after: string, m: Module, fname: string, doc: string)
    requires IsMatcher(matcher) && MatchesEqual(matcher)
    requires parse(before) == Success(m) && parse(after) == Success(ReplaceModule(m, fname, doc))
    ensures DiffPython(parse, unparse, matcher, before, after) == Success([])
  {
    EditInvisibleModule(m, fname, doc);
    DocstringChangeInvisible(parse, unparse, matcher, before, after, m, ReplaceModule(m, fname, doc));
  }
}
