/** The AST pass `RemoveDocstrings` (stockholm_diff.py:81-99): a node transformer whose
    `visit_FunctionDef`, `visit_ClassDef` and `visit_Module` drop the first statement of
    the node's body when it is a string expression, then visit the children. There is no
    `visit_AsyncFunctionDef`: an `async def` only has its children visited. The in-place
    update of `node.body` is modelled by rebuilding the node. */
module DocstringRemoval {
  import opened PyAst

  /** The body without its first statement when that is a string expression. */
  function DropDocstring(body: seq<Stmt>): seq<Stmt> {
    if StartsWithDocstring(body) then body[1..] else body
  }

  /** `RemoveDocstrings().visit(s)` for a statement. */
  function VisitStmt(s: Stmt): Stmt {
    match s
    case Def(kind, name, body) =>
      if kind == AsyncFunctionDef then Def(kind, name, VisitBody(body))
      else Def(kind, name, VisitBody(if StartsWithDocstring(body) then body[1..] else body))
    case Compound(tag, blocks) => Compound(tag, VisitBlocks(blocks))
    case _ => s
  }

  /** `generic_visit` over a statement list: every statement visited, none removed. */
  function VisitBody(body: seq<Stmt>): seq<Stmt> {
    if body == [] then [] else [VisitStmt(body[0])] + VisitBody(body[1..])
  }

  function VisitBlocks(blocks: seq<Block>): seq<Block> {
    if blocks == [] then [] else [Block(VisitBody(blocks[0].stmts))] + VisitBlocks(blocks[1..])
  }

  /** `RemoveDocstrings().visit(tree)` for the module (`visit_Module`). */
  function VisitModule(m: Module): Module {
    Module(VisitBody(DropDocstring(m.body)))
  }

  // The reference description of what the pass removes.

  /** The number of bodies in `s` (at any depth) that the pass shortens: those of a
      FunctionDef or ClassDef that start with a string expression. */
  function DocCount(s: Stmt): nat {
    match s
    case Def(kind, _, body) =>
      (if kind != AsyncFunctionDef && StartsWithDocstring(body) then 1 else 0) + DocCountBody(body)
    case Compound(_, blocks) => DocCountBlocks(blocks)
    case _ => 0
  }

  function DocCountBody(body: seq<Stmt>): nat {
    if body == [] then 0 else DocCount(body[0]) + DocCountBody(body[1..])
  }

  function DocCountBlocks(blocks: seq<Block>): nat {
    if blocks == [] then 0 else DocCountBody(blocks[0].stmts) + DocCountBlocks(blocks[1..])
  }

  function ModuleDocCount(m: Module): nat {
    (if StartsWithDocstring(m.body) then 1 else 0) + DocCountBody(m.body)
  }

  /** `s` with every string-expression statement, at any depth, taken out. */
  function EraseStrings(s: Stmt): Stmt {
    match s
    case Def(kind, name, body) => Def(kind, name, EraseBody(body))
    case Compound(tag, blocks) => Compound(tag, EraseBlocks(blocks))
    case _ => s
  }

  function EraseBody(body: seq<Stmt>): seq<Stmt> {
    if body == [] then []
    else (if IsDocstring(body[0]) then [] else [EraseStrings(body[0])]) + EraseBody(body[1..])
  }

  function EraseBlocks(blocks: seq<Block>): seq<Block> {
    if blocks == [] then [] else [Block(EraseBody(blocks[0].stmts))] + EraseBlocks(blocks[1..])
  }

  // Properties.

  /** Visiting a statement list visits each statement in place. */
  lemma {:induction false} VisitBodyPointwise(body: seq<Stmt>)
    ensures |VisitBody(body)| == |body|
    ensures forall i :: 0 <= i < |body| ==> VisitBody(body)[i] == VisitStmt(body[i])
  {
    if body != [] {
      VisitBodyPointwise(body[1..]);
    }
  }

  /** On a FunctionDef or ClassDef body exactly one statement, the leading string
      expression, is removed; the rest is kept in order (a second leading string stays). */
  lemma OneStatementPerBody(kind: DefKind, name: string, body: seq<Stmt>)
    requires kind != AsyncFunctionDef
    ensures var r := VisitStmt(Def(kind, name, body)).body;
      && |r| == (if StartsWithDocstring(body) then |body| - 1 else |body|)
      && (forall i :: 0 <= i < |r| ==>
            r[i] == VisitStmt(body[if StartsWithDocstring(body) then i + 1 else i]))
      && (StartsWithDocstring(body) && |body| > 1 && IsDocstring(body[1]) ==> r[0] == body[1])
  {
    VisitBodyPointwise(DropDocstring(body));
  }

  /** The module body loses its leading string expression and nothing else. */
  lemma OneStatementPerModule(m: Module)
    ensures var r := VisitModule(m).body;
      && |r| == (if StartsWithDocstring(m.body) then |m.body| - 1 else |m.body|)
      && (forall i :: 0 <= i < |r| ==>
            r[i] == VisitStmt(m.body[if StartsWithDocstring(m.body) then i + 1 else i]))
  {
    VisitBodyPointwise(DropDocstring(m.body));
  }

  /** An `async def` keeps its leading string; only its children are visited. */
  lemma AsyncKeepsDocstring(name: string, body: seq<Stmt>)
    requires StartsWithDocstring(body)
    ensures var r := VisitStmt(Def(AsyncFunctionDef, name, body)).body;
      |r| == |body| && r[0] == body[0]
  {
    VisitBodyPointwise(body);
  }

  /** The pass preserves whether a statement is a string expression. */
  lemma VisitKeepsKind(s: Stmt)
    ensures IsDocstring(VisitStmt(s)) == IsDocstring(s)
    ensures VisitStmt(s).Def? == s.Def?
  {
  }

  /** The pass removes exactly one string expression per shortened body, at every depth. */
  lemma {:induction false} RemovedCount(s: Stmt)
    ensures StrCount(VisitStmt(s)) + DocCount(s) == StrCount(s)
    decreases s
  {
    match s
    case Def(kind, name, body) =>
      if kind != AsyncFunctionDef && StartsWithDocstring(body) {
        RemovedCountBody(body[1..]);
        assert body == [body[0]] + body[1..];
        assert DocCountBody(body) == DocCountBody(body[1..]);
      } else {
        RemovedCountBody(body);
      }
    case Compound(_, blocks) => RemovedCountBlocks(blocks);
    case _ =>
  }

  lemma {:induction false} RemovedCountBody(body: seq<Stmt>)
    ensures StrCountBody(VisitBody(body)) + DocCountBody(body) == StrCountBody(body)
    decreases body
  {
    if body != [] {
      RemovedCount(body[0]);
      RemovedCountBody(body[1..]);
      assert VisitBody(body)[0] == VisitStmt(body[0]);
      assert VisitBody(body)[1..] == VisitBody(body[1..]);
    }
  }

  lemma {:induction false} RemovedCountBlocks(blocks: seq<Block>)
    ensures StrCountBlocks(VisitBlocks(blocks)) + DocCountBlocks(blocks) == StrCountBlocks(blocks)
    decreases blocks
  {
    if blocks != [] {
      RemovedCountBody(blocks[0].stmts);
      RemovedCountBlocks(blocks[1..]);
      assert VisitBlocks(blocks)[1..] == VisitBlocks(blocks[1..]);
    }
  }

  lemma RemovedCountModule(m: Module)
    ensures StrCountBody(VisitModule(m).body) + ModuleDocCount(m) == StrCountBody(m.body)
  {
    RemovedCountBody(DropDocstring(m.body));
    if StartsWithDocstring(m.body) {
      RemovedCountBody(m.body[1..]);
      assert m.body == [m.body[0]] + m.body[1..];
      assert DocCountBody(m.body) == DocCountBody(m.body[1..]);
    }
  }

  /** Nothing but string-expression statements is removed: with every such statement
      erased, the tree before and after the pass is the same. */
  lemma {:induction false} OnlyStringsRemoved(s: Stmt)
    ensures EraseStrings(VisitStmt(s)) == EraseStrings(s)
    decreases s
  {
    match s
    case Def(kind, name, body) =>
      if kind != AsyncFunctionDef && StartsWithDocstring(body) {
        OnlyStringsRemovedBody(body[1..]);
        assert EraseBody(body) == EraseBody(body[1..]);
      } else {
        OnlyStringsRemovedBody(body);
      }
    case Compound(_, blocks) => OnlyStringsRemovedBlocks(blocks);
    case _ =>
  }

  lemma {:induction false} OnlyStringsRemovedBody(body: seq<Stmt>)
    ensures EraseBody(VisitBody(body)) == EraseBody(body)
    decreases body
  {
    if body != [] {
      OnlyStringsRemoved(body[0]);
      OnlyStringsRemovedBody(body[1..]);
      VisitKeepsKind(body[0]);
      assert VisitBody(body)[0] == VisitStmt(body[0]);
      assert VisitBody(body)[1..] == VisitBody(body[1..]);
    }
  }

  lemma {:induction false} OnlyStringsRemovedBlocks(blocks: seq<Block>)
    ensures EraseBlocks(VisitBlocks(blocks)) == EraseBlocks(blocks)
    decreases blocks
  {
    if blocks != [] {
      OnlyStringsRemovedBody(blocks[0].stmts);
      OnlyStringsRemovedBlocks(blocks[1..]);
      assert VisitBlocks(blocks)[1..] == VisitBlocks(blocks[1..]);
    }
  }

  lemma OnlyStringsRemovedModule(m: Module)
    ensures EraseBody(VisitModule(m).body) == EraseBody(m.body)
  {
    OnlyStringsRemovedBody(DropDocstring(m.body));
  }

  /** A tree in which no body starts with a string expression is left unchanged. */
  lemma {:induction false} NoDocstringNoChange(s: Stmt)
    requires DocCount(s) == 0
    ensures VisitStmt(s) == s
    decreases s
  {
    match s
    case Def(kind, name, body) => NoDocstringNoChangeBody(body);
    case Compound(_, blocks) => NoDocstringNoChangeBlocks(blocks);
    case _ =>
  }

  lemma {:induction false} NoDocstringNoChangeBody(body: seq<Stmt>)
    requires DocCountBody(body) == 0
    ensures VisitBody(body) == body
    decreases body
  {
    if body != [] {
      NoDocstringNoChange(body[0]);
      NoDocstringNoChangeBody(body[1..]);
      assert [body[0]] + body[1..] == body;
    }
  }

  lemma {:induction false} NoDocstringNoChangeBlocks(blocks: seq<Block>)
    requires DocCountBlocks(blocks) == 0
    ensures VisitBlocks(blocks) == blocks
    decreases blocks
  {
    if blocks != [] {
      NoDocstringNoChangeBody(blocks[0].stmts);
      NoDocstringNoChangeBlocks(blocks[1..]);
      assert [blocks[0]] + blocks[1..] == blocks;
    }
  }

  lemma NoDocstringNoChangeModule(m: Module)
    requires ModuleDocCount(m) == 0
    ensures VisitModule(m) == m
  {
    NoDocstringNoChangeBody(m.body);
  }

  /** A FunctionDef nested in an `async def` is still cleaned, while the `async def`
      keeps its own docstring. */
  lemma NestedInAsyncCleaned()
    ensures VisitStmt(Def(AsyncFunctionDef, "outer",
                          [Expr(Str("outer doc")), Def(FunctionDef, "inner", [Expr(Str("inner doc")), Simple("return")])]))
         == Def(AsyncFunctionDef, "outer", [Expr(Str("outer doc")), Def(FunctionDef, "inner", [Simple("return")])])
  {
    var inner := Def(FunctionDef, "inner", [Expr(Str("inner doc")), Simple("return")]);
    assert [Expr(Str("inner doc")), Simple("return")][1..] == [Simple("return")];
    assert VisitStmt(inner) == Def(FunctionDef, "inner", [Simple("return")]);
  }
}
