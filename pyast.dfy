/** The part of Python's abstract syntax tree that the docstring passes look at. Every
    node owns its children: there is no sharing and no cycle. */
module PyAst {

  /** What an expression statement wraps: a string constant (`ast.Str`) or anything else. */
  datatype Value = Str(s: string) | NonStr(repr: string)

  /** The definitions that have a body of statements. */
  datatype DefKind = FunctionDef | AsyncFunctionDef | ClassDef

  /** One statement list of a compound statement (the body of an `if`, its `else`, one
      `except` handler, ...). */
  datatype Block = Block(stmts: seq<Stmt>)

  datatype Stmt =
    | Def(kind: DefKind, name: string, body: seq<Stmt>)
    | Compound(tag: string, blocks: seq<Block>)  // if, for, while, with, try, match
    | Expr(value: Value)
    | Simple(tag: string)                         // every statement without a body, comments included

  datatype Module = Module(body: seq<Stmt>)

  /** An expression statement whose value is a string constant. */
  predicate IsDocstring(s: Stmt) {
    s.Expr? && s.value.Str?
  }

  /** The body is not empty and its first statement is a string expression. */
  predicate StartsWithDocstring(body: seq<Stmt>) {
    |body| > 0 && IsDocstring(body[0])
  }

  /** A plain FunctionDef called `name` (an `async def` is not one). */
  predicate IsFunctionNamed(s: Stmt, name: string) {
    s.Def? && s.kind == FunctionDef && s.name == name
  }

  // Measures over trees.

  /** Number of string-expression statements in `s`, `s` included. */
  function StrCount(s: Stmt): nat {
    match s
    case Def(_, _, body) => StrCountBody(body)
    case Compound(_, blocks) => StrCountBlocks(blocks)
    case Expr(v) => if v.Str? then 1 else 0
    case Simple(_) => 0
  }

  function StrCountBody(body: seq<Stmt>): nat {
    if body == [] then 0 else StrCount(body[0]) + StrCountBody(body[1..])
  }

  function StrCountBlocks(blocks: seq<Block>): nat {
    if blocks == [] then 0 else StrCountBody(blocks[0].stmts) + StrCountBlocks(blocks[1..])
  }

  /** Number of FunctionDefs named `name` in `s`, `s` included, at any depth. */
  function CountNamed(s: Stmt, name: string): nat {
    (if IsFunctionNamed(s, name) then 1 else 0) +
    match s
    case Def(_, _, body) => CountNamedBody(body, name)
    case Compound(_, blocks) => CountNamedBlocks(blocks, name)
    case _ => 0
  }

  function CountNamedBody(body: seq<Stmt>, name: string): nat {
    if body == [] then 0 else CountNamed(body[0], name) + CountNamedBody(body[1..], name)
  }

  function CountNamedBlocks(blocks: seq<Block>, name: string): nat {
    if blocks == [] then 0 else CountNamedBody(blocks[0].stmts, name) + CountNamedBlocks(blocks[1..], name)
  }

  /** The statements directly below `s`, in field order (what `ast.iter_child_nodes`
      yields of statements). */
  function Children(s: Stmt): seq<Stmt> {
    match s
    case Def(_, _, body) => body
    case Compound(_, blocks) => Flatten(blocks)
    case _ => []
  }

  function Flatten(blocks: seq<Block>): seq<Stmt> {
    if blocks == [] then [] else blocks[0].stmts + Flatten(blocks[1..])
  }

  /** Number of statements in `s`, `s` included. */
  function Size(s: Stmt): nat {
    match s
    case Def(_, _, body) => 1 + SizeBody(body)
    case Compound(_, blocks) => 1 + SizeBlocks(blocks)
    case _ => 1
  }

  function SizeBody(body: seq<Stmt>): nat {
    if body == [] then 0 else Size(body[0]) + SizeBody(body[1..])
  }

  function SizeBlocks(blocks: seq<Block>): nat {
    if blocks == [] then 0 else SizeBody(blocks[0].stmts) + SizeBlocks(blocks[1..])
  }

  lemma {:induction false} SizeBodyAppend(a: seq<Stmt>, b: seq<Stmt>)
    ensures SizeBody(a + b) == SizeBody(a) + SizeBody(b)
  {
    if a == [] {
      assert a + b == b;
    } else {
      assert (a + b)[0] == a[0];
      assert (a + b)[1..] == a[1..] + b;
      SizeBodyAppend(a[1..], b);
    }
  }

  lemma {:induction false} SizeOfFlatten(blocks: seq<Block>)
    ensures SizeBody(Flatten(blocks)) == SizeBlocks(blocks)
  {
    if blocks != [] {
      SizeOfFlatten(blocks[1..]);
      SizeBodyAppend(blocks[0].stmts, Flatten(blocks[1..]));
    }
  }

  /** A statement is one node more than its children. */
  lemma SizeOfChildren(s: Stmt)
    ensures Size(s) == 1 + SizeBody(Children(s))
  {
    if s.Compound? {
      SizeOfFlatten(s.blocks);
    }
  }
}
