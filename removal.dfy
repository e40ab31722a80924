/** `remove_function` (ellm.py:165-174): walk the tree and delete every FunctionDef
    named `function_name` from the module body. `ast.walk` is breadth first, so it yields
    the module's own statements before anything below them. `tree.body.remove(node)`
    looks the node up by identity: a FunctionDef of that name anywhere below the top
    level is not in the module body, and the call raises a ValueError. */
module FunctionRemoval {
  import opened Text
  import opened Outcome
  import opened PyAst
  import opened BehaviouralDiff

  /** `body` without its FunctionDefs named `name`, order kept. */
  function FilterOut(body: seq<Stmt>, name: string): seq<Stmt> {
    if body == [] then []
    else (if IsFunctionNamed(body[0], name) then [] else [body[0]]) + FilterOut(body[1..], name)
  }

  /** The statements directly below those of `body`, in order. */
  function ChildrenOf(body: seq<Stmt>): seq<Stmt> {
    if body == [] then [] else Children(body[0]) + ChildrenOf(body[1..])
  }

  /** Number of FunctionDefs named `name` at the top of `body`. */
  function TopCount(body: seq<Stmt>, name: string): nat {
    if body == [] then 0 else (if IsFunctionNamed(body[0], name) then 1 else 0) + TopCount(body[1..], name)
  }

  /** Number of FunctionDefs named `name` below the top of `body`. */
  function NestedCount(body: seq<Stmt>, name: string): nat {
    CountNamedBody(ChildrenOf(body), name)
  }

  /** The tree `remove_function` prints, or the ValueError it raises. */
  function Removed(m: Module, name: string): Result<Module> {
    if NestedCount(m.body, name) > 0 then Failure(ValueError) else Success(Module(FilterOut(m.body, name)))
  }

  /** The whole function: `ast_comments.parse`, the walk, `ast_comments.unparse`. */
  function RemovedSource(parse: Parser, unparse: Unparser, program: string, name: string): Result<string> {
    match parse(program)
    case Failure(err) => Failure(err)
    case Success(m) =>
      match Removed(m, name)
      case Failure(err) => Failure(err)
      case Success(t) => Success(unparse(t))
  }

  // Facts the walk needs.

  lemma {:induction false} FilterOutSnoc(body: seq<Stmt>, x: Stmt, name: string)
    ensures FilterOut(body + [x], name) == FilterOut(body, name) + (if IsFunctionNamed(x, name) then [] else [x])
  {
    if body != [] {
      assert (body + [x])[1..] == body[1..] + [x];
      FilterOutSnoc(body[1..], x, name);
    } else {
      assert [x][1..] == [];
    }
  }

  lemma {:induction false} ChildrenOfSnoc(body: seq<Stmt>, x: Stmt)
    ensures ChildrenOf(body + [x]) == ChildrenOf(body) + Children(x)
  {
    if body != [] {
      assert (body + [x])[1..] == body[1..] + [x];
      ChildrenOfSnoc(body[1..], x);
    } else {
      assert [x][1..] == [];
    }
  }

  lemma {:induction false} CountNamedAppend(a: seq<Stmt>, b: seq<Stmt>, name: string)
    ensures CountNamedBody(a + b, name) == CountNamedBody(a, name) + CountNamedBody(b, name)
  {
    if a == [] {
      assert a + b == b;
    } else {
      assert (a + b)[0] == a[0];
      assert (a + b)[1..] == a[1..] + b;
      CountNamedAppend(a[1..], b, name);
    }
  }

  lemma {:induction false} CountNamedFlatten(blocks: seq<Block>, name: string)
    ensures CountNamedBody(Flatten(blocks), name) == CountNamedBlocks(blocks, name)
  {
    if blocks != [] {
      CountNamedFlatten(blocks[1..], name);
      CountNamedAppend(blocks[0].stmts, Flatten(blocks[1..]), name);
    }
  }

  /** A statement's count is its own plus its children's. */
  lemma CountNamedChildren(s: Stmt, name: string)
    ensures CountNamed(s, name) == (if IsFunctionNamed(s, name) then 1 else 0) + CountNamedBody(Children(s), name)
  {
    if s.Compound? {
      CountNamedFlatten(s.blocks, name);
    }
  }

  /** One step of the breadth-first walk: the node leaves the queue, its children join. */
  lemma WalkStep(queue: seq<Stmt>, name: string)
    requires queue != []
    ensures SizeBody(queue[1..] + Children(queue[0])) < SizeBody(queue)
    ensures CountNamedBody(queue[1..] + Children(queue[0]), name) + (if IsFunctionNamed(queue[0], name) then 1 else 0)
         == CountNamedBody(queue, name)
  {
    SizeBodyAppend(queue[1..], Children(queue[0]));
    SizeOfChildren(queue[0]);
    CountNamedAppend(queue[1..], Children(queue[0]), name);
    CountNamedChildren(queue[0], name);
  }

  /** One step over the module's own statements: the list as `tree.body.remove` leaves it. */
  lemma TopStep(top: seq<Stmt>, k: nat, body: seq<Stmt>, name: string)
    requires k < |top|
    requires body == FilterOut(top[..k], name) + top[k..]
    ensures var pos := |body| - (|top| - k);
      && 0 <= pos < |body| && body[pos] == top[k]
      && (if IsFunctionNamed(top[k], name) then body[..pos] + body[pos + 1..] else body)
         == FilterOut(top[..k + 1], name) + top[k + 1..]
      && ChildrenOf(top[..k + 1]) == ChildrenOf(top[..k]) + Children(top[k])
  {
    var node := top[k];
    assert top[..k + 1] == top[..k] + [node];
    assert top[k..] == [node] + top[k + 1..];
    RemoveAtSeam(top[..k], node, top[k + 1..], name);
    ChildrenOfSnoc(top[..k], node);
  }

  /** The statements already filtered, the current one, the ones still to come: removing the
      current one, when it is a match, extends the filtered part by one statement. */
  lemma RemoveAtSeam(done: seq<Stmt>, node: Stmt, rest: seq<Stmt>, name: string)
    ensures var f := FilterOut(done, name); var body := f + ([node] + rest);
      && body[|f|] == node
      && (if IsFunctionNamed(node, name) then body[..|f|] + body[|f| + 1..] else body)
         == FilterOut(done + [node], name) + rest
  {
    FilterOutSnoc(done, node, name);
    Seam(FilterOut(done, name), node, rest, IsFunctionNamed(node, name));
  }

  lemma Seam(f: seq<Stmt>, node: Stmt, rest: seq<Stmt>, drop: bool)
    ensures var body := f + ([node] + rest);
      && body[|f|] == node
      && (if drop then body[..|f|] + body[|f| + 1..] else body) == f + (if drop then [] else [node]) + rest
  {
    var body := f + ([node] + rest);
    assert body[..|f|] == f;
    assert body[|f| + 1..] == rest;
    if !drop {
      assert f + ([node] + rest) == f + [node] + rest;
    }
  }

  /** The walk over the parsed module, deleting from the module body as it goes. */
  method WalkAndRemove(m: Module, name: string) returns (r: Result<Module>)
    ensures r == Removed(m, name)
  {
    var body := m.body;
    // The module's own statements come first; their children queue up behind them.
    var queue: seq<Stmt> := [];
    var k := 0;
    while k < |m.body|
      invariant 0 <= k <= |m.body|
      invariant body == FilterOut(m.body[..k], name) + m.body[k..]
      invariant queue == ChildrenOf(m.body[..k])
    {
      var node := m.body[k];
      TopStep(m.body, k, body, name);
      queue := queue + Children(node);
      if IsFunctionNamed(node, name) {
        // `tree.body.remove(node)`: the node sits just after the statements already kept.
        var pos := |body| - (|m.body| - k);
        body := body[..pos] + body[pos + 1..];
      }
      k := k + 1;
    }
    assert m.body[..k] == m.body && m.body[k..] == [];
    assert body == FilterOut(m.body, name) && queue == ChildrenOf(m.body);
    // Below the top level every node is outside the module body.
    while queue != []
      invariant CountNamedBody(queue, name) == NestedCount(m.body, name)
      decreases SizeBody(queue)
    {
      var node := queue[0];
      WalkStep(queue, name);
      if IsFunctionNamed(node, name) {
        return Failure(ValueError);
      }
      queue := queue[1..] + Children(node);
    }
    r := Success(Module(body));
  }

  method RemoveFunction(parse: Parser, unparse: Unparser, program: string, name: string) returns (r: Result<string>)
    ensures r == RemovedSource(parse, unparse, program, name)
  {
    var parsed := parse(program);
    if parsed.Failure? {
      return Failure(parsed.error);
    }
    var walked := WalkAndRemove(parsed.value, name);
    if walked.Failure? {
      return Failure(walked.error);
    }
    r := Success(unparse(walked.value));
  }

  // Properties.

  /** The kept statements: none of them a FunctionDef named `name`, in their order, one
      fewer per removed definition. */
  lemma {:induction false} FilterOutSpec(body: seq<Stmt>, name: string)
    ensures var r := FilterOut(body, name);
      && (forall i :: 0 <= i < |r| ==> !IsFunctionNamed(r[i], name))
      && IsSubsequence(r, body)
      && |r| + TopCount(body, name) == |body|
      && (forall x :: x in body && !IsFunctionNamed(x, name) ==> x in r)
  {
    if body != [] {
      FilterOutSpec(body[1..], name);
      var rest := FilterOut(body[1..], name);
      if IsFunctionNamed(body[0], name) {
        assert FilterOut(body, name) == rest;
        if rest != [] {
          assert IsSubsequence(rest, body[1..]);
        }
      } else {
        assert FilterOut(body, name) == [body[0]] + rest;
        assert ([body[0]] + rest)[1..] == rest;
      }
      assert forall x :: x in body ==> x == body[0] || x in body[1..];
    }
  }

  /** Every FunctionDef named `name` is either at the top or below it. */
  lemma {:induction false} CountSplit(body: seq<Stmt>, name: string)
    ensures CountNamedBody(body, name) == TopCount(body, name) + NestedCount(body, name)
  {
    if body != [] {
      CountSplit(body[1..], name);
      CountNamedChildren(body[0], name);
      CountNamedAppend(Children(body[0]), ChildrenOf(body[1..]), name);
    }
  }

  /** Dropping top-level statements cannot add a nested definition. */
  lemma {:induction false} NestedOfFilterOut(body: seq<Stmt>, name: string)
    ensures NestedCount(FilterOut(body, name), name) <= NestedCount(body, name)
    ensures TopCount(FilterOut(body, name), name) == 0
  {
    if body != [] {
      NestedOfFilterOut(body[1..], name);
      var rest := FilterOut(body[1..], name);
      CountNamedAppend(Children(body[0]), ChildrenOf(body[1..]), name);
      if IsFunctionNamed(body[0], name) {
        assert FilterOut(body, name) == rest;
      } else {
        var r := [body[0]] + rest;
        assert FilterOut(body, name) == r;
        assert r[0] == body[0] && r[1..] == rest;
        assert ChildrenOf(r) == Children(body[0]) + ChildrenOf(rest);
        CountNamedAppend(Children(body[0]), ChildrenOf(rest), name);
      }
    }
  }

  lemma {:induction false} FilterOutNoTarget(body: seq<Stmt>, name: string)
    requires TopCount(body, name) == 0
    ensures FilterOut(body, name) == body
  {
    if body != [] {
      FilterOutNoTarget(body[1..], name);
      assert [body[0]] + body[1..] == body;
    }
  }

  /** On success no FunctionDef named `name` is left anywhere in the tree. */
  lemma RemovedLeavesNone(m: Module, name: string)
    requires Removed(m, name).Success?
    ensures CountNamedBody(Removed(m, name).value.body, name) == 0
  {
    NestedOfFilterOut(m.body, name);
    CountSplit(FilterOut(m.body, name), name);
  }

  /** The walk fails exactly when a FunctionDef named `name` sits below the top level. */
  lemma RemovedFailsIff(m: Module, name: string)
    ensures Removed(m, name).Failure? <==> NestedCount(m.body, name) > 0
    ensures Removed(m, name).Failure? ==> Removed(m, name).error == ValueError
  {
  }

  /** A module without a FunctionDef named `name` comes back unchanged. */
  lemma RemovedNoTarget(m: Module, name: string)
    requires CountNamedBody(m.body, name) == 0
    ensures Removed(m, name) == Success(m)
  {
    CountSplit(m.body, name);
    FilterOutNoTarget(m.body, name);
  }

  /** Removing twice is removing once. */
  lemma RemovedIdempotent(m: Module, name: string)
    requires Removed(m, name).Success?
    ensures Removed(Removed(m, name).value, name) == Removed(m, name)
  {
    var t := Removed(m, name).value;
    NestedOfFilterOut(m.body, name);
    FilterOutNoTarget(t.body, name);
  }

  // The intended behaviour: only top-level definitions go.

  /** `remove_function` as its comment describes it: the top-level FunctionDefs named
      `name` are deleted, whatever is nested below other statements stays. */
  function RemoveTopLevel(m: Module, name: string): (r: Module)
    ensures TopCount(r.body, name) == 0
    ensures IsSubsequence(r.body, m.body)
    ensures |r.body| + TopCount(m.body, name) == |m.body|
    ensures forall x :: x in m.body && !IsFunctionNamed(x, name) ==> x in r.body
    ensures NestedCount(r.body, name) <= NestedCount(m.body, name)
  {
    FilterOutSpec(m.body, name);
    NestedOfFilterOut(m.body, name);
    Module(FilterOut(m.body, name))
  }

  /** Where the walk does not raise, it does what was intended. */
  lemma RemovedAgreesWhenFlat(m: Module, name: string)
    requires NestedCount(m.body, name) == 0
    ensures Removed(m, name) == Success(RemoveTopLevel(m, name))
  {
  }

  /** A class with a method of the same name makes the walk raise: the intended removal
      deletes the top-level function and keeps the class. */
  lemma MethodOfSameNameRaises()
    ensures var cls := Def(ClassDef, "C", [Def(FunctionDef, "foo", [Simple("pass")])]);
      var m := Module([cls, Def(FunctionDef, "foo", [Simple("pass")])]);
      && Removed(m, "foo") == Failure(ValueError)
      && RemoveTopLevel(m, "foo") == Module([cls])
  {
    var inner := Def(FunctionDef, "foo", [Simple("pass")]);
    var cls := Def(ClassDef, "C", [inner]);
    var m := Module([cls, inner]);
    assert m.body[1..] == [inner];
    assert ChildrenOf(m.body) == [inner] + ChildrenOf([inner]);
    CountNamedAppend([inner], ChildrenOf([inner]), "foo");
    assert FilterOut(m.body, "foo") == [cls] + FilterOut([inner], "foo");
    assert FilterOut([inner], "foo") == FilterOut([], "foo");
  }
}
