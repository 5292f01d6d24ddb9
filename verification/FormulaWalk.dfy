/** The iterative pre-order walk of `ast.ts`, and the two things read off it: holes and dependencies. */
module FormulaWalk {
  import opened FormulaAst

  function Preorder(node: Node): (r: seq<Node>)
    ensures |r| > 0 && r[0] == node
    decreases node, 1
  {
    [node] + Below(node)
  }

  function Below(node: Node): seq<Node>
    decreases node, 0
  {
    match node
    case Unary(_, operand) => Preorder(operand)
    case Binary(_, left, right) => Preorder(left) + Preorder(right)
    case Call(_, args) => PreorderAll(args)
    case _ => []
  }

  function PreorderAll(nodes: seq<Node>): seq<Node> {
    if nodes == [] then [] else Preorder(nodes[0]) + PreorderAll(nodes[1..])
  }

  /** What a stack still has to visit: its last element first. */
  function Pending(stack: seq<Node>): seq<Node> {
    if stack == [] then [] else Preorder(stack[|stack| - 1]) + Pending(stack[..|stack| - 1])
  }

  lemma PendingPush(stack: seq<Node>, node: Node)
    ensures Pending(stack + [node]) == Preorder(node) + Pending(stack)
  {
    assert (stack + [node])[..|stack|] == stack;
  }

  /** The walk visits every node of the tree once, parents first and arguments left to right. */
  method WalkFormula(root: Node) returns (visited: seq<Node>)
    ensures visited == Preorder(root)
  {
    visited := [];
    var stack := [root];
    PendingPush([], root);
    assert [] + [root] == [root];
    while stack != []
      invariant visited + Pending(stack) == Preorder(root)
      decreases |Pending(stack)|
    {
      var node := stack[|stack| - 1];
      ghost var rest := Pending(stack[..|stack| - 1]);
      assert visited + (([node] + Below(node)) + rest) == (visited + [node]) + (Below(node) + rest);
      stack := PushChildren(stack[..|stack| - 1], node);
      visited := visited + [node];
    }
  }

  method PushChildren(base: seq<Node>, node: Node) returns (stack: seq<Node>)
    ensures Pending(stack) == Below(node) + Pending(base)
  {
    stack := base;
    match node {
      case Unary(_, operand) =>
        PendingPush(stack, operand);
        stack := stack + [operand];
      case Binary(_, left, right) =>
        PendingPush(stack, right);
        PendingPush(stack + [right], left);
        stack := stack + [right] + [left];
      case Call(_, args) =>
        stack := PushArgs(stack, args);
      case _ =>
    }
  }

  /** The last argument goes on first. */
  method PushArgs(base: seq<Node>, args: seq<Node>) returns (stack: seq<Node>)
    ensures Pending(stack) == PreorderAll(args) + Pending(base)
  {
    stack := base;
    var i := |args|;
    while i > 0
      invariant 0 <= i <= |args|
      invariant Pending(stack) == PreorderAll(args[i..]) + Pending(base)
    {
      i := i - 1;
      PendingPush(stack, args[i]);
      stack := stack + [args[i]];
      assert args[i..][1..] == args[i + 1..];
    }
    assert args[0..] == args;
  }

  lemma {:induction false} PreorderFindsHoles(node: Node)
    ensures HasErrorNode(node) <==> ErrorNode in Preorder(node)
  {
    match node
    case Unary(_, operand) => PreorderFindsHoles(operand);
    case Binary(_, left, right) => PreorderFindsHoles(left); PreorderFindsHoles(right);
    case Call(_, args) => PreorderAllFindsHoles(args);
    case _ =>
  }

  lemma {:induction false} PreorderAllFindsHoles(nodes: seq<Node>)
    ensures (exists i :: 0 <= i < |nodes| && HasErrorNode(nodes[i])) <==> ErrorNode in PreorderAll(nodes)
  {
    if nodes != [] {
      PreorderFindsHoles(nodes[0]);
      PreorderAllFindsHoles(nodes[1..]);
      if i :| 0 <= i < |nodes| && HasErrorNode(nodes[i]) {
        assert i > 0 ==> nodes[1..][i - 1] == nodes[i];
      }
      if i :| 0 <= i < |nodes[1..]| && HasErrorNode(nodes[1..][i]) {
        assert HasErrorNode(nodes[i + 1]);
      }
    }
  }

  /** `hasErrorNode`, as the source computes it. */
  method FindErrorNode(root: Node) returns (found: bool)
    ensures found <==> HasErrorNode(root)
  {
    var visited := WalkFormula(root);
    found := false;
    for i := 0 to |visited|
      invariant found <==> ErrorNode in visited[..i]
    {
      assert visited[..i + 1] == visited[..i] + [visited[i]];
      if visited[i].ErrorNode? {
        found := true;
      }
    }
    assert visited[..|visited|] == visited;
    PreorderFindsHoles(root);
  }

  // ---------------------------------------------------------------- dependencies

  /** What a formula reads: each list de-duplicated, in first-seen order. */
  datatype Dependencies = Dependencies(
    fields: seq<string>, securities: seq<string>, functions: seq<FunctionName>, maxWindow: real)

  /** Everything `f` finds in a list, in order. */
  function Collect<X, T>(f: X -> seq<T>, xs: seq<X>): seq<T> {
    if xs == [] then [] else Collect(f, xs[..|xs| - 1]) + f(xs[|xs| - 1])
  }

  lemma {:induction false} CollectConcat<X, T>(f: X -> seq<T>, a: seq<X>, b: seq<X>)
    ensures Collect(f, a + b) == Collect(f, a) + Collect(f, b)
  {
    if b == [] {
      assert a + b == a;
    } else {
      CollectConcat(f, a, b[..|b| - 1]);
      assert (a + b)[..|a + b| - 1] == a + b[..|b| - 1];
    }
  }

  lemma CollectOne<X, T>(f: X -> seq<T>, x: X)
    ensures Collect(f, [x]) == f(x)
  {
    assert [x][..0] == [];
    assert Collect(f, [x][..0]) == [];
  }

  function FieldNamed(node: Node): seq<string> {
    if node.Field? then [node.field] else []
  }

  function SecurityNamed(node: Node): seq<string> {
    if node.Security? then [node.canonical] else []
  }

  function FunctionNamed(node: Node): seq<FunctionName> {
    if node.Call? then [node.name] else []
  }

  /** The numbers standing where a call's window belongs. */
  function WindowsAt(args: seq<Node>, indices: seq<nat>): seq<real> {
    if indices == [] then []
    else (if indices[0] < |args| && args[indices[0]].Number? then [args[indices[0]].value] else [])
         + WindowsAt(args, indices[1..])
  }

  function WindowsNamed(node: Node): seq<real> {
    if node.Call? then WindowsAt(node.args, SpecOf(node.name).windowArgs) else []
  }

  function FieldsIn(nodes: seq<Node>): seq<string> { Collect(FieldNamed, nodes) }

  function SecuritiesIn(nodes: seq<Node>): seq<string> { Collect(SecurityNamed, nodes) }

  function FunctionsIn(nodes: seq<Node>): seq<FunctionName> { Collect(FunctionNamed, nodes) }

  function WindowsIn(nodes: seq<Node>): seq<real> { Collect(WindowsNamed, nodes) }

  function FirstSeen<T(==,!new)>(xs: seq<T>): (r: seq<T>)
    ensures forall x :: x in xs <==> x in r
    ensures forall i, j :: 0 <= i < j < |r| ==> r[i] != r[j]
  {
    if xs == [] then []
    else
      var front := FirstSeen(xs[..|xs| - 1]);
      var x := xs[|xs| - 1];
      assert xs == xs[..|xs| - 1] + [x];
      if x in front then front else front + [x]
  }

  function Greatest(xs: seq<real>): (r: real)
    ensures r == 0.0 || r in xs
    ensures r >= 0.0 && forall x :: x in xs ==> x <= r
  {
    if xs == [] then 0.0
    else
      var front := Greatest(xs[..|xs| - 1]);
      var x := xs[|xs| - 1];
      assert xs == xs[..|xs| - 1] + [x];
      if x > front then x else front
  }

  /** What some nodes name, each once, in the order first met. */
  function NamedBy(nodes: seq<Node>): Dependencies {
    Dependencies(FirstSeen(FieldsIn(nodes)), FirstSeen(SecuritiesIn(nodes)), FirstSeen(FunctionsIn(nodes)),
                 Greatest(WindowsIn(nodes)))
  }

  function DependenciesOf(root: Node): Dependencies {
    NamedBy(Preorder(root))
  }

  method FormulaDependencies(root: Node) returns (deps: Dependencies)
    ensures deps == DependenciesOf(root)
  {
    deps := Dependencies([], [], [], 0.0);
    var visited := WalkFormula(root);
    for i := 0 to |visited|
      invariant deps == NamedBy(visited[..i])
    {
      assert visited[..i + 1] == visited[..i] + [visited[i]];
      deps := NoteNode(deps, visited[i], visited[..i]);
    }
    assert visited[..|visited|] == visited;
  }

  lemma NextNode(nodes: seq<Node>, node: Node)
    ensures FieldsIn(nodes + [node]) == FieldsIn(nodes) + FieldNamed(node)
    ensures SecuritiesIn(nodes + [node]) == SecuritiesIn(nodes) + SecurityNamed(node)
    ensures FunctionsIn(nodes + [node]) == FunctionsIn(nodes) + FunctionNamed(node)
    ensures WindowsIn(nodes + [node]) == WindowsIn(nodes) + WindowsNamed(node)
  {
    assert (nodes + [node])[..|nodes|] == nodes;
  }

  /** One more node's field, security, or function with its windows. */
  method NoteNode(deps0: Dependencies, node: Node, ghost nodes: seq<Node>) returns (deps: Dependencies)
    requires deps0 == NamedBy(nodes)
    ensures deps == NamedBy(nodes + [node])
  {
    var fields, securities, functions, maxWindow := deps0.fields, deps0.securities, deps0.functions, deps0.maxWindow;
    NextNode(nodes, node);
    SeenNext(FieldsIn(nodes), FieldsIn(nodes + [node]));
    SeenNext(SecuritiesIn(nodes), SecuritiesIn(nodes + [node]));
    SeenNext(FunctionsIn(nodes), FunctionsIn(nodes + [node]));
    if node.Field? {
      if node.field !in fields {
        fields := fields + [node.field];
      }
    } else if node.Security? {
      if node.canonical !in securities {
        securities := securities + [node.canonical];
      }
    } else if node.Call? {
      if node.name !in functions {
        functions := functions + [node.name];
      }
      maxWindow := CallWindows(node.args, SpecOf(node.name).windowArgs, maxWindow, WindowsIn(nodes));
    } else {
    }
    assert !node.Call? ==> WindowsIn(nodes + [node]) == WindowsIn(nodes);
    deps := Dependencies(fields, securities, functions, maxWindow);
  }

  method CallWindows(args: seq<Node>, indices: seq<nat>, sofar: real, ghost seen: seq<real>) returns (maxWindow: real)
    requires sofar == Greatest(seen)
    ensures maxWindow == Greatest(seen + WindowsAt(args, indices))
  {
    maxWindow := sofar;
    ghost var all := seen;
    assert seen + WindowsAt(args, indices) == all + WindowsAt(args, indices[0..]) by {
      assert indices[0..] == indices;
    }
    for k := 0 to |indices|
      invariant maxWindow == Greatest(all)
      invariant seen + WindowsAt(args, indices) == all + WindowsAt(args, indices[k..])
    {
      assert indices[k..][1..] == indices[k + 1..];
      var index := indices[k];
      if index < |args| && args[index].Number? {
        ghost var was := all;
        all := all + [args[index].value];
        assert all[..|all| - 1] == was;
        if args[index].value > maxWindow {
          maxWindow := args[index].value;
        }
        assert was + ([args[index].value] + WindowsAt(args, indices[k + 1..]))
            == all + WindowsAt(args, indices[k + 1..]);
      }
    }
    assert all + [] == all;
  }

  lemma SeenNext<T(!new)>(xs: seq<T>, ys: seq<T>)
    requires ys == xs || (|ys| == |xs| + 1 && ys[..|xs|] == xs)
    ensures FirstSeen(ys) == if ys == xs || ys[|xs|] in FirstSeen(xs) then FirstSeen(xs) else FirstSeen(xs) + [ys[|xs|]]
  {
  }
}
