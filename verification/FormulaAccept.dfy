/** The static checks on a parsed tree, and what a token list must be for a formula to be accepted. */
module FormulaAccept {
  import opened Util
  import opened FormulaAst
  import opened FormulaGrammar
  import opened FormulaParser
  import opened FormulaWalk

  predicate IsWindow(value: real) {
    value.Floor as real == value && 1.0 <= value <= MAX_FORMULA_WINDOW as real
  }

  predicate SeriesArgOk(args: seq<Node>, index: nat) {
    index < |args| ==> IsSeriesNode(args[index])
  }

  predicate WindowArgOk(args: seq<Node>, index: nat) {
    index < |args| ==> args[index].Number? && IsWindow(args[index].value)
  }

  /**
   * Every call in the tree has a legal number of arguments, series where series belong, windows where windows belong.
   */
  predicate Legal(node: Node) {
    match node
    case Unary(_, operand) => Legal(operand)
    case Binary(_, left, right) => Legal(left) && Legal(right)
    case Call(name, args) =>
      && LegalCall(name, args)
      && forall i :: 0 <= i < |args| ==> Legal(args[i])
    case _ => true
  }

  predicate LegalCall(name: FunctionName, args: seq<Node>) {
    var spec := SpecOf(name);
    && spec.minArgs <= |args| <= spec.maxArgs
    && (forall k :: 0 <= k < |spec.seriesArgs| ==> SeriesArgOk(args, spec.seriesArgs[k]))
    && (forall k :: 0 <= k < |spec.windowArgs| ==> WindowArgOk(args, spec.windowArgs[k]))
  }

  ghost predicate IsWholeUpTo(node: Node, most: nat) {
    exists n: nat :: 1 <= n <= most && NumberOf(n) == node
  }

  function NumberOf(n: nat): Node {
    Number(n as real)
  }

  /** The calls of the language: two operands, or a series and, for `NORM` only if there is one, a window. */
  lemma LegalCallsAre(name: FunctionName, args: seq<Node>)
    ensures (name == RATIO || name == SPREAD) ==> (LegalCall(name, args) <==> |args| == 2)
    ensures name == MA ==>
              (LegalCall(name, args) <==>
                && |args| == 2 && (args[0].Field? || args[0].Security?) && IsWholeUpTo(args[1], 10_000))
    ensures name == NORM ==>
              (LegalCall(name, args) <==>
                && 1 <= |args| <= 2 && (args[0].Field? || args[0].Security?)
                && (|args| == 2 ==> IsWholeUpTo(args[1], 10_000)))
  {
    if |args| == 2 {
      WindowsAreWhole(args[1]);
    }
    if name == MA || name == NORM {
      SeriesAndWindow(name, args);
    }
  }

  lemma WindowsAreWhole(node: Node)
    ensures node.Number? && IsWindow(node.value) <==> IsWholeUpTo(node, 10_000)
  {
    if node.Number? && IsWindow(node.value) {
      var n: nat := node.value.Floor;
      assert NumberOf(n) == node;
    }
  }

  lemma SeriesAndWindow(name: FunctionName, args: seq<Node>)
    requires name == MA || name == NORM
    ensures LegalCall(name, args) <==>
              && SpecOf(name).minArgs <= |args| <= SpecOf(name).maxArgs
              && SeriesArgOk(args, 0) && WindowArgOk(args, 1)
  {
    var spec := SpecOf(name);
    assert spec.seriesArgs == [0] && spec.windowArgs == [1];
    assert spec.seriesArgs[0] == 0 && spec.windowArgs[0] == 1;
  }

  /** What one call is blamed for: a bad arity alone, or else each argument that is not what it must be. */
  method CheckCall(name: FunctionName, args: seq<Node>, problems: seq<ProblemCode>) returns (out: seq<ProblemCode>)
    ensures problems <= out
    ensures ErrorNode !in args ==> (out == problems <==> LegalCall(name, args))
  {
    out := problems;
    var spec := SpecOf(name);
    if |args| < spec.minArgs || |args| > spec.maxArgs {
      out := out + [BadArity];
      return;
    }
    for k := 0 to |spec.seriesArgs|
      invariant problems <= out
      invariant ErrorNode !in args ==>
                  (out == problems <==> forall m :: 0 <= m < k ==> SeriesArgOk(args, spec.seriesArgs[m]))
    {
      var index := spec.seriesArgs[k];
      if index < |args| && !args[index].ErrorNode? && !IsSeriesNode(args[index]) {
        out := out + [NotASeries];
      }
    }
    for k := 0 to |spec.windowArgs|
      invariant problems <= out
      invariant ErrorNode !in args ==>
                  (out == problems <==>
                    && (forall m :: 0 <= m < |spec.seriesArgs| ==> SeriesArgOk(args, spec.seriesArgs[m]))
                    && (forall m :: 0 <= m < k ==> WindowArgOk(args, spec.windowArgs[m])))
    {
      var index := spec.windowArgs[k];
      if index < |args| && !args[index].ErrorNode? && !(args[index].Number? && IsWindow(args[index].value)) {
        out := out + [BadWindow];
      }
    }
  }

  predicate CallOk(node: Node) {
    node.Call? ==> LegalCall(node.name, node.args)
  }

  method CheckStatically(root: Node, problems: seq<ProblemCode>) returns (out: seq<ProblemCode>)
    ensures problems <= out
    ensures !HasErrorNode(root) ==> (out == problems <==> Legal(root))
  {
    out := problems;
    var visited := WalkFormula(root);
    PreorderFindsHoles(root);
    for i := 0 to |visited|
      invariant problems <= out
      invariant !HasErrorNode(root) ==> (out == problems <==> forall m :: 0 <= m < i ==> CallOk(visited[m]))
    {
      if visited[i].Call? {
        if !HasErrorNode(root) {
          NoHolesInArgs(root, visited[i]);
        }
        out := CheckCall(visited[i].name, visited[i].args, out);
      }
    }
    LegalIsEverywhere(root);
  }

  /** Without a hole in the walk there is none among the arguments of a visited call. */
  lemma NoHolesInArgs(root: Node, node: Node)
    requires !HasErrorNode(root) && node in Preorder(root) && node.Call?
    ensures ErrorNode !in node.args
  {
    HolesSpread(root, node);
    assert forall i :: 0 <= i < |node.args| && node.args[i] == ErrorNode ==> HasErrorNode(node.args[i]);
  }

  lemma {:induction false} HolesSpread(root: Node, node: Node)
    requires node in Preorder(root)
    ensures HasErrorNode(node) ==> HasErrorNode(root)
  {
    if node != root {
      match root
      case Unary(_, operand) => HolesSpread(operand, node);
      case Binary(_, left, right) =>
        if node in Preorder(left) { HolesSpread(left, node); } else { HolesSpread(right, node); }
      case Call(_, args) =>
        var i := InPreorderAll(args, node);
        HolesSpread(args[i], node);
    }
  }

  lemma {:induction false} InPreorderAll(nodes: seq<Node>, node: Node) returns (i: nat)
    requires node in PreorderAll(nodes)
    ensures i < |nodes| && node in Preorder(nodes[i])
  {
    if node in Preorder(nodes[0]) {
      i := 0;
    } else {
      var k := InPreorderAll(nodes[1..], node);
      i := k + 1;
    }
  }

  lemma {:induction false} LegalIsEverywhere(root: Node)
    ensures Legal(root) <==> forall n :: n in Preorder(root) ==> CallOk(n)
    decreases root, 1
  {
    assert forall n :: n in Preorder(root) <==> n == root || n in Below(root);
    match root
    case Unary(_, operand) => LegalIsEverywhere(operand);
    case Binary(_, left, right) => LegalIsEverywhere(left); LegalIsEverywhere(right);
    case Call(name, args) =>
      LegalAllIsEverywhere(args);
      assert forall n :: n in Preorder(root) <==> n == root || n in PreorderAll(args);
      assert CallOk(root) <==> LegalCall(name, args);
    case _ => assert root in Preorder(root);
  }

  lemma {:induction false} LegalAllIsEverywhere(nodes: seq<Node>)
    ensures (forall i :: 0 <= i < |nodes| ==> Legal(nodes[i])) <==> forall n :: n in PreorderAll(nodes) ==> CallOk(n)
    decreases nodes, 0
  {
    if nodes != [] {
      LegalIsEverywhere(nodes[0]);
      LegalAllIsEverywhere(nodes[1..]);
      assert nodes == [nodes[0]] + nodes[1..];
      assert (forall i :: 0 <= i < |nodes| ==> Legal(nodes[i]))
         <==> Legal(nodes[0]) && forall i :: 0 <= i < |nodes[1..]| ==> Legal(nodes[1..][i]);
    }
  }

  /** The tree of a derivation has no hole. */
  lemma {:induction false} SumHasNoHoles(e: SumC)
    ensures !HasErrorNode(SumAst(e))
  {
    match e
    case OneTerm(term) => TermHasNoHoles(term);
    case AddC(_, left, right) => SumHasNoHoles(left); TermHasNoHoles(right);
  }

  lemma {:induction false} TermHasNoHoles(t: TermC)
    ensures !HasErrorNode(TermAst(t))
  {
    match t
    case OneUnary(unary) => UnaryHasNoHoles(unary);
    case MulC(_, left, right) => TermHasNoHoles(left); UnaryHasNoHoles(right);
  }

  lemma {:induction false} UnaryHasNoHoles(u: UnaryC)
    ensures !HasErrorNode(UnaryAst(u))
  {
    match u
    case OnePrimary(ParenC(inner)) => SumHasNoHoles(inner);
    case OnePrimary(CallC(_, args)) =>
      ArgsHaveNoHoles(args);
      var kept := FirstArgs(ArgsAst(args));
      assert forall i :: 0 <= i < |kept| ==> kept[i] == ArgsAst(args)[i];
      assert UnaryAst(u) == PrimaryAst(u.primary) == Call(u.primary.name, kept);
    case OnePrimary(_) =>
    case SignC(_, operand) => UnaryHasNoHoles(operand);
  }

  lemma {:induction false} ArgsHaveNoHoles(a: ArgsC)
    ensures forall i :: 0 <= i < |ArgsAst(a)| ==> !HasErrorNode(ArgsAst(a)[i])
  {
    match a
    case LastArg(arg) => SumHasNoHoles(arg);
    case MoreArgs(arg, rest) => SumHasNoHoles(arg); ArgsHaveNoHoles(rest);
  }

  /** `ok` and the tree, of the tokens and the problems the scanner already raised. */
  method ParseTokens(tokens: seq<Token>, scanned: seq<ProblemCode>)
    returns (ok: bool, ast: Node, problems: seq<ProblemCode>)
    requires |tokens| > 0 && tokens[|tokens| - 1] == Eof
    requires scanned == [] <==> ErrorToken !in tokens
    ensures ok <==> ErrorToken !in tokens && Accepts(tokens)
    ensures ok <==> problems == []
    ensures ok ==> ParseWhole(tokens, MAX_FORMULA_DEPTH) == Some(ast) && Legal(ast) && !HasErrorNode(ast)
  {
    var parser := new Parser(tokens);
    ast := parser.Parse();
    problems := scanned + parser.problems;
    ghost var before := problems;
    problems := CheckStatically(ast, problems);
    var holes := FindErrorNode(ast);
    ok := problems == [] && !holes;
    var whole := ParseWhole(tokens, MAX_FORMULA_DEPTH);
    if whole.Some? {
      var e := ExprSound(tokens, 0, MAX_FORMULA_DEPTH);
      SumHasNoHoles(e);
      assert ast == whole.value || problems != [];
    }
  }

  /** The accepted token lists: a whole formula within the depth cap, every call legal. */
  predicate Accepts(tokens: seq<Token>) {
    var whole := ParseWhole(tokens, MAX_FORMULA_DEPTH);
    whole.Some? && Legal(whole.value)
  }

  /** Acceptance in the grammar's own terms. */
  lemma AcceptsExactlyTheGrammar(tokens: seq<Token>)
    requires Eof in tokens
    ensures Accepts(tokens) <==> exists e :: Derives(tokens, e, MAX_FORMULA_DEPTH) && Legal(SumAst(e))
  {
    var whole := ParseWhole(tokens, MAX_FORMULA_DEPTH);
    if whole.Some? {
      ParserDecidesGrammar(tokens, MAX_FORMULA_DEPTH, whole.value);
    }
    forall e | Derives(tokens, e, MAX_FORMULA_DEPTH) && Legal(SumAst(e))
      ensures Accepts(tokens)
    {
      ParserDecidesGrammar(tokens, MAX_FORMULA_DEPTH, SumAst(e));
    }
  }
}
