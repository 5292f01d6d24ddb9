/**
 * The canonical printer, as the token text it prints, and what re-parsing that text gives.
 *
 * The printer drops the parentheses of a right operand of `+` or `*` in the same band, so the tree
 * that comes back is the left-nested one (`Reassoc`), and it wraps every nested sign, so the text may
 * need more depth than the text it was parsed from.
 */
module FormulaPrinter {
  import opened Util
  import opened FormulaAst
  import opened FormulaGrammar
  import opened FormulaAccept

  function OpBinding(op: BinaryOp): nat {
    match op
    case Plus => 1
    case Minus => 1
    case Star => 2
    case Slash => 2
  }

  function BindingOf(node: Node): nat {
    if node.Binary? then OpBinding(node.bop) else if node.Unary? then 3 else 4
  }

  function Wrapped(wrap: bool, inner: seq<Token>): seq<Token> {
    if wrap then [LParen] + inner + [RParen] else inner
  }

  /** The printed form of a node, token by token. */
  function FormatFormula(node: Node): seq<Token> {
    match node
    case Number(value) => [NumberToken(value)]
    case Field(field) => [WordToken(field)]
    case Security(canonical) => [RefToken(canonical)]
    case ErrorNode => [ErrorToken]
    case Unary(op, operand) =>
      [SignToken(op)] + Wrapped(operand.Unary? || operand.Binary?, FormatFormula(operand))
    case Call(name, args) =>
      [WordToken(NameText(name)), LParen] + FormatArgs(args) + [RParen]
    case Binary(op, left, right) =>
      var mine := OpBinding(op);
      var leftWrapped := Wrapped(BindingOf(left) < mine, FormatFormula(left));
      var rightBinding := BindingOf(right);
      var rightNeedsParens := rightBinding < mine || (rightBinding == mine && (op == Minus || op == Slash));
      leftWrapped + [OpToken(op)] + Wrapped(rightNeedsParens, FormatFormula(right))
  }

  function FormatArgs(args: seq<Node>): seq<Token> {
    if args == [] then []
    else if |args| == 1 then FormatFormula(args[0])
    else FormatFormula(args[0]) + [Comma] + FormatArgs(args[1..])
  }

  /** A tree with no hole, whose calls have no more arguments than the parser keeps. */
  predicate Printable(node: Node) {
    match node
    case ErrorNode => false
    case Unary(_, operand) => Printable(operand)
    case Binary(_, left, right) => Printable(left) && Printable(right)
    case Call(_, args) => |args| <= MAX_FORMULA_ARGS && forall i :: 0 <= i < |args| ==> Printable(args[i])
    case _ => true
  }

  // ---------------------------------------------------------------- the tree that comes back

  predicate Associates(op: BinaryOp) {
    op == Plus || op == Star
  }

  /** `left op right` with the same-band spine of `right` re-hung under `left`. */
  function Splice(op: BinaryOp, left: Node, right: Node): Node {
    if right.Binary? && OpBinding(right.bop) == OpBinding(op)
    then Binary(right.bop, Splice(op, left, right.left), right.right)
    else Binary(op, left, right)
  }

  /** The left-nested form of a tree. */
  function Reassoc(node: Node): Node {
    match node
    case Unary(op, operand) => Unary(op, Reassoc(operand))
    case Binary(op, left, right) =>
      if Associates(op) then Splice(op, Reassoc(left), Reassoc(right)) else Binary(op, Reassoc(left), Reassoc(right))
    case Call(name, args) => Call(name, ReassocAll(args))
    case _ => node
  }

  function ReassocAll(args: seq<Node>): (r: seq<Node>)
    ensures |r| == |args|
    ensures forall i :: 0 <= i < |args| ==> r[i] == Reassoc(args[i])
  {
    if args == [] then [] else [Reassoc(args[0])] + ReassocAll(args[1..])
  }

  /** No `+` or `*` has a right operand of its own band: what a parse without parentheses produces. */
  predicate LeftNested(node: Node) {
    match node
    case Unary(_, operand) => LeftNested(operand)
    case Binary(op, left, right) =>
      && LeftNested(left) && LeftNested(right)
      && !(Associates(op) && right.Binary? && OpBinding(right.bop) == OpBinding(op))
    case Call(_, args) => forall i :: 0 <= i < |args| ==> LeftNested(args[i])
    case _ => true
  }

  // ---------------------------------------------------------------- the concrete tree of the printed text

  function SpliceSum(left: SumC, op: SumOp, right: SumC): SumC {
    match right
    case OneTerm(term) => AddC(op, left, term)
    case AddC(rop, rleft, rright) => AddC(rop, SpliceSum(left, op, rleft), rright)
  }

  function SpliceTerm(left: TermC, op: ProductOp, right: TermC): TermC {
    match right
    case OneUnary(unary) => MulC(op, left, unary)
    case MulC(rop, rleft, rright) => MulC(rop, SpliceTerm(left, op, rleft), rright)
  }

  function PrintSum(node: Node): SumC
    requires Printable(node)
    decreases node, (BindingOf(node) - 1) % 4
  {
    if node.Binary? && OpBinding(node.bop) == 1 then
      if node.bop == Plus then SpliceSum(PrintSum(node.left), Plus, PrintSum(node.right))
      else AddC(Minus, PrintSum(node.left), PrintTerm(node.right))
    else OneTerm(PrintTerm(node))
  }

  function PrintTerm(node: Node): TermC
    requires Printable(node)
    decreases node, (BindingOf(node) - 2) % 4
  {
    if node.Binary? && OpBinding(node.bop) == 2 then
      if node.bop == Star then SpliceTerm(PrintTerm(node.left), Star, PrintTerm(node.right))
      else MulC(Slash, PrintTerm(node.left), PrintUnary(node.right))
    else OneUnary(PrintUnary(node))
  }

  function PrintUnary(node: Node): UnaryC
    requires Printable(node)
    decreases node, (BindingOf(node) - 3) % 4
  {
    if node.Unary? then SignC(node.uop, OnePrimary(PrintPrimary(node.operand)))
    else OnePrimary(PrintPrimary(node))
  }

  function PrintPrimary(node: Node): PrimaryC
    requires Printable(node)
    decreases node, (BindingOf(node) - 4) % 4
  {
    match node
    case Number(value) => NumberC(value)
    case Field(field) => FieldC(field)
    case Security(canonical) => SecurityC(canonical)
    case Call(name, args) => if args == [] then EmptyCallC(name) else CallC(name, PrintArgs(args))
    case _ => ParenC(PrintSum(node))
  }

  function PrintArgs(args: seq<Node>): ArgsC
    requires args != [] && forall i :: 0 <= i < |args| ==> Printable(args[i])
    decreases args
  {
    if |args| == 1 then LastArg(PrintSum(args[0])) else MoreArgs(PrintSum(args[0]), PrintArgs(args[1..]))
  }

  // ---------------------------------------------------------------- it spells what the printer prints

  lemma {:induction false} SpliceSumYield(left: SumC, op: SumOp, right: SumC)
    ensures SumYield(SpliceSum(left, op, right)) == SumYield(left) + [OpToken(op)] + SumYield(right)
  {
    match right
    case OneTerm(_) =>
    case AddC(rop, rleft, rright) => SpliceSumYield(left, op, rleft);
  }

  lemma {:induction false} SpliceTermYield(left: TermC, op: ProductOp, right: TermC)
    ensures TermYield(SpliceTerm(left, op, right)) == TermYield(left) + [OpToken(op)] + TermYield(right)
  {
    match right
    case OneUnary(_) =>
    case MulC(rop, rleft, rright) => SpliceTermYield(left, op, rleft);
  }

  lemma {:induction false} SumSpells(node: Node)
    requires Printable(node)
    ensures SumYield(PrintSum(node)) == FormatFormula(node)
    decreases node, (BindingOf(node) - 1) % 4
  {
    if node.Binary? && OpBinding(node.bop) == 1 {
      SumSpells(node.left);
      if node.bop == Plus {
        SumSpells(node.right);
        SpliceSumYield(PrintSum(node.left), Plus, PrintSum(node.right));
      } else {
        TermSpells(node.right);
      }
    } else {
      TermSpells(node);
    }
  }

  lemma {:induction false} TermSpells(node: Node)
    requires Printable(node)
    ensures TermYield(PrintTerm(node)) == Wrapped(BindingOf(node) < 2, FormatFormula(node))
    decreases node, (BindingOf(node) - 2) % 4
  {
    if node.Binary? && OpBinding(node.bop) == 2 {
      TermSpells(node.left);
      if node.bop == Star {
        TermSpells(node.right);
        SpliceTermYield(PrintTerm(node.left), Star, PrintTerm(node.right));
      } else {
        UnarySpells(node.right);
      }
    } else {
      UnarySpells(node);
    }
  }

  lemma {:induction false} UnarySpells(node: Node)
    requires Printable(node)
    ensures UnaryYield(PrintUnary(node)) == Wrapped(BindingOf(node) < 3, FormatFormula(node))
    decreases node, (BindingOf(node) - 3) % 4
  {
    if node.Unary? {
      PrimarySpells(node.operand);
    } else {
      PrimarySpells(node);
    }
  }

  lemma {:induction false} PrimarySpells(node: Node)
    requires Printable(node)
    ensures PrimaryYield(PrintPrimary(node)) == Wrapped(BindingOf(node) < 4, FormatFormula(node))
    decreases node, (BindingOf(node) - 4) % 4
  {
    match node
    case Number(_) =>
    case Field(_) =>
    case Security(_) =>
    case Call(name, args) =>
      if args == [] {
        assert [WordToken(NameText(name)), LParen] + FormatArgs(args) + [RParen]
            == [WordToken(NameText(name)), LParen, RParen];
      } else {
        ArgsSpell(args);
      }
    case ErrorNode =>
    case _ => SumSpells(node);
  }

  lemma {:induction false} ArgsSpell(args: seq<Node>)
    requires args != [] && forall i :: 0 <= i < |args| ==> Printable(args[i])
    ensures ArgsYield(PrintArgs(args)) == FormatArgs(args)
    decreases args
  {
    SumSpells(args[0]);
    if |args| > 1 {
      ArgsSpell(args[1..]);
    }
  }

  // ---------------------------------------------------------------- it means the left-nested tree

  predicate InBand(node: Node, band: nat) {
    node.Binary? && OpBinding(node.bop) == band
  }

  /** The first operand of a sum is not itself a sum, so splicing stops where the printer stopped. */
  ghost predicate SumBottom(e: SumC) {
    match e
    case OneTerm(term) => !InBand(TermAst(term), 1)
    case AddC(_, left, _) => SumBottom(left)
  }

  ghost predicate TermBottom(t: TermC) {
    match t
    case OneUnary(unary) => !InBand(UnaryAst(unary), 2)
    case MulC(_, left, _) => TermBottom(left)
  }

  lemma {:induction false} SpliceSumMeans(left: SumC, op: SumOp, right: SumC)
    requires SumBottom(right)
    ensures SumAst(SpliceSum(left, op, right)) == Splice(op, SumAst(left), SumAst(right))
    ensures SumBottom(left) ==> SumBottom(SpliceSum(left, op, right))
  {
    match right
    case OneTerm(_) =>
    case AddC(_, rleft, _) => SpliceSumMeans(left, op, rleft);
  }

  lemma {:induction false} SpliceTermMeans(left: TermC, op: ProductOp, right: TermC)
    requires TermBottom(right)
    ensures TermAst(SpliceTerm(left, op, right)) == Splice(op, TermAst(left), TermAst(right))
    ensures TermBottom(left) ==> TermBottom(SpliceTerm(left, op, right))
  {
    match right
    case OneUnary(_) =>
    case MulC(_, rleft, _) => SpliceTermMeans(left, op, rleft);
  }

  lemma SpliceBand(op: BinaryOp, left: Node, right: Node)
    ensures Splice(op, left, right).Binary? && OpBinding(Splice(op, left, right).bop) == OpBinding(op)
  {
  }

  lemma ReassocBand(node: Node)
    ensures BindingOf(Reassoc(node)) == BindingOf(node)
    ensures Reassoc(node).Unary? == node.Unary? && Reassoc(node).Binary? == node.Binary?
  {
    if node.Binary? && Associates(node.bop) {
      SpliceBand(node.bop, Reassoc(node.left), Reassoc(node.right));
    }
  }

  lemma {:induction false} SumMeans(node: Node)
    requires Printable(node)
    ensures SumAst(PrintSum(node)) == Reassoc(node) && SumBottom(PrintSum(node))
    decreases node, (BindingOf(node) - 1) % 4
  {
    ReassocBand(node);
    if InBand(node, 1) {
      SumMeans(node.left);
      if node.bop == Plus {
        SumMeans(node.right);
        SpliceSumMeans(PrintSum(node.left), Plus, PrintSum(node.right));
      } else {
        TermMeans(node.right);
      }
    } else {
      TermMeans(node);
    }
  }

  lemma {:induction false} TermMeans(node: Node)
    requires Printable(node)
    ensures TermAst(PrintTerm(node)) == Reassoc(node) && TermBottom(PrintTerm(node))
    decreases node, (BindingOf(node) - 2) % 4
  {
    ReassocBand(node);
    if InBand(node, 2) {
      TermMeans(node.left);
      if node.bop == Star {
        TermMeans(node.right);
        SpliceTermMeans(PrintTerm(node.left), Star, PrintTerm(node.right));
      } else {
        UnaryMeans(node.right);
      }
    } else {
      UnaryMeans(node);
    }
  }

  lemma {:induction false} UnaryMeans(node: Node)
    requires Printable(node)
    ensures UnaryAst(PrintUnary(node)) == Reassoc(node)
    decreases node, (BindingOf(node) - 3) % 4
  {
    if node.Unary? {
      PrimaryMeans(node.operand);
    } else {
      PrimaryMeans(node);
    }
  }

  lemma {:induction false} PrimaryMeans(node: Node)
    requires Printable(node)
    ensures PrimaryAst(PrintPrimary(node)) == Reassoc(node)
    decreases node, (BindingOf(node) - 4) % 4
  {
    match node
    case Number(_) =>
    case Field(_) =>
    case Security(_) =>
    case Call(_, args) => if args != [] { ArgsMean(args); }
    case ErrorNode =>
    case _ => SumMeans(node);
  }

  lemma {:induction false} ArgsMean(args: seq<Node>)
    requires args != [] && forall i :: 0 <= i < |args| ==> Printable(args[i])
    ensures ArgsAst(PrintArgs(args)) == ReassocAll(args)
    decreases args
  {
    SumMeans(args[0]);
    if |args| > 1 {
      ArgsMean(args[1..]);
    }
  }

  // ---------------------------------------------------------------- the theorems

  /** The depth the printed text of a tree costs its parser. */
  function PrintedDepth(node: Node): nat
    requires Printable(node)
  {
    1 + SumDepth(PrintSum(node))
  }

  /**
   * Re-parsing the printed tokens under any depth budget: the left-nested tree when the budget covers the
   * printed depth, and nothing at all when it does not.
   */
  lemma ParseOfFormat(node: Node, b: nat)
    requires Printable(node)
    ensures ParseWhole(FormatFormula(node) + [Eof], b)
         == if PrintedDepth(node) <= b then Some(Reassoc(node)) else None
  {
    SumSpells(node);
    SumMeans(node);
    DerivedParses(FormatFormula(node) + [Eof], b, PrintSum(node));
  }

  /** Parsing the printed tokens gives the tree back exactly for left-nested trees whose print is shallow enough. */
  lemma RoundTripExactly(node: Node)
    requires Printable(node)
    ensures ParseWhole(FormatFormula(node) + [Eof], MAX_FORMULA_DEPTH) == Some(node)
       <==> LeftNested(node) && PrintedDepth(node) <= MAX_FORMULA_DEPTH
  {
    ParseOfFormat(node, MAX_FORMULA_DEPTH);
    ReassocFixesLeftNested(node);
  }

  lemma {:induction false} ReassocFixesLeftNested(node: Node)
    ensures LeftNested(Reassoc(node))
    ensures Reassoc(node) == node <==> LeftNested(node)
  {
    match node
    case Unary(_, operand) => ReassocFixesLeftNested(operand);
    case Binary(op, left, right) =>
      ReassocFixesLeftNested(left);
      ReassocFixesLeftNested(right);
      ReassocBand(right);
      if Associates(op) {
        SpliceIsLeftNested(op, Reassoc(left), Reassoc(right));
      }
    case Call(_, args) =>
      forall i | 0 <= i < |args|
        ensures LeftNested(Reassoc(args[i])) && (Reassoc(args[i]) == args[i] <==> LeftNested(args[i]))
      {
        ReassocFixesLeftNested(args[i]);
      }
    case _ =>
  }

  lemma {:induction false} SpliceIsLeftNested(op: BinaryOp, left: Node, right: Node)
    requires LeftNested(left) && LeftNested(right)
    ensures LeftNested(Splice(op, left, right))
  {
    if InBand(right, OpBinding(op)) {
      SpliceIsLeftNested(op, left, right.left);
    }
  }

  /** The left-nested tree prints to the same tokens, so printing what was re-parsed changes nothing. */
  lemma {:induction false} ReassocPrintsTheSame(node: Node)
    ensures FormatFormula(Reassoc(node)) == FormatFormula(node)
  {
    match node
    case Unary(_, operand) =>
      ReassocPrintsTheSame(operand);
      ReassocBand(operand);
    case Binary(op, left, right) =>
      ReassocPrintsTheSame(left);
      ReassocPrintsTheSame(right);
      ReassocBand(left);
      ReassocBand(right);
      if Associates(op) {
        SplicePrints(op, Reassoc(left), Reassoc(right));
      }
    case Call(_, args) =>
      ReassocAllPrintsTheSame(args);
    case _ =>
  }

  lemma {:induction false} ReassocAllPrintsTheSame(args: seq<Node>)
    ensures FormatArgs(ReassocAll(args)) == FormatArgs(args)
  {
    if args != [] {
      ReassocPrintsTheSame(args[0]);
      ReassocAllPrintsTheSame(args[1..]);
      assert ReassocAll(args)[1..] == ReassocAll(args[1..]);
    }
  }

  lemma {:induction false} SplicePrints(op: BinaryOp, left: Node, right: Node)
    requires Associates(op)
    ensures FormatFormula(Splice(op, left, right)) == FormatFormula(Binary(op, left, right))
  {
    if InBand(right, OpBinding(op)) {
      SplicePrints(op, left, right.left);
      SpliceBand(op, left, right.left);
    }
  }

  // ---------------------------------------------------------------- storing the canonical text

  /** Every accepted tree can be printed. */
  lemma {:induction false} AcceptedIsPrintable(node: Node)
    requires Legal(node) && !HasErrorNode(node)
    ensures Printable(node)
  {
    match node
    case Unary(_, operand) => AcceptedIsPrintable(operand);
    case Binary(_, left, right) => AcceptedIsPrintable(left); AcceptedIsPrintable(right);
    case Call(_, args) =>
      forall i | 0 <= i < |args|
        ensures Printable(args[i])
      {
        AcceptedIsPrintable(args[i]);
      }
    case _ =>
  }

  lemma {:induction false} ReassocKeepsLegal(node: Node)
    ensures Legal(Reassoc(node)) <==> Legal(node)
  {
    match node
    case Unary(_, operand) => ReassocKeepsLegal(operand);
    case Binary(op, left, right) =>
      ReassocKeepsLegal(left);
      ReassocKeepsLegal(right);
      SpliceLegal(op, Reassoc(left), Reassoc(right));
    case Call(name, args) =>
      forall i | 0 <= i < |args|
        ensures Legal(ReassocAll(args)[i]) <==> Legal(args[i])
      {
        ReassocKeepsLegal(args[i]);
      }
      assert forall i :: 0 <= i < |args| ==> SeriesArgOk(ReassocAll(args), i) == SeriesArgOk(args, i)
      by {
        forall i | 0 <= i < |args|
          ensures IsSeriesNode(Reassoc(args[i])) == IsSeriesNode(args[i])
        {
          ReassocBand(args[i]);
        }
      }
      assert forall i :: 0 <= i < |args| ==> WindowArgOk(ReassocAll(args), i) == WindowArgOk(args, i)
      by {
        forall i | 0 <= i < |args|
          ensures Reassoc(args[i]).Number? == args[i].Number? && (args[i].Number? ==> Reassoc(args[i]) == args[i])
        {
          ReassocBand(args[i]);
        }
      }
    case _ =>
  }

  lemma {:induction false} SpliceLegal(op: BinaryOp, left: Node, right: Node)
    ensures Legal(Splice(op, left, right)) <==> Legal(left) && Legal(right)
  {
    if InBand(right, OpBinding(op)) {
      SpliceLegal(op, left, right.left);
    }
  }

  /**
   * The canonical tokens of an accepted formula are accepted exactly when their depth fits the cap; then they
   * stand for the left-nested tree and are its own print.
   */
  lemma CanonicalIsStable(tokens: seq<Token>)
    requires Eof in tokens && Accepts(tokens)
    ensures var node := ParseWhole(tokens, MAX_FORMULA_DEPTH).value;
            var canonical := FormatFormula(node);
            && Printable(node)
            && (Accepts(canonical + [Eof]) <==> PrintedDepth(node) <= MAX_FORMULA_DEPTH)
            && (Accepts(canonical + [Eof]) ==>
                  var again := ParseWhole(canonical + [Eof], MAX_FORMULA_DEPTH).value;
                  again == Reassoc(node) && FormatFormula(again) == canonical)
  {
    var node := ParseWhole(tokens, MAX_FORMULA_DEPTH).value;
    var e := ExprSound(tokens, 0, MAX_FORMULA_DEPTH);
    SumHasNoHoles(e);
    AcceptedIsPrintable(node);
    ParseOfFormat(node, MAX_FORMULA_DEPTH);
    ReassocKeepsLegal(node);
    ReassocPrintsTheSame(node);
  }

  /** `n` minus signs in front of a number, as a tree and as tokens. */
  function Negations(n: nat): Node {
    if n == 0 then Number(1.0) else Unary(Neg, Negations(n - 1))
  }

  function NegationsC(n: nat): UnaryC {
    if n == 0 then OnePrimary(NumberC(1.0)) else SignC(Neg, NegationsC(n - 1))
  }

  lemma {:induction false} NegationsCost(n: nat)
    ensures Printable(Negations(n)) && Legal(Negations(n))
    ensures UnaryAst(NegationsC(n)) == Negations(n) && UnaryDepth(NegationsC(n)) == n
    ensures n > 0 ==> UnaryDepth(PrintUnary(Negations(n))) == 3 * n - 2
  {
    if n > 0 {
      NegationsCost(n - 1);
      if n > 1 {
        var inner := Negations(n - 1);
        assert PrintPrimary(inner) == ParenC(PrintSum(inner));
        assert PrintSum(inner) == OneTerm(OneUnary(PrintUnary(inner)));
      }
    }
  }

  /**
   * Chained signs: what is typed is accepted up to 63 of them, its canonical print only up to 21, because each
   * wrapped sign costs three levels. So canonicalising is not idempotent.
   */
  lemma ChainedSigns(n: nat)
    requires n > 0
    ensures Accepts(UnaryYield(NegationsC(n)) + [Eof]) <==> n <= 63
    ensures Accepts(FormatFormula(Negations(n)) + [Eof]) <==> n <= 21
  {
    NegationsCost(n);
    var typed := OneTerm(OneUnary(NegationsC(n)));
    DerivedParses(SumYield(typed) + [Eof], MAX_FORMULA_DEPTH, typed);
    ParseOfFormat(Negations(n), MAX_FORMULA_DEPTH);
    ghost var printed := PrintUnary(Negations(n));
    assert PrintSum(Negations(n)) == OneTerm(PrintTerm(Negations(n))) == OneTerm(OneUnary(printed));
    assert SumDepth(OneTerm(OneUnary(printed))) == TermDepth(OneUnary(printed)) == UnaryDepth(printed);
    assert PrintedDepth(Negations(n)) == 3 * n - 1;
    ReassocKeepsLegal(Negations(n));
  }

  /** `a+(b+c)` prints as `a+b+c`, which parses as another tree. */
  lemma RoundTripFails()
    ensures var ast := Binary(Plus, Field("A"), Binary(Plus, Field("B"), Field("C")));
            && FormatFormula(ast) == [WordToken("A"), PlusToken, WordToken("B"), PlusToken, WordToken("C")]
            && ParseWhole(FormatFormula(ast) + [Eof], MAX_FORMULA_DEPTH)
               == Some(Binary(Plus, Binary(Plus, Field("A"), Field("B")), Field("C")))
  {
    var ast := Binary(Plus, Field("A"), Binary(Plus, Field("B"), Field("C")));
    ParseOfFormat(ast, MAX_FORMULA_DEPTH);
    assert PrintSum(ast.right) == AddC(Plus, PrintSum(Field("B")), PrintTerm(Field("C")));
  }
}
