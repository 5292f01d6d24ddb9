/** Text to value: `parseFormula` and `evaluateFormula`, and why no accepted formula is too deep to evaluate. */
module FormulaPipeline {
  import opened Util
  import opened FormulaAst
  import opened FormulaGrammar
  import opened FormulaAccept
  import opened FormulaPrinter
  import opened FormulaText
  import opened FormulaLexer
  import opened FormulaEvaluator
  import opened FormulaReads
  import opened FormulaProvenance

  function TokensIn(v: Vocabulary, raw: string): seq<Token> {
    var body := BodyOf(raw);
    TokensOf(Lex(v, raw, body.start, body.end)) + [Eof]
  }

  /** The accepted texts: short enough, not blank, every character usable, and an accepted token list. */
  predicate AcceptsText(v: Vocabulary, raw: string) {
    && |raw| <= MAX_FORMULA_LENGTH
    && BodyOf(raw).start < BodyOf(raw).end
    && ErrorToken !in TokensIn(v, raw)
    && Accepts(TokensIn(v, raw))
  }

  function AstOf(v: Vocabulary, raw: string): Node
    requires AcceptsText(v, raw)
  {
    ParseWhole(TokensIn(v, raw), MAX_FORMULA_DEPTH).value
  }

  datatype ParseResult = ParseResult(
    ok: bool, ast: Option<Node>, canonical: Option<string>, problems: seq<ProblemCode>)

  method ParseFormula(v: Vocabulary, spell: real -> string, raw: Option<string>) returns (r: ParseResult)
    ensures r.ok <==> raw.Some? && AcceptsText(v, raw.value)
    ensures r.ok <==> r.problems == []
    ensures r.ok ==> r.ast == Some(AstOf(v, raw.value)) && r.canonical == Some(PrintText(spell, AstOf(v, raw.value)))
    ensures !r.ok ==> r.canonical == None
    ensures raw.None? ==> r == ParseResult(false, None, None, [NotAString])
    ensures raw.Some? && |raw.value| > MAX_FORMULA_LENGTH ==> r == ParseResult(false, None, None, [TooLong])
  {
    if raw.None? {
      return ParseResult(false, None, None, [NotAString]);
    }
    if |raw.value| > MAX_FORMULA_LENGTH {
      return ParseResult(false, None, None, [TooLong]);
    }
    var body := FormulaBody(raw.value);
    var tokens, scanned := LexFormula(v, raw.value, body);
    if body.end <= body.start {
      return ParseResult(false, None, None, [Empty]);
    }
    var ok, ast, problems := ParseTokens(tokens, scanned);
    r := ParseResult(ok, Some(ast), if ok then Some(PrintText(spell, ast)) else None, problems);
  }

  // ---------------------------------------------------------------- height

  /** Operators in the whole tree. */
  function Operators(node: Node): nat {
    match node
    case Unary(_, operand) => Operators(operand)
    case Binary(_, left, right) => Operators(left) + 1 + Operators(right)
    case Call(_, args) => OperatorsAll(args)
    case _ => 0
  }

  function OperatorsAll(args: seq<Node>): nat {
    if args == [] then 0 else Operators(args[0]) + OperatorsAll(args[1..])
  }

  /** Most signs and calls on one path. */
  function Nesting(node: Node): nat {
    match node
    case Unary(_, operand) => 1 + Nesting(operand)
    case Binary(_, left, right) => Max(Nesting(left), Nesting(right))
    case Call(_, args) => 1 + NestingAll(args)
    case _ => 0
  }

  function NestingAll(args: seq<Node>): nat {
    if args == [] then 0 else Max(Nesting(args[0]), NestingAll(args[1..]))
  }

  lemma {:induction false} HeightBound(node: Node)
    ensures Height(node) <= Operators(node) + Nesting(node) + 1
  {
    match node
    case Unary(_, operand) => HeightBound(operand);
    case Binary(_, left, right) => HeightBound(left); HeightBound(right);
    case Call(_, args) => HeightBoundAll(args);
    case _ =>
  }

  lemma {:induction false} HeightBoundAll(args: seq<Node>)
    ensures HeightAll(args) <= OperatorsAll(args) + NestingAll(args) + 1
  {
    if args != [] {
      HeightBound(args[0]);
      HeightBoundAll(args[1..]);
    }
  }

  /** Every operator costs its own token and one operand's; every sign and call costs a token and a level. */
  ghost predicate Afforded(node: Node, tokens: nat, depth: nat) {
    2 * Operators(node) + Nesting(node) + 1 <= tokens && Nesting(node) <= depth
  }

  lemma {:induction false} SumAfforded(e: SumC)
    ensures Afforded(SumAst(e), |SumYield(e)|, SumDepth(e))
  {
    match e
    case OneTerm(term) => TermAfforded(term);
    case AddC(_, left, right) => SumAfforded(left); TermAfforded(right);
  }

  lemma {:induction false} TermAfforded(t: TermC)
    ensures Afforded(TermAst(t), |TermYield(t)|, TermDepth(t))
  {
    match t
    case OneUnary(unary) => UnaryAfforded(unary);
    case MulC(_, left, right) => TermAfforded(left); UnaryAfforded(right);
  }

  lemma {:induction false} UnaryAfforded(u: UnaryC)
    ensures Afforded(UnaryAst(u), |UnaryYield(u)|, UnaryDepth(u))
  {
    match u
    case OnePrimary(ParenC(inner)) => SumAfforded(inner);
    case OnePrimary(CallC(name, args)) =>
      ArgsAfforded(args);
      KeptAfforded(ArgsAst(args), MAX_FORMULA_ARGS);
      assert UnaryAst(u) == PrimaryAst(u.primary) == Call(name, FirstArgs(ArgsAst(args)));
    case OnePrimary(_) =>
    case SignC(_, operand) => UnaryAfforded(operand);
  }

  lemma {:induction false} ArgsAfforded(a: ArgsC)
    ensures 2 * OperatorsAll(ArgsAst(a)) + NestingAll(ArgsAst(a)) + 1 <= |ArgsYield(a)|
    ensures NestingAll(ArgsAst(a)) <= ArgsDepth(a)
  {
    match a
    case LastArg(arg) =>
      SumAfforded(arg);
      assert ArgsAst(a)[1..] == [];
    case MoreArgs(arg, rest) =>
      SumAfforded(arg);
      ArgsAfforded(rest);
      assert ArgsAst(a)[1..] == ArgsAst(rest);
  }

  /** Forgetting the last arguments makes nothing larger. */
  lemma {:induction false} KeptAfforded(args: seq<Node>, n: nat)
    ensures n <= |args| ==> OperatorsAll(args[..n]) <= OperatorsAll(args) && NestingAll(args[..n]) <= NestingAll(args)
  {
    if 0 < n <= |args| {
      KeptAfforded(args[1..], n - 1);
      assert args[..n][1..] == args[1..][..n - 1];
    }
  }

  lemma {:induction false} ReassocKeepsCounts(node: Node)
    ensures Operators(Reassoc(node)) == Operators(node) && Nesting(Reassoc(node)) == Nesting(node)
  {
    match node
    case Unary(_, operand) => ReassocKeepsCounts(operand);
    case Binary(op, left, right) =>
      ReassocKeepsCounts(left);
      ReassocKeepsCounts(right);
      SpliceKeepsCounts(op, Reassoc(left), Reassoc(right));
    case Call(_, args) => ReassocAllKeepsCounts(args);
    case _ =>
  }

  lemma {:induction false} ReassocAllKeepsCounts(args: seq<Node>)
    ensures OperatorsAll(ReassocAll(args)) == OperatorsAll(args) && NestingAll(ReassocAll(args)) == NestingAll(args)
  {
    if args != [] {
      ReassocKeepsCounts(args[0]);
      ReassocAllKeepsCounts(args[1..]);
      assert ReassocAll(args)[1..] == ReassocAll(args[1..]);
    }
  }

  lemma {:induction false} SpliceKeepsCounts(op: BinaryOp, left: Node, right: Node)
    ensures Operators(Splice(op, left, right)) == Operators(left) + 1 + Operators(right)
    ensures Nesting(Splice(op, left, right)) == Max(Nesting(left), Nesting(right))
  {
    if InBand(right, OpBinding(op)) {
      SpliceKeepsCounts(op, left, right.left);
    }
  }

  /**
   * An accepted tree, and the left-nested tree of its canonical print, are at most 232 high: 400
   * characters are at most 400 tokens, and a level above an operator costs two of them.
   */
  lemma AcceptedIsLow(v: Vocabulary, raw: string)
    requires AcceptsText(v, raw)
    ensures Height(AstOf(v, raw)) <= 232 && Height(Reassoc(AstOf(v, raw))) <= 232
  {
    var body := BodyOf(raw);
    var xs := Lex(v, raw, body.start, body.end);
    ScanTiles(v, raw, body.start, body.end);
    TilesAreFew(raw, body.start, body.end, xs);
    var tokens := TokensIn(v, raw);
    var e := ExprSound(tokens, 0, MAX_FORMULA_DEPTH);
    assert tokens[|xs|] == Eof;
    WholeIsYield(tokens, MAX_FORMULA_DEPTH, e);
    SumAfforded(e);
    var ast := AstOf(v, raw);
    assert ast == SumAst(e);
    assert |SumYield(e)| <= |xs|;
    HeightBound(ast);
    ReassocKeepsCounts(ast);
    HeightBound(Reassoc(ast));
  }

  /**
   * No accepted formula is ever too deep at evaluation, and the left-nested tree of its canonical print evaluates to
   * the same value or the same reason from the same inputs, under the evaluator's own depth cap.
   */
  lemma CanonicalEvaluatesTheSame(v: Vocabulary, raw: string, ctx: Context)
    requires AcceptsText(v, raw)
    ensures var ast := AstOf(v, raw);
            && EvalWithin(ast, ctx, MAX_EVAL_DEPTH) == Eval(ast, ctx)
            && EvalWithin(ast, ctx, MAX_EVAL_DEPTH).value != Na(NaTooDeep)
            && EvalWithin(Reassoc(ast), ctx, MAX_EVAL_DEPTH) == EvalWithin(ast, ctx, MAX_EVAL_DEPTH)
  {
    var ast := AstOf(v, raw);
    AcceptedIsLow(v, raw);
    CapIsInvisible(ast, ctx, MAX_EVAL_DEPTH);
    CapIsInvisible(Reassoc(ast), ctx, MAX_EVAL_DEPTH);
    NeverTooDeep(ast, ctx);
    ReassocMeansTheSame(ast, ctx);
  }

  // ---------------------------------------------------------------- provenance of accepted texts

  lemma {:induction false} CleanSum(e: SumC)
    requires forall t :: t in SumYield(e) ==> CleanToken(t)
    ensures WellKeyed(SumAst(e))
  {
    match e
    case OneTerm(term) => CleanTerm(term);
    case AddC(_, left, right) => CleanSum(left); CleanTerm(right);
  }

  lemma {:induction false} CleanTerm(c: TermC)
    requires forall t :: t in TermYield(c) ==> CleanToken(t)
    ensures WellKeyed(TermAst(c))
  {
    match c
    case OneUnary(unary) => CleanUnary(unary);
    case MulC(_, left, right) => CleanTerm(left); CleanUnary(right);
  }

  lemma {:induction false} CleanUnary(u: UnaryC)
    requires forall t :: t in UnaryYield(u) ==> CleanToken(t)
    ensures WellKeyed(UnaryAst(u))
  {
    match u
    case SignC(_, operand) => CleanUnary(operand);
    case OnePrimary(p) =>
      match p {
        case FieldC(field) => assert WordToken(field) in UnaryYield(u);
        case SecurityC(canonical) => assert RefToken(canonical) in UnaryYield(u);
        case ParenC(inner) => CleanSum(inner);
        case CallC(name, args) =>
          CleanArgs(args);
          var kept := FirstArgs(ArgsAst(args));
          assert forall i :: 0 <= i < |kept| ==> kept[i] == ArgsAst(args)[i];
          assert UnaryAst(u) == PrimaryAst(p) == Call(name, kept);
        case _ =>
      }
  }

  lemma {:induction false} CleanArgs(a: ArgsC)
    requires forall t :: t in ArgsYield(a) ==> CleanToken(t)
    ensures forall i :: 0 <= i < |ArgsAst(a)| ==> WellKeyed(ArgsAst(a)[i])
  {
    match a
    case LastArg(arg) => CleanSum(arg);
    case MoreArgs(arg, rest) => CleanSum(arg); CleanArgs(rest);
  }

  /** The tree of an accepted text never names its inputs so that two keys meet. */
  lemma AcceptedIsWellKeyed(v: Vocabulary, raw: string)
    requires forall s: string :: v.parseSecurityRef(s).ParsedSecurity? ==> v.parseSecurityRef(s).canonical != ""
    requires AcceptsText(v, raw)
    ensures WellKeyed(AstOf(v, raw))
  {
    var body := BodyOf(raw);
    var tokens := TokensIn(v, raw);
    ScannedAreClean(v, raw, body.start, body.end);
    var e := ExprSound(tokens, 0, MAX_FORMULA_DEPTH);
    forall t | t in SumYield(e)
      ensures CleanToken(t)
    {
      var k :| 0 <= k < |SumYield(e)| && SumYield(e)[k] == t;
      assert tokens[0..|SumYield(e)|][k] == tokens[k];
    }
    CleanSum(e);
  }

  ghost predicate SameValue(ast: Node, c: Context, d: Context) {
    EvalWithin(ast, d, MAX_EVAL_DEPTH) == EvalWithin(ast, c, MAX_EVAL_DEPTH)
  }

  /**
   * The recorded inputs of an accepted formula fix its value if and only if none is read with its whole history and
   * with a window too; a text that names no series both ways never does. No accepted security may spell itself as
   * nothing.
   */
  lemma AcceptedProvenance(v: Vocabulary, raw: string, c: Context)
    requires forall s: string :: v.parseSecurityRef(s).ParsedSecurity? ==> v.parseSecurityRef(s).canonical != ""
    requires AcceptsText(v, raw)
    ensures var ast := AstOf(v, raw);
            && ((forall d :: AgreeOnLog(c, d, Inputs(ast, c)) ==> SameValue(ast, c, d))
                <==> !MixesWindows(Asks(ast, c)))
            && (MixesWindows(Asks(ast, c)) ==> TextMixesWindows(ast))
  {
    var ast := AstOf(v, raw);
    AcceptedIsWellKeyed(v, raw);
    ProvenanceExactly(ast, c);
    forall d
      ensures SameValue(ast, c, d) <==> Eval(ast, d) == Eval(ast, c)
    {
      CanonicalEvaluatesTheSame(v, raw, c);
      CanonicalEvaluatesTheSame(v, raw, d);
    }
    if MixesWindows(Asks(ast, c)) {
      MixingIsNamed(ast, c);
    }
  }

  datatype Evaluation = Evaluation(value: Option<Value>, inputs: seq<Read>, problems: seq<ProblemCode>)

  /** Parse and evaluate: no value at all when the text does not parse. */
  method EvaluateFormula(v: Vocabulary, spell: real -> string, raw: Option<string>,
                         ctx: Context) returns (r: Evaluation)
    ensures r.value.None? <==> !(raw.Some? && AcceptsText(v, raw.value))
    ensures r.value.None? ==> r.inputs == [] && r.problems != []
    ensures r.value.Some? ==> r.value.value == Eval(AstOf(v, raw.value), ctx).value
                              && r.inputs == Inputs(AstOf(v, raw.value), ctx) && r.problems == []
  {
    var parsed := ParseFormula(v, spell, raw);
    if !parsed.ok {
      return Evaluation(None, [], parsed.problems);
    }
    var value, inputs := EvaluateFormulaNode(parsed.ast.value, ctx);
    CanonicalEvaluatesTheSame(v, raw.value, ctx);
    r := Evaluation(Some(value), inputs, parsed.problems);
  }
}
