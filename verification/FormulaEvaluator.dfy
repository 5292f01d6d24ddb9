/**
 * The evaluator over exact rationals: a value or the reason there is none, and the inputs it asked for.
 *
 * `Eval` is the meaning of a tree; `EvalWithin` is the same with the evaluator's depth cap; the class
 * `Evaluator` computes the latter while it records what it reads.
 */
module FormulaEvaluator {
  import opened Util
  import opened FormulaAst
  import opened FormulaPrinter

  const DEFAULT_FORMULA_FIELD := "PX_LAST"

  /** Deepest tree the evaluator walks. */
  const MAX_EVAL_DEPTH: nat := 256

  datatype FieldAnswer = FieldValue(value: real) | NoField | FieldThrew

  datatype Point = Finite(value: real) | NotFinite

  datatype SeriesAnswer = Points(points: seq<Point>) | NoSeries | SeriesThrew

  /** Where values come from. `None` is the row's own security; an empty `declaredField` declares none. */
  datatype Context = Context(
    field: (Option<string>, string) -> FieldAnswer,
    series: (Option<string>, string, nat) -> SeriesAnswer,
    declaredField: string)

  function DefaultField(ctx: Context): string {
    if ctx.declaredField == "" then DEFAULT_FORMULA_FIELD else ctx.declaredField
  }

  datatype NaReason =
    | NaBadFormula | NaMissingField | NaMissingSeries | NaInsufficientHistory
    | NaDivZero | NaBadWindow | NaContextError | NaTooDeep

  datatype Value = Ok(value: real) | Na(reason: NaReason)

  /** One call of the evaluator's `record`: window 0 when only the current value was taken. */
  datatype Read = Read(security: Option<string>, field: string, window: nat)

  datatype Outcome = Outcome(value: Value, requests: seq<Read>)

  // ---------------------------------------------------------------- meaning

  function ApplyBinary(op: BinaryOp, a: real, b: real): Value {
    match op
    case Plus => Ok(a + b)
    case Minus => Ok(a - b)
    case Star => Ok(a * b)
    case Slash => if b == 0.0 then Na(NaDivZero) else Ok(a / b)
  }

  function ApplyUnary(op: UnaryOp, inner: Outcome): Outcome {
    match inner.value
    case Na(_) => inner
    case Ok(v) => Outcome(Ok(if op == Neg then -v else v), inner.requests)
  }

  /** Left first; the right is not looked at once the left has no value. */
  function Both(op: BinaryOp, left: Outcome, right: Outcome): Outcome {
    match left.value
    case Na(_) => left
    case Ok(a) =>
      Outcome(match right.value case Na(r) => Na(r) case Ok(b) => ApplyBinary(op, a, b),
              left.requests + right.requests)
  }

  function ReadField(security: Option<string>, field: string, ctx: Context): Outcome {
    Outcome(match ctx.field(security, field)
            case FieldValue(v) => Ok(v)
            case NoField => Na(NaMissingField)
            case FieldThrew => Na(NaContextError),
            [Read(security, field, 0)])
  }

  datatype History = Usable(points: seq<real>) | Unusable(reason: NaReason)

  function LastPoints(all: seq<Point>, window: nat): seq<Point> {
    if window == 0 || |all| <= window then all else all[|all| - window..]
  }

  predicate AllFinite(points: seq<Point>) {
    forall i :: 0 <= i < |points| ==> points[i].Finite?
  }

  function Values(points: seq<Point>): (r: seq<real>)
    requires AllFinite(points)
    ensures |r| == |points| && forall i :: 0 <= i < |r| ==> r[i] == points[i].value
  {
    seq(|points|, i requires 0 <= i < |points| => points[i].value)
  }

  function UsableHistory(answer: SeriesAnswer, window: nat): (h: History)
    ensures h.Usable? ==> |h.points| > 0
  {
    match answer
    case SeriesThrew => Unusable(NaContextError)
    case NoSeries => Unusable(NaMissingSeries)
    case Points(all) =>
      var used := LastPoints(all, window);
      if used == [] || |used| < window || !AllFinite(used) then Unusable(NaInsufficientHistory)
      else Usable(Values(used))
  }

  function Sum(xs: seq<real>): real {
    if xs == [] then 0.0 else Sum(xs[..|xs| - 1]) + xs[|xs| - 1]
  }

  function OverHistory(name: FunctionName, history: History): Value {
    match history
    case Unusable(reason) => Na(reason)
    case Usable(points) =>
      if name == MA then if points == [] then Na(NaInsufficientHistory) else Ok(Sum(points) / |points| as real)
      else if |points| < 2 then Na(NaInsufficientHistory)
      else if points[0] == 0.0 then Na(NaDivZero)
      else Ok(100.0 * points[|points| - 1] / points[0])
  }

  /** The window of a `MA`/`NORM` call: `Some(0)` when `NORM` has none, `None` when it is unusable. */
  function WindowOf(name: FunctionName, args: seq<Node>): Option<nat> {
    if |args| < 2 then if name == MA then None else Some(0)
    else if !args[1].Number? then None
    else if args[1].value.Floor as real != args[1].value || args[1].value < 1.0 then None
    else Some(args[1].value.Floor)
  }

  function Target(node: Node, ctx: Context): (Option<string>, string)
    requires IsSeriesNode(node)
  {
    if node.Field? then (None, node.field) else (Some(node.canonical), DefaultField(ctx))
  }

  /** `MA` and `NORM`: a named series, then a window. */
  function SeriesCall(name: FunctionName, args: seq<Node>, ctx: Context): Outcome {
    if args == [] || !IsSeriesNode(args[0]) then Outcome(Na(NaBadFormula), [])
    else
      match WindowOf(name, args)
      case None => Outcome(Na(NaBadWindow), [])
      case Some(window) =>
        var (security, field) := Target(args[0], ctx);
        Outcome(OverHistory(name, UsableHistory(ctx.series(security, field, window), window)),
                [Read(security, field, window)])
  }

  predicate GoodArity(name: FunctionName, args: seq<Node>) {
    SpecOf(name).minArgs <= |args| <= SpecOf(name).maxArgs
  }

  function Eval(node: Node, ctx: Context): Outcome {
    match node
    case Number(value) => Outcome(Ok(value), [])
    case Field(field) => ReadField(None, field, ctx)
    case Security(canonical) => ReadField(Some(canonical), DefaultField(ctx), ctx)
    case Unary(op, operand) => ApplyUnary(op, Eval(operand, ctx))
    case Binary(op, left, right) => Both(op, Eval(left, ctx), Eval(right, ctx))
    case Call(name, args) =>
      if !GoodArity(name, args) then Outcome(Na(NaBadFormula), [])
      else if name == RATIO then Both(Slash, Eval(args[0], ctx), Eval(args[1], ctx))
      else if name == SPREAD then Both(Minus, Eval(args[0], ctx), Eval(args[1], ctx))
      else SeriesCall(name, args, ctx)
    case ErrorNode => Outcome(Na(NaBadFormula), [])
  }

  function EvalWithin(node: Node, ctx: Context, b: nat): Outcome {
    if b == 0 then Outcome(Na(NaTooDeep), [])
    else
      match node
      case Number(value) => Outcome(Ok(value), [])
      case Field(field) => ReadField(None, field, ctx)
      case Security(canonical) => ReadField(Some(canonical), DefaultField(ctx), ctx)
      case Unary(op, operand) => ApplyUnary(op, EvalWithin(operand, ctx, b - 1))
      case Binary(op, left, right) => Both(op, EvalWithin(left, ctx, b - 1), EvalWithin(right, ctx, b - 1))
      case Call(name, args) =>
        if !GoodArity(name, args) then Outcome(Na(NaBadFormula), [])
        else if name == RATIO then Both(Slash, EvalWithin(args[0], ctx, b - 1), EvalWithin(args[1], ctx, b - 1))
        else if name == SPREAD then Both(Minus, EvalWithin(args[0], ctx, b - 1), EvalWithin(args[1], ctx, b - 1))
        else SeriesCall(name, args, ctx)
      case ErrorNode => Outcome(Na(NaBadFormula), [])
  }

  function Height(node: Node): (h: nat)
    ensures h > 0
  {
    match node
    case Unary(_, operand) => 1 + Height(operand)
    case Binary(_, left, right) => 1 + Max(Height(left), Height(right))
    case Call(_, args) => 1 + HeightAll(args)
    case _ => 1
  }

  function HeightAll(args: seq<Node>): (h: nat)
    ensures forall i :: 0 <= i < |args| ==> Height(args[i]) <= h
  {
    if args == [] then 0 else Max(Height(args[0]), HeightAll(args[1..]))
  }

  /** The cap is invisible on a tree no higher than it. */
  lemma {:induction false} CapIsInvisible(node: Node, ctx: Context, b: nat)
    requires Height(node) <= b
    ensures EvalWithin(node, ctx, b) == Eval(node, ctx)
  {
    match node
    case Unary(_, operand) => CapIsInvisible(operand, ctx, b - 1);
    case Binary(_, left, right) =>
      CapIsInvisible(left, ctx, b - 1);
      CapIsInvisible(right, ctx, b - 1);
    case Call(name, args) =>
      if GoodArity(name, args) && (name == RATIO || name == SPREAD) {
        CapIsInvisible(args[0], ctx, b - 1);
        CapIsInvisible(args[1], ctx, b - 1);
      }
    case _ =>
  }

  /** Without the cap nothing is ever too deep. */
  lemma {:induction false} NeverTooDeep(node: Node, ctx: Context)
    ensures Eval(node, ctx).value != Na(NaTooDeep)
  {
    match node
    case Unary(_, operand) => NeverTooDeep(operand, ctx);
    case Binary(_, left, right) => NeverTooDeep(left, ctx); NeverTooDeep(right, ctx);
    case Call(name, args) =>
      if GoodArity(name, args) && (name == RATIO || name == SPREAD) {
        NeverTooDeep(args[0], ctx);
        NeverTooDeep(args[1], ctx);
      }
    case _ =>
  }

  // ---------------------------------------------------------------- canonical printing preserves meaning

  lemma MulDiv(a: real, b: real, c: real)
    requires c != 0.0
    ensures a * b / c == a * (b / c)
  {
    var q := b / c;
    assert b == q * c;
    assert a * b == (a * q) * c;
  }

  lemma MulMul(a: real, b: real, c: real)
    ensures a * b * c == a * (b * c)
  {
  }

  /** `Apply(rop, Apply(op, x, y), z)` and `Apply(op, x, Apply(rop, y, z))`, an absent value spreading. */
  ghost predicate Associate(op: BinaryOp, rop: BinaryOp, x: real, y: real, z: real) {
    match ApplyBinary(op, x, y)
    case Na(_) => false
    case Ok(v) =>
      match ApplyBinary(rop, y, z)
      case Na(r) => ApplyBinary(rop, v, z) == Na(r)
      case Ok(w) => ApplyBinary(rop, v, z) == ApplyBinary(op, x, w)
  }

  lemma SumsAssociate(rop: BinaryOp, x: real, y: real, z: real)
    requires rop == Plus || rop == Minus
    ensures Associate(Plus, rop, x, y, z)
  {
  }

  lemma TimesAssociates(x: real, y: real, z: real)
    ensures Associate(Star, Star, x, y, z)
  {
    MulMul(x, y, z);
  }

  lemma QuotientAssociates(x: real, y: real, z: real)
    ensures Associate(Star, Slash, x, y, z)
  {
    if z != 0.0 {
      MulDiv(x, y, z);
    }
  }

  lemma ApplyAssociates(op: BinaryOp, rop: BinaryOp, x: real, y: real, z: real)
    requires Associates(op) && OpBinding(op) == OpBinding(rop)
    ensures Associate(op, rop, x, y, z)
  {
    if op == Plus {
      SumsAssociate(rop, x, y, z);
    } else if rop == Star {
      TimesAssociates(x, y, z);
    } else {
      QuotientAssociates(x, y, z);
    }
  }

  /** Re-hanging one operand of the same band changes neither the value, the reason, nor what is read. */
  lemma BothAssociates(op: BinaryOp, rop: BinaryOp, a: Outcome, b: Outcome, c: Outcome)
    requires Associates(op) && OpBinding(op) == OpBinding(rop)
    ensures Both(rop, Both(op, a, b), c) == Both(op, a, Both(rop, b, c))
  {
    var abc := a.requests + b.requests + c.requests;
    assert abc == a.requests + (b.requests + c.requests);
    if a.value.Ok? && b.value.Ok? {
      var x, y := a.value.value, b.value.value;
      assert ApplyBinary(op, x, y).Ok? by { ApplyAssociates(op, rop, x, y, 0.0); }
      if c.value.Ok? {
        var z := c.value.value;
        BothOk(op, a, b, x, y);
        BothOk(rop, b, c, y, z);
        ApplyAssociates(op, rop, x, y, z);
      }
    }
  }

  lemma BothOk(op: BinaryOp, a: Outcome, b: Outcome, x: real, y: real)
    requires a.value == Ok(x) && b.value == Ok(y)
    ensures Both(op, a, b) == Outcome(ApplyBinary(op, x, y), a.requests + b.requests)
  {
  }

  lemma {:induction false} SpliceMeansTheSame(op: BinaryOp, left: Node, right: Node, ctx: Context)
    requires Associates(op)
    ensures Eval(Splice(op, left, right), ctx) == Eval(Binary(op, left, right), ctx)
  {
    if InBand(right, OpBinding(op)) {
      SpliceMeansTheSame(op, left, right.left, ctx);
      BothAssociates(op, right.bop, Eval(left, ctx), Eval(right.left, ctx), Eval(right.right, ctx));
    }
  }

  /**
   * The left-nested tree has the same value, or the same reason for none, and reads the same inputs in the same
   * order.
   */
  lemma {:induction false} ReassocMeansTheSame(node: Node, ctx: Context)
    ensures Eval(Reassoc(node), ctx) == Eval(node, ctx)
  {
    match node
    case Unary(_, operand) => ReassocMeansTheSame(operand, ctx);
    case Binary(op, left, right) =>
      ReassocMeansTheSame(left, ctx);
      ReassocMeansTheSame(right, ctx);
      if Associates(op) {
        SpliceMeansTheSame(op, Reassoc(left), Reassoc(right), ctx);
      }
    case Call(name, args) =>
      if GoodArity(name, args) {
        if name == RATIO || name == SPREAD {
          ReassocMeansTheSame(args[0], ctx);
          ReassocMeansTheSame(args[1], ctx);
        } else {
          forall i | 0 <= i < |args|
            ensures IsSeriesNode(args[i]) || args[i].Number? ==> Reassoc(args[i]) == args[i]
            ensures IsSeriesNode(Reassoc(args[i])) == IsSeriesNode(args[i])
            ensures Reassoc(args[i]).Number? == args[i].Number?
          {
            ReassocBand(args[i]);
          }
        }
      }
    case _ =>
  }
}
