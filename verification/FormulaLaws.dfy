/**
 * What the evaluator's arithmetic computes, as laws of evaluated trees in any context: subtraction undoes
 * addition, division undoes multiplication, a moving average times its window is the sum of the window, and a
 * rebased series times its first point is a hundred times its last.
 *
 * `AsOneFraction` ties all of it to an evaluation that never divides: every tree is one numerator over one
 * denominator.
 */
module FormulaLaws {
  import opened Util
  import opened FormulaAst
  import opened FormulaEvaluator

  /** The value of a tree, or the reason there is none. */
  function ValueOf(node: Node, ctx: Context): Value {
    Eval(node, ctx).value
  }

  /** The first value when both are there; otherwise the first reason met. */
  function WhenBoth(x: Value, y: Value): Value {
    if x.Ok? && y.Na? then y else x
  }

  lemma BinaryIs(op: BinaryOp, x: Node, y: Node, ctx: Context)
    ensures Eval(Binary(op, x, y), ctx) == Both(op, Eval(x, ctx), Eval(y, ctx))
  {
  }

  lemma NumberIs(value: real, ctx: Context)
    ensures Eval(Number(value), ctx) == Outcome(Ok(value), [])
  {
  }

  // ---------------------------------------------------------------- signs, sums and differences

  lemma SignLaws(x: Node, ctx: Context)
    ensures Eval(Unary(Pos, x), ctx) == Eval(x, ctx)
    ensures Eval(Unary(Neg, Unary(Neg, x)), ctx) == Eval(x, ctx)
    ensures ValueOf(Binary(Plus, x, Unary(Neg, x)), ctx) == if ValueOf(x, ctx).Ok? then Ok(0.0) else ValueOf(x, ctx)
    ensures Eval(Unary(Neg, x), ctx).requests == Eval(x, ctx).requests
  {
    BinaryIs(Plus, x, Unary(Neg, x), ctx);
  }

  lemma SumLaws(x: Node, y: Node, z: Node, ctx: Context)
    ensures ValueOf(Binary(Plus, x, Number(0.0)), ctx) == ValueOf(x, ctx)
    ensures ValueOf(x, ctx).Ok? && ValueOf(y, ctx).Ok?
         ==> ValueOf(Binary(Plus, x, y), ctx) == ValueOf(Binary(Plus, y, x), ctx)
    ensures Eval(Binary(Plus, Binary(Plus, x, y), z), ctx) == Eval(Binary(Plus, x, Binary(Plus, y, z)), ctx)
  {
    NumberIs(0.0, ctx);
    BothAssociates(Plus, Plus, Eval(x, ctx), Eval(y, ctx), Eval(z, ctx));
  }

  lemma DifferenceLaws(x: Node, y: Node, ctx: Context)
    ensures ValueOf(Binary(Plus, Binary(Minus, x, y), y), ctx) == WhenBoth(ValueOf(x, ctx), ValueOf(y, ctx))
    ensures Eval(Binary(Minus, x, y), ctx) == Eval(Binary(Plus, x, Unary(Neg, y)), ctx)
    ensures Eval(Call(SPREAD, [x, y]), ctx) == Eval(Binary(Minus, x, y), ctx)
    ensures ValueOf(Binary(Plus, Call(SPREAD, [x, y]), y), ctx) == WhenBoth(ValueOf(x, ctx), ValueOf(y, ctx))
  {
    BinaryIs(Minus, x, y, ctx);
    BinaryIs(Plus, Binary(Minus, x, y), y, ctx);
    BinaryIs(Plus, Call(SPREAD, [x, y]), y, ctx);
  }

  // ---------------------------------------------------------------- products and quotients

  lemma Undivided(a: real, b: real)
    requires b != 0.0
    ensures a / b * b == a && a * b / b == a
  {
  }

  lemma DivideThenMultiply(a: real, b: real)
    requires b != 0.0
    ensures ApplyBinary(Slash, a, b).Ok? && ApplyBinary(Star, ApplyBinary(Slash, a, b).value, b) == Ok(a)
    ensures ApplyBinary(Star, a, b).Ok? && ApplyBinary(Slash, ApplyBinary(Star, a, b).value, b) == Ok(a)
  {
    Undivided(a, b);
  }

  lemma Distribute(a: real, b: real, c: real)
    ensures ApplyBinary(Star, a, b).Ok? && ApplyBinary(Star, a, c).Ok? && ApplyBinary(Plus, b, c).Ok?
    ensures ApplyBinary(Star, a, ApplyBinary(Plus, b, c).value)
         == ApplyBinary(Plus, ApplyBinary(Star, a, b).value, ApplyBinary(Star, a, c).value)
  {
  }

  lemma MultiplyAnyWay(a: real, b: real)
    ensures ApplyBinary(Star, a, b) == ApplyBinary(Star, b, a) && ApplyBinary(Star, a, 1.0) == Ok(a)
  {
  }

  lemma ProductLaws(x: Node, y: Node, ctx: Context)
    ensures ValueOf(Binary(Star, x, Number(1.0)), ctx) == ValueOf(x, ctx)
    ensures ValueOf(x, ctx).Ok? && ValueOf(y, ctx).Ok?
         ==> ValueOf(Binary(Star, x, y), ctx) == ValueOf(Binary(Star, y, x), ctx)
  {
    NumberIs(1.0, ctx);
    BinaryIs(Star, x, Number(1.0), ctx);
    if ValueOf(x, ctx).Ok? {
      MultiplyAnyWay(ValueOf(x, ctx).value, 1.0);
      if ValueOf(y, ctx).Ok? {
        BinaryIs(Star, x, y, ctx);
        BinaryIs(Star, y, x, ctx);
        MultiplyAnyWay(ValueOf(x, ctx).value, ValueOf(y, ctx).value);
      }
    }
  }

  lemma ProductDistributes(x: Node, y: Node, z: Node, ctx: Context)
    ensures ValueOf(Binary(Star, x, Binary(Plus, y, z)), ctx)
         == ValueOf(Binary(Plus, Binary(Star, x, y), Binary(Star, x, z)), ctx)
  {
    BinaryIs(Star, x, y, ctx);
    BinaryIs(Star, x, z, ctx);
    BinaryIs(Plus, y, z, ctx);
    BinaryIs(Star, x, Binary(Plus, y, z), ctx);
    BinaryIs(Plus, Binary(Star, x, y), Binary(Star, x, z), ctx);
    BothDistribute(Eval(x, ctx), Eval(y, ctx), Eval(z, ctx));
  }

  lemma BothDistribute(x: Outcome, y: Outcome, z: Outcome)
    ensures Both(Star, x, Both(Plus, y, z)).value == Both(Plus, Both(Star, x, y), Both(Star, x, z)).value
  {
    if x.value.Ok? && y.value.Ok? && z.value.Ok? {
      var a, b, c := x.value.value, y.value.value, z.value.value;
      Distribute(a, b, c);
      BothOk(Star, x, y, a, b);
      BothOk(Star, x, z, a, c);
      BothOk(Plus, y, z, b, c);
    }
  }

  lemma QuotientLaws(x: Node, y: Node, ctx: Context)
    requires ValueOf(x, ctx).Ok? && ValueOf(y, ctx).Ok?
    ensures Eval(Call(RATIO, [x, y]), ctx) == Eval(Binary(Slash, x, y), ctx)
    ensures ValueOf(Binary(Slash, x, y), ctx).Na? <==> ValueOf(y, ctx) == Ok(0.0)
    ensures ValueOf(y, ctx) == Ok(0.0) ==> ValueOf(Binary(Slash, x, y), ctx) == Na(NaDivZero)
  {
    BinaryIs(Slash, x, y, ctx);
  }

  lemma QuotientUndone(x: Node, y: Node, ctx: Context)
    requires ValueOf(x, ctx).Ok? && ValueOf(y, ctx).Ok? && ValueOf(y, ctx) != Ok(0.0)
    ensures ValueOf(Binary(Star, Binary(Slash, x, y), y), ctx) == ValueOf(x, ctx)
    ensures ValueOf(Binary(Star, Call(RATIO, [x, y]), y), ctx) == ValueOf(x, ctx)
    ensures ValueOf(Binary(Slash, Binary(Star, x, y), y), ctx) == ValueOf(x, ctx)
  {
    var a, b := ValueOf(x, ctx).value, ValueOf(y, ctx).value;
    QuotientLaws(x, y, ctx);
    DivideThenMultiply(a, b);
    BinaryIs(Slash, x, y, ctx);
    BinaryIs(Star, x, y, ctx);
    BothOk(Slash, Eval(x, ctx), Eval(y, ctx), a, b);
    BothOk(Star, Eval(x, ctx), Eval(y, ctx), a, b);
    BinaryIs(Star, Binary(Slash, x, y), y, ctx);
    BinaryIs(Star, Call(RATIO, [x, y]), y, ctx);
    BinaryIs(Slash, Binary(Star, x, y), y, ctx);
    var q, p := ApplyBinary(Slash, a, b).value, ApplyBinary(Star, a, b).value;
    BothOk(Star, Eval(Binary(Slash, x, y), ctx), Eval(y, ctx), q, b);
    BothOk(Slash, Eval(Binary(Star, x, y), ctx), Eval(y, ctx), p, b);
  }

  /** An operand with no value gives its reason, the left one's first, and the right one is then not read. */
  lemma AbsentOperand(op: BinaryOp, x: Node, y: Node, ctx: Context)
    ensures ValueOf(x, ctx).Na? ==> Eval(Binary(op, x, y), ctx) == Eval(x, ctx)
    ensures ValueOf(x, ctx).Ok? ==>
              Eval(Binary(op, x, y), ctx).requests == Eval(x, ctx).requests + Eval(y, ctx).requests
    ensures ValueOf(x, ctx).Ok? && ValueOf(y, ctx).Na? ==> ValueOf(Binary(op, x, y), ctx) == ValueOf(y, ctx)
    ensures ValueOf(x, ctx).Ok? && ValueOf(y, ctx).Ok? && ValueOf(Binary(op, x, y), ctx).Na? ==>
              op == Slash && ValueOf(y, ctx) == Ok(0.0)
  {
  }

  lemma FiveAndTwo(ctx: Context)
    ensures ValueOf(Binary(Plus, Number(5.0), Number(2.0)), ctx) == Ok(7.0)
    ensures ValueOf(Binary(Minus, Number(5.0), Number(2.0)), ctx) == Ok(3.0)
    ensures ValueOf(Binary(Star, Number(5.0), Number(2.0)), ctx) == Ok(10.0)
    ensures ValueOf(Binary(Slash, Number(5.0), Number(2.0)), ctx) == Ok(2.5)
  {
    NumberIs(5.0, ctx);
    NumberIs(2.0, ctx);
    BinaryIs(Plus, Number(5.0), Number(2.0), ctx);
    BinaryIs(Minus, Number(5.0), Number(2.0), ctx);
  }

  // ---------------------------------------------------------------- one numerator over one denominator

  datatype Fraction = Whole(top: real, bottom: real) | Broken(reason: NaReason)

  function Given(v: Value): Fraction {
    match v
    case Ok(value) => Whole(value, 1.0)
    case Na(reason) => Broken(reason)
  }

  function Combine(op: BinaryOp, a: Fraction, b: Fraction): Fraction {
    if a.Broken? then a
    else if b.Broken? then b
    else
      match op
      case Plus => Whole(a.top * b.bottom + b.top * a.bottom, a.bottom * b.bottom)
      case Minus => Whole(a.top * b.bottom - b.top * a.bottom, a.bottom * b.bottom)
      case Star => Whole(a.top * b.top, a.bottom * b.bottom)
      case Slash =>
        if b.top == 0.0 then Broken(NaDivZero) else Whole(a.top * b.bottom, a.bottom * b.top)
  }

  function Signed(op: UnaryOp, f: Fraction): Fraction {
    if f.Whole? && op == Neg then Whole(0.0 - f.top, f.bottom) else f
  }

  /** Cross-multiplied: nothing is divided, and dividing turns the second fraction over. */
  function FractionOf(node: Node, ctx: Context): Fraction {
    match node
    case Unary(op, operand) => Signed(op, FractionOf(operand, ctx))
    case Binary(op, left, right) => Combine(op, FractionOf(left, ctx), FractionOf(right, ctx))
    case Call(name, args) =>
      if |args| == 2 && name == RATIO then Combine(Slash, FractionOf(args[0], ctx), FractionOf(args[1], ctx))
      else if |args| == 2 && name == SPREAD then Combine(Minus, FractionOf(args[0], ctx), FractionOf(args[1], ctx))
      else Given(ValueOf(node, ctx))
    case _ => Given(ValueOf(node, ctx))
  }

  /** The value is the fraction: value times denominator is the numerator. */
  ghost predicate Reads(v: Value, f: Fraction) {
    match f
    case Whole(top, bottom) => v.Ok? && bottom != 0.0 && v.value * bottom == top
    case Broken(reason) => v == Na(reason)
  }

  lemma SumOfFractions(x: real, y: real, q: real, t: real, p: real, s: real)
    requires x * q == p && y * t == s
    ensures (x + y) * (q * t) == p * t + s * q
    ensures (x - y) * (q * t) == p * t - s * q
    ensures x * y * (q * t) == p * s
  {
    assert x * (q * t) == p * t;
    assert y * (q * t) == s * q;
    assert x * y * (q * t) == (x * q) * (y * t);
  }

  lemma NonzeroProduct(a: real, b: real)
    requires a != 0.0 && b != 0.0
    ensures a * b != 0.0
  {
  }

  lemma QuotientOfFractions(x: real, y: real, q: real, t: real, p: real, s: real)
    requires x * q == p && y * t == s && t != 0.0
    ensures y == 0.0 <==> s == 0.0
    ensures y != 0.0 ==> x / y * (q * s) == p * t
  {
    if y != 0.0 {
      NonzeroProduct(y, t);
      var z := x / y;
      assert z * y == x;
      assert z * (q * s) == (z * y) * q * t;
    }
  }

  lemma CombineReads(op: BinaryOp, x: Outcome, y: Outcome, a: Fraction, b: Fraction)
    requires Reads(x.value, a) && Reads(y.value, b)
    ensures Reads(Both(op, x, y).value, Combine(op, a, b))
  {
    if a.Whole? && b.Whole? {
      SumOfFractions(x.value.value, y.value.value, a.bottom, b.bottom, a.top, b.top);
      QuotientOfFractions(x.value.value, y.value.value, a.bottom, b.bottom, a.top, b.top);
      NonzeroProduct(a.bottom, b.bottom);
      if b.top != 0.0 {
        NonzeroProduct(a.bottom, b.top);
      }
    }
  }

  lemma BinaryReads(op: BinaryOp, left: Node, right: Node, ctx: Context)
    requires Reads(ValueOf(left, ctx), FractionOf(left, ctx)) && Reads(ValueOf(right, ctx), FractionOf(right, ctx))
    ensures Reads(ValueOf(Binary(op, left, right), ctx), FractionOf(Binary(op, left, right), ctx))
  {
    CombineReads(op, Eval(left, ctx), Eval(right, ctx), FractionOf(left, ctx), FractionOf(right, ctx));
  }

  lemma CallReads(name: FunctionName, args: seq<Node>, ctx: Context)
    requires |args| == 2 && (name == RATIO || name == SPREAD)
    requires Reads(ValueOf(args[0], ctx), FractionOf(args[0], ctx))
    requires Reads(ValueOf(args[1], ctx), FractionOf(args[1], ctx))
    ensures Reads(ValueOf(Call(name, args), ctx), FractionOf(Call(name, args), ctx))
  {
    CombineReads(if name == RATIO then Slash else Minus, Eval(args[0], ctx), Eval(args[1], ctx),
                 FractionOf(args[0], ctx), FractionOf(args[1], ctx));
  }

  lemma LeafReads(node: Node, ctx: Context)
    requires FractionOf(node, ctx) == Given(ValueOf(node, ctx))
    ensures Reads(ValueOf(node, ctx), FractionOf(node, ctx))
  {
  }

  lemma SignedReads(op: UnaryOp, x: Outcome, f: Fraction)
    requires Reads(x.value, f)
    ensures Reads(ApplyUnary(op, x).value, Signed(op, f))
  {
  }

  /** Every tree's value is the one fraction of its operands, with the reason a numerator of zero was divided by. */
  lemma {:induction false} AsOneFraction(node: Node, ctx: Context)
    ensures Reads(ValueOf(node, ctx), FractionOf(node, ctx))
  {
    match node
    case Unary(op, operand) =>
      AsOneFraction(operand, ctx);
      SignedReads(op, Eval(operand, ctx), FractionOf(operand, ctx));
    case Binary(op, left, right) =>
      AsOneFraction(left, ctx);
      AsOneFraction(right, ctx);
      BinaryReads(op, left, right, ctx);
    case Call(name, args) =>
      if |args| == 2 && (name == RATIO || name == SPREAD) {
        AsOneFraction(args[0], ctx);
        AsOneFraction(args[1], ctx);
        CallReads(name, args, ctx);
      } else {
        LeafReads(node, ctx);
      }
    case _ => LeafReads(node, ctx);
  }

  // ---------------------------------------------------------------- fields and series

  /** What a series-valued node names: the row's own field, or a security's declared or last price. */
  ghost predicate Names(source: Node, security: Option<string>, field: string, ctx: Context) {
    match source
    case Field(name) => security == None && field == name
    case Security(canonical) =>
      && security == Some(canonical)
      && (ctx.declaredField == "" ==> field == "PX_LAST")
      && (ctx.declaredField != "" ==> field == ctx.declaredField)
    case _ => false
  }

  lemma FieldLaws(source: Node, security: Option<string>, field: string, ctx: Context)
    requires Names(source, security, field, ctx)
    ensures Eval(source, ctx).requests == [Read(security, field, 0)]
    ensures forall v :: ValueOf(source, ctx) == Ok(v) <==> ctx.field(security, field) == FieldValue(v)
    ensures ctx.field(security, field) == NoField ==> ValueOf(source, ctx) == Na(NaMissingField)
    ensures ctx.field(security, field) == FieldThrew ==> ValueOf(source, ctx) == Na(NaContextError)
  {
  }

  /** The points `lo`, …, `hi - 1` are all there. */
  predicate AllThere(all: seq<Point>, lo: nat, hi: nat) {
    hi <= |all| && forall k :: lo <= k < hi ==> all[k].Finite?
  }

  /** Their sum, lo the front. */
  function Total(all: seq<Point>, lo: nat, hi: nat): real
    requires lo <= hi && AllThere(all, lo, hi)
    decreases hi - lo
  {
    if lo == hi then 0.0 else all[lo].value + Total(all, lo + 1, hi)
  }

  lemma {:induction false} TotalOfLast(all: seq<Point>, lo: nat, hi: nat)
    requires lo < hi && AllThere(all, lo, hi)
    ensures Total(all, lo, hi) == Total(all, lo, hi - 1) + all[hi - 1].value
    decreases hi - lo
  {
    if lo + 1 < hi {
      TotalOfLast(all, lo + 1, hi);
    }
  }

  lemma {:induction false} SumIsTotal(all: seq<Point>, lo: nat, hi: nat)
    requires lo <= hi && AllThere(all, lo, hi)
    ensures AllFinite(all[lo..hi]) && Sum(Values(all[lo..hi])) == Total(all, lo, hi)
    decreases hi - lo
  {
    if lo < hi {
      SumIsTotal(all, lo, hi - 1);
      TotalOfLast(all, lo, hi);
      var part := all[lo..hi];
      assert part[..|part| - 1] == all[lo..hi - 1] && part[|part| - 1] == all[hi - 1];
      assert forall k :: 0 <= k < |part| ==> part[k] == all[lo + k];
      assert Values(part)[..|part| - 1] == Values(all[lo..hi - 1]);
    }
  }

  /** The call of `MA` or `NORM` on a named series, with a window of `n` points or, when 0, with none. */
  function SeriesNode(name: FunctionName, source: Node, n: nat): Node {
    Call(name, if n == 0 then [source] else [source, Number(n as real)])
  }

  lemma SeriesIs(name: FunctionName, source: Node, n: nat, security: Option<string>, field: string, ctx: Context)
    requires Names(source, security, field, ctx) && (name == NORM || (name == MA && n > 0))
    ensures Eval(SeriesNode(name, source, n), ctx)
         == Outcome(OverHistory(name, UsableHistory(ctx.series(security, field, n), n)), [Read(security, field, n)])
  {
    assert (n as real).Floor == n;
  }

  /** The first of the points used: the last `n` of them, or all when there is no window. */
  function FirstUsed(all: seq<Point>, n: nat): nat {
    if n == 0 || |all| < n then 0 else |all| - n
  }

  lemma HistoryIs(all: seq<Point>, n: nat)
    ensures var first := FirstUsed(all, n);
            var enough := |all| > 0 && |all| >= n && AllThere(all, first, |all|);
            UsableHistory(Points(all), n) ==
              if enough then Usable(Values(all[first..|all|])) else Unusable(NaInsufficientHistory)
  {
    var first := FirstUsed(all, n);
    assert LastPoints(all, n) == all[first..|all|];
    if AllFinite(all[first..|all|]) {
      assert forall k :: first <= k < |all| ==> all[k] == all[first..|all|][k - first];
    }
  }

  lemma AverageTimesWindow(all: seq<Point>, first: nat, n: nat, points: seq<real>)
    requires first < |all| && n == |all| - first && AllThere(all, first, |all|)
    requires AllFinite(all[first..|all|]) && points == Values(all[first..|all|])
    ensures var v := OverHistory(MA, Usable(points)); v.Ok? && v.value * n as real == Total(all, first, |all|)
  {
    SumIsTotal(all, first, |all|);
    MeanTimesSize(points, n);
  }

  lemma MeanTimesSize(points: seq<real>, n: nat)
    requires n == |points| > 0
    ensures var v := OverHistory(MA, Usable(points)); v.Ok? && v.value * n as real == Sum(points)
  {
    Undivided(Sum(points), n as real);
  }

  lemma RebasedTimesFirst(all: seq<Point>, first: nat)
    requires first + 2 <= |all| && AllThere(all, first, |all|) && all[first].value != 0.0
    ensures AllFinite(all[first..])
    ensures var v := OverHistory(NORM, Usable(Values(all[first..|all|])));
            v.Ok? && v.value * all[first].value == 100.0 * all[|all| - 1].value
  {
    Undivided(100.0 * all[|all| - 1].value, all[first].value);
  }

  /** A value exactly when there are `n` points and the last `n` are all numbers: times `n`, it is their sum. */
  ghost predicate IsAverage(v: Value, all: seq<Point>, n: nat) {
    if |all| >= n && AllThere(all, |all| - n, |all|)
    then v.Ok? && v.value * n as real == Total(all, |all| - n, |all|)
    else v == Na(NaInsufficientHistory)
  }

  /**
   * A value exactly when there are `n` points, two at least, those used are all numbers and the first of them is
   * not zero: times that first point, it is a hundred times the last.
   */
  ghost predicate IsRebased(v: Value, all: seq<Point>, n: nat) {
    var first := if 0 < n <= |all| then |all| - n else 0;
    if |all| < n || |all| - first < 2 || !AllThere(all, first, |all|) then v == Na(NaInsufficientHistory)
    else if all[first].value == 0.0 then v == Na(NaDivZero)
    else v.Ok? && v.value * all[first].value == 100.0 * all[|all| - 1].value
  }

  lemma AverageOver(all: seq<Point>, n: nat)
    requires n > 0
    ensures IsAverage(OverHistory(MA, UsableHistory(Points(all), n)), all, n)
  {
    HistoryIs(all, n);
    if |all| >= n && AllThere(all, |all| - n, |all|) {
      var first := |all| - n;
      SumIsTotal(all, first, |all|);
      AverageTimesWindow(all, first, n, Values(all[first..|all|]));
    }
  }

  lemma RebasedOver(all: seq<Point>, n: nat)
    ensures IsRebased(OverHistory(NORM, UsableHistory(Points(all), n)), all, n)
  {
    HistoryIs(all, n);
    var first := if 0 < n <= |all| then |all| - n else 0;
    if |all| >= n && |all| - first >= 2 && AllThere(all, first, |all|) && all[first].value != 0.0 {
      RebasedTimesFirst(all, first);
    }
  }

  /** `MA` over the points the context answers, and `NORM` over them with a window or without one. */
  lemma SeriesLaws(source: Node, n: nat, security: Option<string>, field: string, all: seq<Point>, ctx: Context)
    requires Names(source, security, field, ctx) && ctx.series(security, field, n) == Points(all)
    ensures n > 0 ==> IsAverage(ValueOf(SeriesNode(MA, source, n), ctx), all, n)
    ensures IsRebased(ValueOf(SeriesNode(NORM, source, n), ctx), all, n)
  {
    if n > 0 {
      SeriesIs(MA, source, n, security, field, ctx);
      AverageOver(all, n);
    }
    SeriesIs(NORM, source, n, security, field, ctx);
    RebasedOver(all, n);
  }

  /** No series, or an accessor that throws. */
  lemma AbsentSeries(name: FunctionName, source: Node, n: nat, security: Option<string>, field: string, ctx: Context)
    requires Names(source, security, field, ctx) && (name == NORM || (name == MA && n > 0))
    ensures ctx.series(security, field, n) == NoSeries
        ==> ValueOf(SeriesNode(name, source, n), ctx) == Na(NaMissingSeries)
    ensures ctx.series(security, field, n) == SeriesThrew
        ==> ValueOf(SeriesNode(name, source, n), ctx) == Na(NaContextError)
    ensures Eval(SeriesNode(name, source, n), ctx).requests == [Read(security, field, n)]
  {
    SeriesIs(name, source, n, security, field, ctx);
  }

  /** A window is a literal whole number of at least one; anything else is refused before the series is asked for. */
  lemma BadWindows(name: FunctionName, source: Node, window: Node, ctx: Context)
    requires name == MA || name == NORM
    requires IsSeriesNode(source)
    ensures (exists n: nat :: n > 0 && IsWindow(window, n))
         || Eval(Call(name, [source, window]), ctx) == Outcome(Na(NaBadWindow), [])
  {
    if window.Number? && window.value.Floor as real == window.value && window.value >= 1.0 {
      var n: nat := window.value.Floor;
      assert n > 0 && IsWindow(window, n);
    }
  }

  ghost predicate IsWindow(window: Node, n: nat) {
    window == Number(n as real)
  }

  /** Calls with too few or too many arguments, over what names no series, and holes. */
  lemma BadShapes(name: FunctionName, args: seq<Node>, ctx: Context)
    ensures Eval(ErrorNode, ctx) == Outcome(Na(NaBadFormula), [])
    ensures |args| != 2 && !(name == NORM && |args| == 1)
        ==> Eval(Call(name, args), ctx) == Outcome(Na(NaBadFormula), [])
    ensures (name == MA || name == NORM) && |args| > 0 && !args[0].Field? && !args[0].Security?
        ==> Eval(Call(name, args), ctx) == Outcome(Na(NaBadFormula), [])
  {
  }

  // ---------------------------------------------------------------- the depth cap

  function Signs(count: nat, operand: Node): Node {
    if count == 0 then operand else Unary(Neg, Signs(count - 1, operand))
  }

  /** A number under `count` signs is too deep exactly from 256 signs on. */
  lemma {:induction false} SignsWithin(count: nat, value: real, ctx: Context, b: nat)
    ensures EvalWithin(Signs(count, Number(value)), ctx, b).value == Na(NaTooDeep) <==> count >= b
  {
    if count > 0 && b > 0 {
      SignsWithin(count - 1, value, ctx, b - 1);
    }
  }

  lemma CapIs256(count: nat, value: real, ctx: Context)
    ensures EvalWithin(Signs(count, Number(value)), ctx, MAX_EVAL_DEPTH).value == Na(NaTooDeep) <==> count >= 256
  {
    SignsWithin(count, value, ctx, MAX_EVAL_DEPTH);
  }
}
