/**
 * What an evaluation read: the record the evaluator keeps, and the class that keeps it.
 *
 * The record is a map from a text key to the largest window asked for, in first-seen order; here it is
 * the sequence of its entries. The key joins the security and the field with a bar.
 */
module FormulaReads {
  import opened Util
  import opened FormulaAst
  import opened FormulaEvaluator

  function KeyOf(security: Option<string>, field: string): string {
    (if security.Some? then security.value else "") + "|" + field
  }

  function ReadKey(r: Read): string {
    KeyOf(r.security, r.field)
  }

  /** Where a key is recorded; the length of the record when it is not. */
  function FindKey(log: seq<Read>, key: string): (i: nat)
    ensures i <= |log|
    ensures i < |log| ==> ReadKey(log[i]) == key
    ensures forall k :: 0 <= k < i ==> ReadKey(log[k]) != key
  {
    if log == [] then 0
    else if ReadKey(log[0]) == key then 0
    else
      var i := FindKey(log[1..], key);
      assert forall k :: 0 < k <= i ==> log[k] == log[1..][k - 1] || k == |log|;
      i + 1
  }

  /** A new key is appended; a known one keeps its first spelling and its largest window. */
  function Record(log: seq<Read>, r: Read): seq<Read> {
    var i := FindKey(log, ReadKey(r));
    if i == |log| then log + [r]
    else if r.window > log[i].window then log[i := log[i].(window := r.window)]
    else log
  }

  function RecordAll(requests: seq<Read>): seq<Read> {
    if requests == [] then [] else Record(RecordAll(requests[..|requests| - 1]), requests[|requests| - 1])
  }

  lemma RecordNext(requests: seq<Read>, r: Read)
    ensures RecordAll(requests + [r]) == Record(RecordAll(requests), r)
  {
    assert (requests + [r])[..|requests|] == requests;
  }

  class Evaluator {
    const ctx: Context
    var log: seq<Read>
    var depth: nat
    ghost var requested: seq<Read>

    constructor (ctx: Context)
      ensures this.ctx == ctx && log == [] && depth == 0 && requested == []
      ensures Valid()
    {
      this.ctx := ctx;
      log, depth, requested := [], 0, [];
    }

    ghost predicate Valid()
      reads this
    {
      depth <= MAX_EVAL_DEPTH && log == RecordAll(requested)
    }

    method RecordRead(security: Option<string>, field: string, window: nat)
      requires Valid()
      modifies this`log, this`requested
      ensures Valid() && requested == old(requested) + [Read(security, field, window)]
    {
      var key := KeyOf(security, field);
      var i := 0;
      while i < |log| && ReadKey(log[i]) != key
        invariant i <= |log| && forall k :: 0 <= k < i ==> ReadKey(log[k]) != key
      {
        i := i + 1;
      }
      RecordNext(requested, Read(security, field, window));
      if i == |log| {
        log := log + [Read(security, field, window)];
      } else if window > log[i].window {
        log := log[i := log[i].(window := window)];
      }
      requested := requested + [Read(security, field, window)];
    }

    method ReadFieldValue(security: Option<string>, field: string) returns (value: Value)
      requires Valid()
      modifies this`log, this`requested
      ensures Valid()
      ensures Outcome(value, requested) == Outcome(ReadField(security, field, ctx).value,
                                                   old(requested) + ReadField(security, field, ctx).requests)
    {
      RecordRead(security, field, 0);
      match ctx.field(security, field)
      case FieldThrew => value := Na(NaContextError);
      case NoField => value := Na(NaMissingField);
      case FieldValue(v) => value := Ok(v);
    }

    method ReadSeries(security: Option<string>, field: string, window: nat) returns (history: History)
      requires Valid()
      modifies this`log, this`requested
      ensures Valid() && requested == old(requested) + [Read(security, field, window)]
      ensures history == UsableHistory(ctx.series(security, field, window), window)
    {
      RecordRead(security, field, window);
      var raw := ctx.series(security, field, window);
      match raw {
        case SeriesThrew => return Unusable(NaContextError);
        case NoSeries => return Unusable(NaMissingSeries);
        case Points(_) =>
      }
      var used := LastPoints(raw.points, window);
      if |used| == 0 || (window > 0 && |used| < window) {
        return Unusable(NaInsufficientHistory);
      }
      for i := 0 to |used|
        invariant forall k :: 0 <= k < i ==> used[k].Finite?
      {
        if used[i].NotFinite? {
          return Unusable(NaInsufficientHistory);
        }
      }
      history := Usable(Values(used));
    }

    method EvaluateSeries(name: FunctionName, args: seq<Node>) returns (value: Value)
      requires Valid() && (name == MA || name == NORM)
      modifies this`log, this`requested
      ensures Valid()
      ensures value == SeriesCall(name, args, ctx).value
      ensures requested == old(requested) + SeriesCall(name, args, ctx).requests
    {
      if args == [] || !IsSeriesNode(args[0]) {
        return Na(NaBadFormula);
      }
      var window := WindowOf(name, args);
      if window == None {
        return Na(NaBadWindow);
      }
      var (security, field) := Target(args[0], ctx);
      var history := ReadSeries(security, field, window.value);
      if history.Unusable? {
        return Na(history.reason);
      }
      value := OverPoints(name, history.points);
    }

    /** The value within the depth left, every request recorded in the order it was made. */
    method Evaluate(node: Node) returns (value: Value)
      requires Valid()
      modifies this
      ensures Valid() && depth == old(depth)
      ensures value == EvalWithin(node, ctx, MAX_EVAL_DEPTH - old(depth)).value
      ensures requested == old(requested) + EvalWithin(node, ctx, MAX_EVAL_DEPTH - old(depth)).requests
      decreases node, 1
    {
      if depth + 1 > MAX_EVAL_DEPTH {
        return Na(NaTooDeep);
      }
      depth := depth + 1;
      value := Dispatch(node);
      depth := depth - 1;
    }

    method Dispatch(node: Node) returns (value: Value)
      requires Valid() && depth > 0
      modifies this
      ensures Valid() && depth == old(depth)
      ensures value == EvalWithin(node, ctx, MAX_EVAL_DEPTH - old(depth) + 1).value
      ensures requested == old(requested) + EvalWithin(node, ctx, MAX_EVAL_DEPTH - old(depth) + 1).requests
      decreases node, 0
    {
      match node
      case Number(v) => value := Ok(v);
      case Field(field) => value := ReadFieldValue(None, field);
      case Security(canonical) => value := ReadFieldValue(Some(canonical), DefaultField(ctx));
      case Unary(op, operand) =>
        var inner := Evaluate(operand);
        if inner.Na? { return inner; }
        value := Ok(if op == Neg then -inner.value else inner.value);
      case Binary(op, left, right) =>
        value := EvaluateBoth(op, left, right, node);
      case Call(name, args) =>
        if |args| < SpecOf(name).minArgs || |args| > SpecOf(name).maxArgs {
          return Na(NaBadFormula);
        }
        if name == RATIO || name == SPREAD {
          value := EvaluateBoth(if name == RATIO then Slash else Minus, args[0], args[1], node);
        } else {
          value := EvaluateSeries(name, args);
        }
      case ErrorNode => value := Na(NaBadFormula);
    }

    method EvaluateBoth(op: BinaryOp, left: Node, right: Node, ghost parent: Node) returns (value: Value)
      requires Valid() && left < parent && right < parent
      modifies this
      ensures Valid() && depth == old(depth)
      ensures value == Both(op, EvalWithin(left, ctx, MAX_EVAL_DEPTH - old(depth)),
                            EvalWithin(right, ctx, MAX_EVAL_DEPTH - old(depth))).value
      ensures requested == old(requested) + Both(op, EvalWithin(left, ctx, MAX_EVAL_DEPTH - old(depth)),
                                                 EvalWithin(right, ctx, MAX_EVAL_DEPTH - old(depth))).requests
      decreases parent, 0, 0
    {
      ghost var x := EvalWithin(left, ctx, MAX_EVAL_DEPTH - depth);
      ghost var y := EvalWithin(right, ctx, MAX_EVAL_DEPTH - depth);
      var a := Evaluate(left);
      if a.Na? { return a; }
      var b := Evaluate(right);
      BothSecond(op, x, y, a.value);
      ReadsConcat(old(requested), x.requests, y.requests);
      if b.Na? { return b; }
      BothOk(op, x, y, a.value, b.value);
      value := ApplyBinary(op, a.value, b.value);
    }
  }

  lemma ReadsConcat(a: seq<Read>, b: seq<Read>, c: seq<Read>)
    ensures a + b + c == a + (b + c)
  {
  }

  lemma BothSecond(op: BinaryOp, a: Outcome, b: Outcome, x: real)
    requires a.value == Ok(x)
    ensures Both(op, a, b).requests == a.requests + b.requests
    ensures b.value.Na? ==> Both(op, a, b).value == b.value
  {
  }

  /** The arithmetic of `MA` and `NORM` over a usable history. */
  method OverPoints(name: FunctionName, points: seq<real>) returns (value: Value)
    requires points != []
    ensures value == OverHistory(name, Usable(points))
  {
    if name == MA {
      var total := 0.0;
      for i := 0 to |points|
        invariant total == Sum(points[..i])
      {
        assert points[..i + 1][..i] == points[..i];
        total := total + points[i];
      }
      assert points[..|points|] == points;
      return Ok(total / |points| as real);
    }
    if |points| < 2 {
      return Na(NaInsufficientHistory);
    }
    var base, last := points[0], points[|points| - 1];
    if base == 0.0 {
      return Na(NaDivZero);
    }
    value := Ok(100.0 * last / base);
  }

  /** `evaluateFormulaNode`: the value, and the inputs it rests on. */
  method EvaluateFormulaNode(node: Node, ctx: Context) returns (value: Value, inputs: seq<Read>)
    ensures value == EvalWithin(node, ctx, MAX_EVAL_DEPTH).value
    ensures inputs == RecordAll(EvalWithin(node, ctx, MAX_EVAL_DEPTH).requests)
  {
    var evaluator := new Evaluator(ctx);
    value := evaluator.Evaluate(node);
    inputs := evaluator.log;
    assert evaluator.requested == EvalWithin(node, ctx, MAX_EVAL_DEPTH).requests;
  }
}
