/** The recorded inputs are the whole provenance of a value, and agree with what the text names. */
module FormulaProvenance {
  import opened Util
  import opened FormulaAst
  import opened FormulaWalk
  import opened FormulaEvaluator
  import opened FormulaReads

  // ---------------------------------------------------------------- what the record keeps

  /** Two requests that share a key ask for the same thing. */
  predicate KeysFaithful(requests: seq<Read>) {
    forall i, j :: 0 <= i < |requests| && 0 <= j < |requests| && ReadKey(requests[i]) == ReadKey(requests[j])
                   ==> requests[i].security == requests[j].security && requests[i].field == requests[j].field
  }

  /** Some entry names the same input with at least this window. */
  predicate Covered(r: Read, log: seq<Read>) {
    exists k :: 0 <= k < |log| && log[k].security == r.security && log[k].field == r.field && r.window <= log[k].window
  }

  predicate DistinctKeys(log: seq<Read>) {
    forall i, j :: 0 <= i < j < |log| ==> ReadKey(log[i]) != ReadKey(log[j])
  }

  lemma {:induction false} RecordKeysDistinct(requests: seq<Read>)
    ensures DistinctKeys(RecordAll(requests))
  {
    if requests != [] {
      RecordKeysDistinct(requests[..|requests| - 1]);
    }
  }

  /** Every entry stands for some request, whole. */
  lemma {:induction false} RecordedWasRequested(requests: seq<Read>)
    ensures forall r :: r in RecordAll(requests) ==>
              exists q :: q in requests && q.security == r.security && q.field == r.field
    ensures forall r :: r in RecordAll(requests) ==>
              exists q :: q in requests && ReadKey(q) == ReadKey(r) && q.window == r.window
  {
    if requests != [] {
      var front, last := requests[..|requests| - 1], requests[|requests| - 1];
      RecordedWasRequested(front);
      assert requests == front + [last];
      var log := RecordAll(front);
      forall r | r in RecordAll(requests)
        ensures exists q :: q in requests && q.security == r.security && q.field == r.field
        ensures exists q :: q in requests && ReadKey(q) == ReadKey(r) && q.window == r.window
      {
        var i := FindKey(log, ReadKey(last));
        if r in log {
          var p :| p in front && p.security == r.security && p.field == r.field;
          assert p in requests;
          var q :| q in front && ReadKey(q) == ReadKey(r) && q.window == r.window;
          assert q in requests;
        } else if i == |log| {
          assert r == last;
        } else {
          assert r == log[i].(window := last.window);
          assert log[i] in log;
          var p :| p in front && p.security == log[i].security && p.field == log[i].field;
          assert p in requests;
          assert last in requests;
        }
      }
    }
  }

  predicate KeyCovered(q: Read, log: seq<Read>) {
    exists k :: 0 <= k < |log| && ReadKey(log[k]) == ReadKey(q) && q.window <= log[k].window
  }

  /** Every request's key is recorded, with a window at least as large. */
  lemma {:induction false} RequestedIsRecorded(requests: seq<Read>)
    ensures forall q :: q in requests ==> KeyCovered(q, RecordAll(requests))
  {
    if requests != [] {
      var front, last := requests[..|requests| - 1], requests[|requests| - 1];
      RequestedIsRecorded(front);
      assert requests == front + [last];
      var log, next := RecordAll(front), RecordAll(requests);
      var i := FindKey(log, ReadKey(last));
      assert forall k :: 0 <= k < |log| ==> ReadKey(next[k]) == ReadKey(log[k]) && log[k].window <= next[k].window;
      assert ReadKey(next[i]) == ReadKey(last) && last.window <= next[i].window;
      forall q | q in requests
        ensures KeyCovered(q, next)
      {
        if q in front {
          var k :| 0 <= k < |log| && ReadKey(log[k]) == ReadKey(q) && q.window <= log[k].window;
          assert ReadKey(next[k]) == ReadKey(q) && q.window <= next[k].window;
        }
      }
    }
  }

  /** The record loses nothing exactly when no two different inputs share a key. */
  lemma RecordLosesNothing(requests: seq<Read>)
    ensures (forall q :: q in requests ==> Covered(q, RecordAll(requests))) <==> KeysFaithful(requests)
  {
    if KeysFaithful(requests) {
      FaithfulIsCovered(requests);
    }
    if forall q :: q in requests ==> Covered(q, RecordAll(requests)) {
      CoveredIsFaithful(requests);
    }
  }

  lemma FaithfulIsCovered(requests: seq<Read>)
    requires KeysFaithful(requests)
    ensures forall q :: q in requests ==> Covered(q, RecordAll(requests))
  {
    var log := RecordAll(requests);
    RequestedIsRecorded(requests);
    RecordedWasRequested(requests);
    forall q | q in requests
      ensures Covered(q, log)
    {
      assert KeyCovered(q, log);
      var k :| 0 <= k < |log| && ReadKey(log[k]) == ReadKey(q) && q.window <= log[k].window;
      assert log[k] in log;
      var p :| p in requests && p.security == log[k].security && p.field == log[k].field;
      assert ReadKey(p) == ReadKey(q);
    }
  }

  lemma CoveredIsFaithful(requests: seq<Read>)
    requires forall q :: q in requests ==> Covered(q, RecordAll(requests))
    ensures KeysFaithful(requests)
  {
    var log := RecordAll(requests);
    RecordKeysDistinct(requests);
    forall i, j | 0 <= i < |requests| && 0 <= j < |requests| && ReadKey(requests[i]) == ReadKey(requests[j])
      ensures requests[i].security == requests[j].security && requests[i].field == requests[j].field
    {
      var p, q := requests[i], requests[j];
      assert Covered(p, log) && Covered(q, log);
      var k :| 0 <= k < |log| && log[k].security == p.security && log[k].field == p.field && p.window <= log[k].window;
      var m :| 0 <= m < |log| && log[m].security == q.security && log[m].field == q.field && q.window <= log[m].window;
      assert ReadKey(log[k]) == ReadKey(p) && ReadKey(log[m]) == ReadKey(q);
    }
  }

  // ---------------------------------------------------------------- keys of well-formed trees

  /** Field names carry no bar and securities are not empty: true of everything the scanner produces. */
  predicate WellKeyed(node: Node) {
    match node
    case Field(field) => '|' !in field
    case Security(canonical) => canonical != ""
    case Unary(_, operand) => WellKeyed(operand)
    case Binary(_, left, right) => WellKeyed(left) && WellKeyed(right)
    case Call(_, args) => forall i :: 0 <= i < |args| ==> WellKeyed(args[i])
    case _ => true
  }

  predicate WellKeyedRead(r: Read, defaultField: string) {
    match r.security
    case None => '|' !in r.field
    case Some(canonical) => canonical != "" && r.field == defaultField
  }

  lemma {:induction false} RequestsAreWellKeyed(node: Node, ctx: Context)
    requires WellKeyed(node)
    ensures forall q :: q in Eval(node, ctx).requests ==> WellKeyedRead(q, DefaultField(ctx))
  {
    match node
    case Unary(_, operand) => RequestsAreWellKeyed(operand, ctx);
    case Binary(_, left, right) => RequestsAreWellKeyed(left, ctx); RequestsAreWellKeyed(right, ctx);
    case Call(name, args) =>
      if GoodArity(name, args) {
        if name == RATIO || name == SPREAD {
          RequestsAreWellKeyed(args[0], ctx);
          RequestsAreWellKeyed(args[1], ctx);
        } else if IsSeriesNode(args[0]) {
          assert WellKeyed(args[0]);
        }
      }
    case _ =>
  }

  lemma WellKeyedReadsDiffer(p: Read, q: Read, d: string)
    requires WellKeyedRead(p, d) && WellKeyedRead(q, d) && ReadKey(p) == ReadKey(q)
    ensures p.security == q.security && p.field == q.field
  {
    if p.security.Some? && q.security.Some? {
      JoinInjective(p.security.value, q.security.value, "|" + d);
      assert ReadKey(p) == p.security.value + ("|" + d) && ReadKey(q) == q.security.value + ("|" + d);
    } else if p.security.None? && q.security.None? {
      assert p.field == ReadKey(p)[1..] && q.field == ReadKey(q)[1..];
    } else if p.security.Some? {
      ClashNeedsBar(q.field, p.security.value, d);
    } else {
      ClashNeedsBar(p.field, q.security.value, d);
    }
  }

  lemma JoinInjective(a: string, b: string, tail: string)
    ensures a + tail == b + tail ==> a == b
  {
    if a + tail == b + tail {
      assert |a| == |b|;
      assert a == (a + tail)[..|a|] == b;
    }
  }

  lemma ClashNeedsBar(field: string, security: string, d: string)
    requires security != ""
    ensures KeyOf(None, field) == KeyOf(Some(security), d) ==> '|' in field
  {
    var left, right := KeyOf(None, field), KeyOf(Some(security), d);
    if left == right {
      assert right[|security|] == '|';
      assert left[|security|] == field[|security| - 1];
    }
  }

  lemma WellKeyedIsFaithful(node: Node, ctx: Context)
    requires WellKeyed(node)
    ensures KeysFaithful(Eval(node, ctx).requests)
  {
    RequestsAreWellKeyed(node, ctx);
    var requests := Eval(node, ctx).requests;
    forall i, j | 0 <= i < |requests| && 0 <= j < |requests| && ReadKey(requests[i]) == ReadKey(requests[j])
      ensures requests[i].security == requests[j].security && requests[i].field == requests[j].field
    {
      WellKeyedReadsDiffer(requests[i], requests[j], DefaultField(ctx));
    }
  }

  // ---------------------------------------------------------------- what exactly is asked

  /** One question to the context: a current value, or the history over a window, 0 being all of it. */
  datatype Ask = Ask(security: Option<string>, field: string, history: Option<nat>)

  function AskLeft(op: BinaryOp, left: Outcome, a: seq<Ask>, b: seq<Ask>): seq<Ask> {
    if left.value.Ok? then a + b else a
  }

  /** The questions of an evaluation, in order. */
  function Asks(node: Node, ctx: Context): seq<Ask> {
    match node
    case Field(field) => [Ask(None, field, None)]
    case Security(canonical) => [Ask(Some(canonical), DefaultField(ctx), None)]
    case Unary(_, operand) => Asks(operand, ctx)
    case Binary(op, left, right) => AskLeft(op, Eval(left, ctx), Asks(left, ctx), Asks(right, ctx))
    case Call(name, args) =>
      if !GoodArity(name, args) then []
      else if name == RATIO then AskLeft(Slash, Eval(args[0], ctx), Asks(args[0], ctx), Asks(args[1], ctx))
      else if name == SPREAD then AskLeft(Minus, Eval(args[0], ctx), Asks(args[0], ctx), Asks(args[1], ctx))
      else SeriesAsks(name, args, ctx)
    case _ => []
  }

  function SeriesAsks(name: FunctionName, args: seq<Node>, ctx: Context): seq<Ask> {
    if args == [] || !IsSeriesNode(args[0]) || WindowOf(name, args).None? then []
    else
      var (security, field) := Target(args[0], ctx);
      [Ask(security, field, WindowOf(name, args))]
  }

  /** What the record makes of a question: a current value and a whole history are both window 0. */
  function AsRead(a: Ask): Read {
    Read(a.security, a.field, if a.history.Some? then a.history.value else 0)
  }

  function AsReads(asks: seq<Ask>): (r: seq<Read>)
    ensures |r| == |asks| && forall i :: 0 <= i < |asks| ==> r[i] == AsRead(asks[i])
  {
    seq(|asks|, i requires 0 <= i < |asks| => AsRead(asks[i]))
  }

  /** The requests that are recorded are the questions asked. */
  lemma {:induction false} RequestsAreAsks(node: Node, ctx: Context)
    ensures Eval(node, ctx).requests == AsReads(Asks(node, ctx))
  {
    match node
    case Unary(_, operand) => RequestsAreAsks(operand, ctx);
    case Binary(_, left, right) => RequestsAreAsks(left, ctx); RequestsAreAsks(right, ctx);
    case Call(name, args) =>
      if GoodArity(name, args) && (name == RATIO || name == SPREAD) {
        RequestsAreAsks(args[0], ctx);
        RequestsAreAsks(args[1], ctx);
      }
    case _ =>
  }

  // ---------------------------------------------------------------- provenance is complete

  function Worth(c: Context, security: Option<string>, field: string): Value {
    ReadField(security, field, c).value
  }

  function HistoryOver(c: Context, security: Option<string>, field: string, window: nat): History {
    UsableHistory(c.series(security, field, window), window)
  }

  /** The two contexts answer one question alike. */
  ghost predicate Alike(c: Context, d: Context, a: Ask) {
    if a.history.None? then Worth(c, a.security, a.field) == Worth(d, a.security, a.field)
    else HistoryOver(c, a.security, a.field, a.history.value) == HistoryOver(d, a.security, a.field, a.history.value)
  }

  /** They agree about the value of a recorded input and its usable history over every window up to the recorded one. */
  ghost predicate AgreeWithin(c: Context, d: Context, r: Read) {
    && Worth(c, r.security, r.field) == Worth(d, r.security, r.field)
    && forall w: nat :: 1 <= w <= r.window ==> HistoryOver(c, r.security, r.field, w) == HistoryOver(d, r.security,
        r.field, w)
  }

  /** The same, and about the whole history where no window was recorded. */
  ghost predicate AgreeOn(c: Context, d: Context, r: Read) {
    && AgreeWithin(c, d, r)
    && (r.window == 0 ==> HistoryOver(c, r.security, r.field, 0) == HistoryOver(d, r.security, r.field, 0))
  }

  /** They agree about everything a log records, and mean the same field by a bare security. */
  ghost predicate AgreeOnLog(c: Context, d: Context, log: seq<Read>) {
    DefaultField(c) == DefaultField(d) && forall r :: r in log ==> AgreeOn(c, d, r)
  }

  /** They agree about the log, reading window 0 as a current value only. */
  ghost predicate AgreeOnValues(c: Context, d: Context, log: seq<Read>) {
    DefaultField(c) == DefaultField(d) && forall r :: r in log ==> AgreeWithin(c, d, r)
  }

  /** Some input is asked for with its whole history and with a window too. */
  predicate MixesWindows(asks: seq<Ask>) {
    exists i, j :: 0 <= i < |asks| && 0 <= j < |asks| && Mixed(asks[i], asks[j])
  }

  predicate Mixed(a: Ask, b: Ask) {
    && a.security == b.security && a.field == b.field
    && a.history == Some(0) && b.history.Some? && b.history.value > 0
  }

  lemma {:induction false} AsksDetermine(node: Node, c: Context, d: Context)
    requires DefaultField(c) == DefaultField(d)
    requires forall a :: a in Asks(node, c) ==> Alike(c, d, a)
    ensures Eval(node, d) == Eval(node, c)
    decreases node, 1
  {
    match node
    case Field(field) => assert Alike(c, d, Asks(node, c)[0]);
    case Security(canonical) => assert Alike(c, d, Asks(node, c)[0]);
    case Unary(_, operand) => AsksDetermine(operand, c, d);
    case Binary(op, left, right) => BothDetermined(op, left, right, node, c, d);
    case Call(name, args) =>
      if GoodArity(name, args) {
        if name == RATIO {
          BothDetermined(Slash, args[0], args[1], node, c, d);
        } else if name == SPREAD {
          BothDetermined(Minus, args[0], args[1], node, c, d);
        } else if SeriesAsks(name, args, c) != [] {
          assert Alike(c, d, Asks(node, c)[0]);
        }
      }
    case _ =>
  }

  lemma {:induction false} BothDetermined(op: BinaryOp, left: Node, right: Node, parent: Node, c: Context, d: Context)
    requires DefaultField(c) == DefaultField(d) && left < parent && right < parent
    requires forall a :: a in AskLeft(op, Eval(left, c), Asks(left, c), Asks(right, c)) ==> Alike(c, d, a)
    ensures Both(op, Eval(left, d), Eval(right, d)) == Both(op, Eval(left, c), Eval(right, c))
    decreases parent, 0
  {
    AsksDetermine(left, c, d);
    if Eval(left, c).value.Ok? {
      AsksDetermine(right, c, d);
    }
  }

  /** The inputs an evaluation reports. */
  function Inputs(node: Node, ctx: Context): seq<Read> {
    RecordAll(Eval(node, ctx).requests)
  }

  /** An input asked for with its whole history and recorded with a window mixes the two. */
  lemma WindowOverWhole(node: Node, c: Context, a: Ask, r: Read)
    requires WellKeyed(node) && a in Asks(node, c) && a.history == Some(0)
    requires r in Inputs(node, c) && r.security == a.security && r.field == a.field && r.window > 0
    ensures MixesWindows(Asks(node, c))
  {
    var b := AskedWith(node, c, r);
    var i :| 0 <= i < |Asks(node, c)| && Asks(node, c)[i] == a;
    var j :| 0 <= j < |Asks(node, c)| && Asks(node, c)[j] == b;
    assert Mixed(Asks(node, c)[i], Asks(node, c)[j]);
  }

  /** Agreement on the log is agreement on every question but the whole history of an input that mixes windows. */
  lemma LogAnswersAsks(node: Node, c: Context, d: Context, a: Ask)
    requires WellKeyed(node) && AgreeOnLog(c, d, Inputs(node, c)) && a in Asks(node, c)
    ensures Alike(c, d, a) || MixesWindows(Asks(node, c))
  {
    var r := LoggedFor(node, c, a);
    assert AgreeOn(c, d, r);
    if a.history == Some(0) && r.window > 0 {
      WindowOverWhole(node, c, a, r);
    }
  }

  /** The entry of the log that stands for a question. */
  lemma LoggedFor(node: Node, c: Context, a: Ask) returns (r: Read)
    requires WellKeyed(node) && a in Asks(node, c)
    ensures r in Inputs(node, c) && r.security == a.security && r.field == a.field && AsRead(a).window <= r.window
  {
    var requests := Eval(node, c).requests;
    RequestsAreAsks(node, c);
    var i :| 0 <= i < |Asks(node, c)| && Asks(node, c)[i] == a;
    assert requests[i] == AsRead(a);
    WellKeyedIsFaithful(node, c);
    RecordLosesNothing(requests);
    assert requests[i] in requests;
    assert Covered(AsRead(a), RecordAll(requests));
    var k :| 0 <= k < |Inputs(node, c)| && Inputs(node, c)[k].security == a.security
             && Inputs(node, c)[k].field == a.field && AsRead(a).window <= Inputs(node, c)[k].window;
    r := Inputs(node, c)[k];
  }

  /** The question that gave an entry its window. */
  lemma AskedWith(node: Node, c: Context, r: Read) returns (b: Ask)
    requires WellKeyed(node) && r in Inputs(node, c) && r.window > 0
    ensures b in Asks(node, c) && b.security == r.security && b.field == r.field && b.history == Some(r.window)
  {
    var requests := Eval(node, c).requests;
    RecordedWasRequested(requests);
    RequestsAreAsks(node, c);
    WellKeyedIsFaithful(node, c);
    var q :| q in requests && ReadKey(q) == ReadKey(r) && q.window == r.window;
    var p :| p in requests && p.security == r.security && p.field == r.field;
    assert ReadKey(p) == ReadKey(q);
    var i :| 0 <= i < |requests| && requests[i] == q;
    var j :| 0 <= j < |requests| && requests[j] == p;
    b := Asks(node, c)[i];
  }

  /**
   * Provenance is complete where no input mixes windows: a context that agrees on the log gives the identical
   * evaluation and the identical inputs.
   */
  lemma ProvenanceIsComplete(node: Node, c: Context, d: Context)
    requires WellKeyed(node) && !MixesWindows(Asks(node, c)) && AgreeOnLog(c, d, Inputs(node, c))
    ensures Eval(node, d) == Eval(node, c) && Inputs(node, d) == Inputs(node, c)
  {
    forall a | a in Asks(node, c)
      ensures Alike(c, d, a)
    {
      LogAnswersAsks(node, c, d, a);
    }
    AsksDetermine(node, c, d);
  }

  // ---------------------------------------------------------------- and only there

  /** The context that answers one whole history otherwise. */
  function Answering(c: Context, security: Option<string>, field: string, answer: SeriesAnswer): Context {
    c.(series := (s: Option<string>, f: string, w: nat) =>
         if s == security && f == field && w == 0 then answer else c.series(s, f, w))
  }

  /** A history that has no use, and why. */
  function Refusal(answer: SeriesAnswer): NaReason {
    if answer.SeriesThrew? then NaContextError else NaMissingSeries
  }

  lemma AnsweringElsewhere(c: Context, security: Option<string>, field: string, answer: SeriesAnswer, a: Ask)
    requires a != Ask(security, field, Some(0))
    ensures Alike(c, Answering(c, security, field, answer), a)
  {
  }

  /** Once the whole history of an input is refused, the evaluation stops there with the refusal. */
  lemma {:induction false} RefusedHistoryEnds(node: Node, c: Context, security: Option<string>, field: string,
                                              answer: SeriesAnswer)
    requires Ask(security, field, Some(0)) in Asks(node, c) && !answer.Points?
    ensures Eval(node, Answering(c, security, field, answer)).value == Na(Refusal(answer))
    decreases node, 1
  {
    match node
    case Unary(_, operand) => RefusedHistoryEnds(operand, c, security, field, answer);
    case Binary(op, left, right) => RefusedInBoth(op, left, right, node, c, security, field, answer);
    case Call(name, args) =>
      if name == RATIO {
        RefusedInBoth(Slash, args[0], args[1], node, c, security, field, answer);
      } else if name == SPREAD {
        RefusedInBoth(Minus, args[0], args[1], node, c, security, field, answer);
      }
    case _ =>
  }

  lemma {:induction false} RefusedInBoth(op: BinaryOp, left: Node, right: Node, parent: Node, c: Context,
                                         security: Option<string>, field: string, answer: SeriesAnswer)
    requires left < parent && right < parent && !answer.Points?
    requires Ask(security, field, Some(0)) in AskLeft(op, Eval(left, c), Asks(left, c), Asks(right, c))
    ensures var d := Answering(c, security, field, answer);
            Both(op, Eval(left, d), Eval(right, d)).value == Na(Refusal(answer))
    decreases parent, 0
  {
    var d := Answering(c, security, field, answer);
    if Ask(security, field, Some(0)) in Asks(left, c) {
      RefusedHistoryEnds(left, c, security, field, answer);
    } else {
      forall a | a in Asks(left, c)
        ensures Alike(c, d, a)
      {
        AnsweringElsewhere(c, security, field, answer, a);
      }
      AsksDetermine(left, c, d);
      RefusedHistoryEnds(right, c, security, field, answer);
    }
  }

  /** An input that mixes windows is recorded with its window only: another whole history agrees with the log. */
  lemma MixedIsHidden(node: Node, c: Context, a: Ask, b: Ask, answer: SeriesAnswer)
    requires WellKeyed(node) && a in Asks(node, c) && b in Asks(node, c) && Mixed(a, b)
    ensures AgreeOnLog(c, Answering(c, a.security, a.field, answer), Inputs(node, c))
  {
    var d := Answering(c, a.security, a.field, answer);
    var e := LoggedFor(node, c, b);
    RecordKeysDistinct(Eval(node, c).requests);
    forall r | r in Inputs(node, c)
      ensures AgreeOn(c, d, r)
    {
      if r.security == a.security && r.field == a.field {
        var i :| 0 <= i < |Inputs(node, c)| && Inputs(node, c)[i] == r;
        var j :| 0 <= j < |Inputs(node, c)| && Inputs(node, c)[j] == e;
        assert ReadKey(r) == ReadKey(e);
        assert i == j;
      }
    }
  }

  /** So some context agrees with the log and evaluates otherwise. */
  lemma MixedIsIncomplete(node: Node, c: Context) returns (d: Context)
    requires WellKeyed(node) && MixesWindows(Asks(node, c))
    ensures AgreeOnLog(c, d, Inputs(node, c)) && Eval(node, d) != Eval(node, c)
  {
    var i, j :| 0 <= i < |Asks(node, c)| && 0 <= j < |Asks(node, c)| && Mixed(Asks(node, c)[i], Asks(node, c)[j]);
    var a := Asks(node, c)[i];
    var answer := if Eval(node, c).value == Na(NaContextError) then NoSeries else SeriesThrew;
    d := Answering(c, a.security, a.field, answer);
    MixedIsHidden(node, c, a, Asks(node, c)[j], answer);
    assert a == Ask(a.security, a.field, Some(0));
    RefusedHistoryEnds(node, c, a.security, a.field, answer);
  }

  /** The log fixes the evaluation if and only if no input is read with its whole history and with a window too. */
  lemma ProvenanceExactly(node: Node, c: Context)
    requires WellKeyed(node)
    ensures (forall d :: AgreeOnLog(c, d, Inputs(node, c)) ==> Eval(node, d) == Eval(node, c))
            <==> !MixesWindows(Asks(node, c))
  {
    if MixesWindows(Asks(node, c)) {
      var d := MixedIsIncomplete(node, c);
    } else {
      forall d | AgreeOnLog(c, d, Inputs(node, c))
        ensures Eval(node, d) == Eval(node, c)
      {
        ProvenanceIsComplete(node, c, d);
      }
    }
  }

  /** A context that differs in one whole history agrees on what is recorded, and evaluates differently. */
  lemma WholeHistoryHides(node: Node, c: Context, a: Ask)
    requires a in Asks(node, c) && a.history == Some(0)
    ensures exists d :: AgreeOnValues(c, d, Inputs(node, c)) && Eval(node, d) != Eval(node, c)
  {
    var answer := if Eval(node, c).value == Na(NaContextError) then NoSeries else SeriesThrew;
    var d := Answering(c, a.security, a.field, answer);
    assert a == Ask(a.security, a.field, Some(0));
    RefusedHistoryEnds(node, c, a.security, a.field, answer);
    assert AgreeOnValues(c, d, Inputs(node, c));
  }

  lemma NothingHidden(node: Node, c: Context, d: Context)
    requires WellKeyed(node) && AgreeOnValues(c, d, Inputs(node, c))
    requires forall a :: a in Asks(node, c) ==> a.history != Some(0)
    ensures Eval(node, d) == Eval(node, c)
  {
    forall a | a in Asks(node, c)
      ensures Alike(c, d, a)
    {
      var r := LoggedFor(node, c, a);
      assert AgreeWithin(c, d, r);
    }
    AsksDetermine(node, c, d);
  }

  /**
   * Were window 0 a current value only, as its comment has it, the log would fix the evaluation if and only if no
   * whole history is read.
   */
  lemma ProvenanceAsDocumented(node: Node, c: Context)
    requires WellKeyed(node)
    ensures (forall d :: AgreeOnValues(c, d, Inputs(node, c)) ==> Eval(node, d) == Eval(node, c))
            <==> forall a :: a in Asks(node, c) ==> a.history != Some(0)
  {
    if a :| a in Asks(node, c) && a.history == Some(0) {
      WholeHistoryHides(node, c, a);
    } else {
      forall d | AgreeOnValues(c, d, Inputs(node, c))
        ensures Eval(node, d) == Eval(node, c)
      {
        NothingHidden(node, c, d);
      }
    }
  }

  // ---------------------------------------------------------------- read off the text

  /** A call that reads the whole history of a series, and one that reads it over a window. */
  predicate ReadsWhole(call: Node, series: Node) {
    call.Call? && call.name == NORM && |call.args| == 1 && call.args[0] == series
  }

  predicate ReadsWindow(call: Node, series: Node) {
    call.Call? && (call.name == NORM || call.name == MA) && |call.args| == 2 && call.args[0] == series
  }

  /** The text names some series both ways. */
  ghost predicate TextMixesWindows(node: Node) {
    exists p, q, s :: p in Preorder(node) && q in Preorder(node) && ReadsWhole(p, s) && ReadsWindow(q, s)
  }

  function SeriesNode(a: Ask): Node {
    if a.security.None? then Field(a.field) else Security(a.security.value)
  }

  /** Every history asked for is named by some call of the text. */
  lemma {:induction false} HistoriesAreNamed(node: Node, ctx: Context, a: Ask) returns (call: Node)
    requires a in Asks(node, ctx) && a.history.Some?
    ensures call in Preorder(node)
    ensures if a.history.value == 0 then ReadsWhole(call, SeriesNode(a)) else ReadsWindow(call, SeriesNode(a))
    decreases node
  {
    match node
    case Unary(_, operand) => call := HistoriesAreNamed(operand, ctx, a);
    case Binary(_, left, right) =>
      if a in Asks(left, ctx) {
        call := HistoriesAreNamed(left, ctx, a);
      } else {
        call := HistoriesAreNamed(right, ctx, a);
      }
    case Call(name, args) =>
      if name == RATIO || name == SPREAD {
        TwoArgs(args);
        if a in Asks(args[0], ctx) {
          call := HistoriesAreNamed(args[0], ctx, a);
        } else {
          call := HistoriesAreNamed(args[1], ctx, a);
        }
      } else {
        call := node;
      }
  }

  /** Only a text that names some series both ways mixes windows, in any context. */
  lemma MixingIsNamed(node: Node, ctx: Context)
    requires MixesWindows(Asks(node, ctx))
    ensures TextMixesWindows(node)
  {
    var asks := Asks(node, ctx);
    var i, j :| 0 <= i < |asks| && 0 <= j < |asks| && Mixed(asks[i], asks[j]);
    var p := HistoriesAreNamed(node, ctx, asks[i]);
    var q := HistoriesAreNamed(node, ctx, asks[j]);
    assert SeriesNode(asks[i]) == SeriesNode(asks[j]);
    assert ReadsWhole(p, SeriesNode(asks[i])) && ReadsWindow(q, SeriesNode(asks[i]));
  }

  /** So a text that names no series both ways has complete provenance in every context. */
  lemma UnmixedTextIsComplete(node: Node, c: Context, d: Context)
    requires WellKeyed(node) && !TextMixesWindows(node) && AgreeOnLog(c, d, Inputs(node, c))
    ensures Eval(node, d) == Eval(node, c) && Inputs(node, d) == Inputs(node, c)
  {
    if !MixesWindows(Asks(node, c)) {
      ProvenanceIsComplete(node, c, d);
    } else {
      MixingIsNamed(node, c);
    }
  }

  /** A context with one history for everything, whatever window is asked for, and no current values. */
  function OfHistory(points: seq<Point>): Context {
    Context((security: Option<string>, field: string) => NoField,
            (security: Option<string>, field: string, window: nat) => Points(points), "")
  }

  /**
   * `NORM(X)+MA(X,2)` reads the whole history of `X` and its last two points, and records the window only: two
   * histories with the same last two points agree with the log and differ in value.
   */
  lemma NormAndMovingAverage()
    ensures var node := Binary(Plus, Call(NORM, [Field("X")]), Call(MA, [Field("X"), Number(2.0)]));
            var c, d := OfHistory([Finite(1.0), Finite(1.0), Finite(1.0)]),
                OfHistory([Finite(2.0), Finite(1.0), Finite(1.0)]);
            && Inputs(node, c) == [Read(None, "X", 2)] && AgreeOnLog(c, d, Inputs(node, c))
            && Eval(node, c).value == Ok(101.0) && Eval(node, d).value == Ok(51.0)
  {
    var p, q, r := Finite(1.0), Finite(2.0), Field("X");
    var node := Binary(Plus, Call(NORM, [r]), Call(MA, [r, Number(2.0)]));
    var c, d := OfHistory([p, p, p]), OfHistory([q, p, p]);
    NormAndAverage(1.0);
    NormAndAverage(2.0);
    CollidingWindows();
    forall w: nat | 1 <= w <= 2
      ensures HistoryOver(c, None, "X", w) == HistoryOver(d, None, "X", w)
    {
      assert LastPoints([p, p, p], w) == LastPoints([q, p, p], w);
    }
  }

  lemma NormAndAverage(first: real)
    requires first != 0.0
    ensures var node := Binary(Plus, Call(NORM, [Field("X")]), Call(MA, [Field("X"), Number(2.0)]));
            Eval(node, OfHistory([Finite(first), Finite(1.0), Finite(1.0)]))
            == Outcome(Ok(100.0 * 1.0 / first + 1.0), [Read(None, "X", 0), Read(None, "X", 2)])
  {
    var points := [Finite(first), Finite(1.0), Finite(1.0)];
    var ctx := OfHistory(points);
    var norm, average := Call(NORM, [Field("X")]), Call(MA, [Field("X"), Number(2.0)]);
    assert Values(points) == [first, 1.0, 1.0];
    assert HistoryOver(ctx, None, "X", 0) == Usable([first, 1.0, 1.0]);
    assert Eval(norm, ctx) == Outcome(Ok(100.0 * 1.0 / first), [Read(None, "X", 0)]);
    assert LastPoints(points, 2) == [Finite(1.0), Finite(1.0)];
    assert Values([Finite(1.0), Finite(1.0)]) == [1.0, 1.0];
    assert HistoryOver(ctx, None, "X", 2) == Usable([1.0, 1.0]);
    assert [1.0, 1.0][..1] == [1.0] && [1.0][..0] == [];
    assert Sum([1.0]) == 1.0 && Sum([1.0, 1.0]) == 2.0;
    assert Eval(average, ctx) == Outcome(Ok(1.0), [Read(None, "X", 2)]);
  }

  lemma CollidingWindows()
    ensures RecordAll([Read(None, "X", 0), Read(None, "X", 2)]) == [Read(None, "X", 2)]
  {
    var p, q := Read(None, "X", 0), Read(None, "X", 2);
    assert [p, q][..1] == [p] && [p][..0] == [];
    assert RecordAll([p]) == [p];
    assert ReadKey(p) == ReadKey(q);
  }

  /**
   * A hand-built tree that names an empty security can collide with a field of the row's own security:
   * one input is recorded, two were read, and contexts alike on the recorded one differ in value.
   */
  lemma CollidingKeysHideAnInput()
    ensures var node := Binary(Plus, Field("X"), Security(""));
            var c, d := NamedSecurityWorth(1.0), NamedSecurityWorth(2.0);
            && Inputs(node, c) == [Read(None, "X", 0)]
            && AgreeOn(c, d, Read(None, "X", 0))
            && Eval(node, c).value != Eval(node, d).value
  {
    var node := Binary(Plus, Field("X"), Security(""));
    var c, d := NamedSecurityWorth(1.0), NamedSecurityWorth(2.0);
    CollidingSum(1.0);
    CollidingSum(2.0);
    CollidingReads(Read(None, "X", 0), Read(Some(""), "X", 0));
  }

  lemma WorthOf(security: Option<string>, field: string, v: real)
    ensures ReadField(security, field, NamedSecurityWorth(v))
            == Outcome(Ok(if security.Some? then v else 0.0), [Read(security, field, 0)])
  {
  }

  /** Both reads are made, and the sum is the named security's worth. */
  lemma CollidingSum(v: real)
    ensures Eval(Binary(Plus, Field("X"), Security("")), NamedSecurityWorth(v))
            == Outcome(Ok(v), [Read(None, "X", 0), Read(Some(""), "X", 0)])
  {
    var ctx := NamedSecurityWorth(v);
    WorthOf(None, "X", v);
    WorthOf(Some(""), "X", v);
    assert DefaultField(ctx) == "X";
    assert Eval(Field("X"), ctx) == Outcome(Ok(0.0), [Read(None, "X", 0)]);
    assert Eval(Security(""), ctx) == Outcome(Ok(v), [Read(Some(""), "X", 0)]);
  }

  lemma CollidingReads(p: Read, q: Read)
    requires p == Read(None, "X", 0) && q == Read(Some(""), "X", 0)
    ensures RecordAll([p, q]) == [p]
  {
    assert [p, q][..1] == [p] && [p][..0] == [];
    assert RecordAll([p]) == [p];
    assert ReadKey(p) == ReadKey(q);
  }

  /** A context in which every named security is worth `v` and the row's own security nothing. */
  function NamedSecurityWorth(v: real): Context {
    Context((security: Option<string>, field: string) => FieldValue(if security.Some? then v else 0.0),
            (security: Option<string>, field: string, window: nat) => NoSeries, "X")
  }

  // ---------------------------------------------------------------- inputs against the text

  function FieldAsked(r: Read): seq<string> {
    if r.security.None? then [r.field] else []
  }

  function SecurityAsked(r: Read): seq<string> {
    if r.security.Some? then [r.security.value] else []
  }

  function FieldRequests(requests: seq<Read>): seq<string> { Collect(FieldAsked, requests) }

  function SecurityRequests(requests: seq<Read>): seq<string> { Collect(SecurityAsked, requests) }

  function LargestWindow(requests: seq<Read>): (w: nat)
    ensures forall r :: r in requests ==> r.window <= w
    ensures w == 0 || exists r :: r in requests && r.window == w
  {
    if requests == [] then 0
    else
      assert requests == requests[..|requests| - 1] + [requests[|requests| - 1]];
      Max(LargestWindow(requests[..|requests| - 1]), requests[|requests| - 1].window)
  }

  lemma FieldsConcat(a: seq<Node>, b: seq<Node>)
    ensures FieldsIn(a + b) == FieldsIn(a) + FieldsIn(b)
    ensures SecuritiesIn(a + b) == SecuritiesIn(a) + SecuritiesIn(b)
    ensures WindowsIn(a + b) == WindowsIn(a) + WindowsIn(b)
  {
    CollectConcat(FieldNamed, a, b);
    CollectConcat(SecurityNamed, a, b);
    CollectConcat(WindowsNamed, a, b);
  }

  lemma OneNode(node: Node)
    ensures FieldsIn([node]) == FieldNamed(node)
    ensures SecuritiesIn([node]) == SecurityNamed(node)
    ensures WindowsIn([node]) == WindowsNamed(node)
  {
    CollectOne(FieldNamed, node);
    CollectOne(SecurityNamed, node);
    CollectOne(WindowsNamed, node);
  }

  lemma RequestsConcat(a: seq<Read>, b: seq<Read>)
    ensures FieldRequests(a + b) == FieldRequests(a) + FieldRequests(b)
    ensures SecurityRequests(a + b) == SecurityRequests(a) + SecurityRequests(b)
  {
    CollectConcat(FieldAsked, a, b);
    CollectConcat(SecurityAsked, a, b);
  }

  lemma OneRequest(r: Read)
    ensures FieldRequests([r]) == FieldAsked(r) && SecurityRequests([r]) == SecurityAsked(r)
    ensures LargestWindow([r]) == r.window
  {
    CollectOne(FieldAsked, r);
    CollectOne(SecurityAsked, r);
    assert [r][..0] == [];
  }

  lemma LargestConcat(a: seq<Read>, b: seq<Read>)
    ensures LargestWindow(a + b) == Max(LargestWindow(a), LargestWindow(b))
  {
    var all := a + b;
    LargestIs(a, LargestWindow(a));
    LargestIs(b, LargestWindow(b));
    assert forall r :: r in all <==> r in a || r in b;
    LargestIs(all, if LargestWindow(a) < LargestWindow(b) then LargestWindow(b) else LargestWindow(a));
  }

  ghost predicate IsLargest(requests: seq<Read>, w: nat) {
    && (forall r :: r in requests ==> r.window <= w)
    && (w == 0 || exists r :: r in requests && r.window == w)
  }

  /** There is only one largest window. */
  lemma LargestIs(requests: seq<Read>, w: nat)
    ensures IsLargest(requests, w) <==> LargestWindow(requests) == w
  {
  }

  lemma GreatestConcat(a: seq<real>, b: seq<real>)
    ensures Greatest(a + b) == if Greatest(b) > Greatest(a) then Greatest(b) else Greatest(a)
  {
    if b == [] {
      assert a + b == a;
    } else {
      GreatestConcat(a, b[..|b| - 1]);
      assert (a + b)[..|a + b| - 1] == a + b[..|b| - 1];
    }
  }

  /** `requests` are the reads the nodes call for, up to a point; up to the end when `whole`. */
  ghost predicate Follows(requests: seq<Read>, nodes: seq<Node>, whole: bool) {
    && FieldRequests(requests) <= FieldsIn(nodes)
    && SecurityRequests(requests) <= SecuritiesIn(nodes)
    && LargestWindow(requests) as real <= Greatest(WindowsIn(nodes))
    && (whole ==> FieldRequests(requests) == FieldsIn(nodes)
                  && SecurityRequests(requests) == SecuritiesIn(nodes)
                  && LargestWindow(requests) as real == Greatest(WindowsIn(nodes)))
  }

  lemma FollowsThen(a: seq<Read>, b: seq<Read>, xs: seq<Node>, ys: seq<Node>, whole: bool)
    requires Follows(a, xs, true) && Follows(b, ys, whole)
    ensures Follows(a + b, xs + ys, whole)
  {
    FieldsConcat(xs, ys);
    RequestsConcat(a, b);
    LargestConcat(a, b);
    GreatestConcat(WindowsIn(xs), WindowsIn(ys));
  }

  lemma FollowsMore(a: seq<Read>, xs: seq<Node>, ys: seq<Node>)
    requires Follows(a, xs, false)
    ensures Follows(a, xs + ys, false)
  {
    FieldsConcat(xs, ys);
    GreatestConcat(WindowsIn(xs), WindowsIn(ys));
  }

  /** A node that names nothing itself calls for nothing. */
  lemma FollowsUnder(a: seq<Read>, node: Node, ys: seq<Node>, whole: bool)
    requires Follows(a, ys, whole)
    requires FieldNamed(node) == [] && SecurityNamed(node) == [] && WindowsNamed(node) == []
    ensures Follows(a, [node] + ys, whole)
  {
    OneNode(node);
    FieldsConcat([node], ys);
    assert FieldsIn([node] + ys) == FieldsIn(ys);
    assert SecuritiesIn([node] + ys) == SecuritiesIn(ys);
    assert WindowsIn([node] + ys) == WindowsIn(ys);
  }

  lemma NothingFollows(nodes: seq<Node>)
    ensures Follows([], nodes, false)
  {
  }

  lemma LeafFollows(node: Node, ctx: Context)
    requires IsSeriesNode(node)
    ensures Follows(Eval(node, ctx).requests, Preorder(node), true)
  {
    var r := if node.Field? then Read(None, node.field, 0) else Read(Some(node.canonical), DefaultField(ctx), 0);
    assert Eval(node, ctx).requests == [r];
    assert Preorder(node) == [node];
    OneNode(node);
    OneRequest(r);
  }

  /** Requests follow the text from left to right, and reach its end whenever there is a value. */
  lemma {:induction false} RequestsFollowText(node: Node, ctx: Context)
    ensures Follows(Eval(node, ctx).requests, Preorder(node), Eval(node, ctx).value.Ok?)
    decreases node, 1
  {
    match node
    case Number(_) => OneNode(node); assert Preorder(node) == [node];
    case Field(_) => LeafFollows(node, ctx);
    case Security(_) => LeafFollows(node, ctx);
    case Unary(_, operand) =>
      RequestsFollowText(operand, ctx);
      FollowsUnder(Eval(operand, ctx).requests, node, Preorder(operand), Eval(operand, ctx).value.Ok?);
    case Binary(op, left, right) =>
      BothFollow(op, left, right, node, ctx);
    case Call(name, args) =>
      CallFollows(name, args, ctx);
    case ErrorNode => NothingFollows(Preorder(node));
  }

  lemma {:induction false} CallFollows(name: FunctionName, args: seq<Node>, ctx: Context)
    ensures var node := Call(name, args);
            Follows(Eval(node, ctx).requests, Preorder(node), Eval(node, ctx).value.Ok?)
    decreases Call(name, args), 0, 1
  {
    var node := Call(name, args);
    if !GoodArity(name, args) {
      NothingFollows(Preorder(node));
    } else if name == RATIO || name == SPREAD {
      assert args == [args[0], args[1]];
      TwoArgs(args);
      BothFollow(if name == RATIO then Slash else Minus, args[0], args[1], node, ctx);
    } else {
      assert Eval(node, ctx) == SeriesCall(name, args, ctx);
      if SeriesCall(name, args, ctx).requests == [] {
        NothingFollows(Preorder(node));
      } else {
        SeriesFollows(name, args, ctx);
      }
    }
  }

  lemma TwoArgs(args: seq<Node>)
    requires |args| == 2
    ensures PreorderAll(args) == Preorder(args[0]) + Preorder(args[1])
  {
    assert args[1..][0] == args[1] && args[1..][1..] == [];
    assert PreorderAll(args[1..][1..]) == [];
    assert PreorderAll(args[1..]) == Preorder(args[1]);
  }

  lemma {:induction false} BothFollow(op: BinaryOp, left: Node, right: Node, parent: Node, ctx: Context)
    requires left < parent && right < parent
    requires FieldNamed(parent) == [] && SecurityNamed(parent) == [] && WindowsNamed(parent) == []
    requires Below(parent) == Preorder(left) + Preorder(right)
    ensures var both := Both(op, Eval(left, ctx), Eval(right, ctx));
            Follows(both.requests, Preorder(parent), both.value.Ok?)
    decreases parent, 0, 0
  {
    var a, b := Eval(left, ctx), Eval(right, ctx);
    RequestsFollowText(left, ctx);
    if a.value.Ok? {
      RequestsFollowText(right, ctx);
      BothSecond(op, a, b, a.value.value);
      FollowsThen(a.requests, b.requests, Preorder(left), Preorder(right), b.value.Ok?);
      FollowsUnder(a.requests + b.requests, parent, Below(parent), b.value.Ok?);
    } else {
      FollowsMore(a.requests, Preorder(left), Preorder(right));
      FollowsUnder(a.requests, parent, Below(parent), false);
    }
  }

  /** A series call makes one read: of its leaf, over its window. */
  lemma SeriesReads(name: FunctionName, args: seq<Node>, ctx: Context) returns (r: Read)
    requires GoodArity(name, args) && (name == MA || name == NORM)
    requires SeriesCall(name, args, ctx).requests != []
    ensures SeriesCall(name, args, ctx).requests == [r]
    ensures IsSeriesNode(args[0]) && FieldAsked(r) == FieldNamed(args[0]) && SecurityAsked(r) == SecurityNamed(args[0])
    ensures if |args| == 1 then r.window == 0
            else |args| == 2 && args[1].Number? && args[1].value == r.window as real && r.window > 0
  {
    r := SeriesCall(name, args, ctx).requests[0];
  }

  /** A call on a series names what its leaf names, and the window of its second argument. */
  lemma SeriesNames(name: FunctionName, args: seq<Node>)
    requires (name == MA || name == NORM) && 1 <= |args| <= 2 && IsSeriesNode(args[0])
        && (|args| == 2 ==> args[1].Number?)
    ensures var nodes := Preorder(Call(name, args));
            && FieldsIn(nodes) == FieldNamed(args[0]) && SecuritiesIn(nodes) == SecurityNamed(args[0])
            && WindowsIn(nodes) == if |args| == 2 then [args[1].value] else []
  {
    var node, leaf := Call(name, args), args[0];
    OneNode(node);
    OneNode(leaf);
    FieldsConcat([node], [leaf]);
    CallWindow(name, args);
    if |args| == 1 {
      OneArg(args);
      assert Preorder(leaf) == [leaf];
      assert Preorder(node) == [node] + [leaf];
    } else {
      TwoArgs(args);
      OneNode(args[1]);
      FieldsConcat([node] + [leaf], [args[1]]);
      assert Preorder(leaf) == [leaf] && Preorder(args[1]) == [args[1]];
      assert Preorder(node) == [node] + [leaf] + [args[1]];
    }
  }

  lemma CallWindow(name: FunctionName, args: seq<Node>)
    requires (name == MA || name == NORM) && 1 <= |args| <= 2 && (|args| == 2 ==> args[1].Number?)
    ensures WindowsNamed(Call(name, args)) == if |args| == 2 then [args[1].value] else []
  {
    assert [1][1..] == [] && SpecOf(name).windowArgs == [1];
    assert WindowsAt(args, [1][1..]) == [];
    assert WindowsAt(args, [1]) == (if |args| == 2 then [args[1].value] else []) + WindowsAt(args, [1][1..]);
  }

  lemma OneArg(args: seq<Node>)
    requires |args| == 1
    ensures PreorderAll(args) == Preorder(args[0])
  {
    assert args[1..] == [] && PreorderAll(args[1..]) == [];
  }

  lemma SeriesFollows(name: FunctionName, args: seq<Node>, ctx: Context)
    requires GoodArity(name, args) && (name == MA || name == NORM)
    requires SeriesCall(name, args, ctx).requests != []
    ensures Follows(SeriesCall(name, args, ctx).requests, Preorder(Call(name, args)), true)
  {
    var r := SeriesReads(name, args, ctx);
    OneRequest(r);
    SeriesNames(name, args);
    if |args| == 2 {
      assert [args[1].value][..0] == [];
      assert Greatest([args[1].value]) == args[1].value;
    }
  }

  // ---------------------------------------------------------------- the record against the dependencies

  lemma FirstSeenGrows(xs: seq<string>, ys: seq<string>)
    ensures FirstSeen(xs) <= FirstSeen(xs + ys)
  {
    if ys == [] {
      assert xs + ys == xs;
    } else {
      FirstSeenGrows(xs, ys[..|ys| - 1]);
      assert (xs + ys)[..|xs + ys| - 1] == xs + ys[..|ys| - 1];
    }
  }

  lemma InFieldRequests(requests: seq<Read>, field: string)
    ensures field in FieldRequests(requests) <==> exists q :: q in requests && q.security.None? && q.field == field
  {
    if requests != [] {
      InFieldRequests(requests[..|requests| - 1], field);
      assert requests == requests[..|requests| - 1] + [requests[|requests| - 1]];
    }
  }

  lemma InSecurityRequests(requests: seq<Read>, canonical: string)
    ensures canonical in SecurityRequests(requests) <==> exists q :: q in requests && q.security == Some(canonical)
  {
    if requests != [] {
      InSecurityRequests(requests[..|requests| - 1], canonical);
      assert requests == requests[..|requests| - 1] + [requests[|requests| - 1]];
    }
  }

  lemma WiderKeepsNames(log: seq<Read>, i: nat, window: nat)
    requires i < |log|
    ensures FieldRequests(log[i := log[i].(window := window)]) == FieldRequests(log)
    ensures SecurityRequests(log[i := log[i].(window := window)]) == SecurityRequests(log)
  {
    var n := |log| - 1;
    var wider := log[i := log[i].(window := window)];
    if i < n {
      WiderKeepsNames(log[..n], i, window);
      assert wider[..n] == log[..n][i := log[i].(window := window)];
    } else {
      assert wider[..n] == log[..n];
    }
  }

  /** Fields and securities are recorded in first-seen order. */
  lemma {:induction false} RecordNamesFirstSeen(requests: seq<Read>, d: string)
    requires KeysFaithful(requests)
    requires forall q :: q in requests && q.security.Some? ==> q.field == d
    ensures FieldRequests(RecordAll(requests)) == FirstSeen(FieldRequests(requests))
    ensures SecurityRequests(RecordAll(requests)) == FirstSeen(SecurityRequests(requests))
  {
    if requests != [] {
      var front, last := requests[..|requests| - 1], requests[|requests| - 1];
      assert requests == front + [last];
      RecordNamesFirstSeen(front, d);
      RecordOneMore(front, last);
      KnownKey(front, last, d);
      RequestsConcat(front, [last]);
      OneRequest(last);
      if last.security.None? {
        InFieldRequests(front, last.field);
        SeenNext(FieldRequests(front), FieldRequests(front) + [last.field]);
        assert SecurityRequests(requests) == SecurityRequests(front);
      } else {
        InSecurityRequests(front, last.security.value);
        SeenNext(SecurityRequests(front), SecurityRequests(front) + [last.security.value]);
        assert FieldRequests(requests) == FieldRequests(front);
      }
    }
  }

  lemma RecordOneMore(front: seq<Read>, last: Read)
    ensures var log := RecordAll(front);
            var isNew := FindKey(log, ReadKey(last)) == |log|;
            && FieldRequests(RecordAll(front + [last])) == FieldRequests(log) + (if isNew then FieldAsked(last) else [])
            && SecurityRequests(RecordAll(front + [last]))
               == SecurityRequests(log) + (if isNew then SecurityAsked(last) else [])
  {
    var log := RecordAll(front);
    var i := FindKey(log, ReadKey(last));
    RecordNext(front, last);
    if i == |log| {
      RequestsConcat(log, [last]);
      OneRequest(last);
    } else {
      WiderKeepsNames(log, i, last.window);
    }
  }

  /** A key is already recorded exactly when the same input was already requested. */
  lemma KnownKey(front: seq<Read>, last: Read, d: string)
    requires KeysFaithful(front + [last])
    requires forall q :: q in front + [last] && q.security.Some? ==> q.field == d
    ensures FindKey(RecordAll(front), ReadKey(last)) < |RecordAll(front)|
       <==> exists q :: q in front && q.security == last.security && q.field == last.field
    ensures last.security.Some? ==>
              ((exists q :: q in front && q.security == last.security)
               <==> exists q :: q in front && q.security == last.security && q.field == last.field)
  {
    var all, log := front + [last], RecordAll(front);
    var i := FindKey(log, ReadKey(last));
    RequestedIsRecorded(front);
    RecordedWasRequested(front);
    assert all[|front|] == last;
    if i < |log| {
      assert log[i] in log;
      var q :| q in front && ReadKey(q) == ReadKey(log[i]) && q.window == log[i].window;
      var k :| 0 <= k < |front| && front[k] == q;
      assert all[k] == q;
    }
    if q :| q in front && q.security == last.security && q.field == last.field {
      assert KeyCovered(q, log);
    }
  }

  lemma RecordKeepsLargestWindow(requests: seq<Read>)
    ensures LargestWindow(RecordAll(requests)) == LargestWindow(requests)
  {
    RecordedIsNoLarger(requests);
    RecordedIsNoSmaller(requests);
  }

  lemma RecordedIsNoLarger(requests: seq<Read>)
    ensures LargestWindow(RecordAll(requests)) <= LargestWindow(requests)
  {
    var log := RecordAll(requests);
    var m := LargestWindow(log);
    if m != 0 {
      var r :| r in log && r.window == m;
      RecordedWasRequested(requests);
      var q :| q in requests && ReadKey(q) == ReadKey(r) && q.window == r.window;
    }
  }

  lemma RecordedIsNoSmaller(requests: seq<Read>)
    ensures LargestWindow(requests) <= LargestWindow(RecordAll(requests))
  {
    var log := RecordAll(requests);
    var n := LargestWindow(requests);
    if n != 0 {
      var q :| q in requests && q.window == n;
      RequestedIsRecorded(requests);
      assert KeyCovered(q, log);
      var k :| 0 <= k < |log| && ReadKey(log[k]) == ReadKey(q) && q.window <= log[k].window;
      assert log[k] in log;
    }
  }

  /**
   * What is recorded is what the text names: the recorded fields and securities are, in order, the first
   * of the tree's dependencies, and all of them, with the same largest window, whenever there is a value.
   */
  lemma InputsAreDependencies(node: Node, ctx: Context)
    requires WellKeyed(node)
    ensures var inputs, deps, ok := Inputs(node, ctx), DependenciesOf(node), Eval(node, ctx).value.Ok?;
            && FieldRequests(inputs) <= deps.fields
            && SecurityRequests(inputs) <= deps.securities
            && LargestWindow(inputs) as real <= deps.maxWindow
            && (forall r :: r in inputs && r.security.Some? ==> r.field == DefaultField(ctx))
            && (ok ==> FieldRequests(inputs) == deps.fields && SecurityRequests(inputs) == deps.securities
                       && LargestWindow(inputs) as real == deps.maxWindow)
  {
    var requests := Eval(node, ctx).requests;
    RequestsFollowText(node, ctx);
    RequestsAreWellKeyed(node, ctx);
    WellKeyedIsFaithful(node, ctx);
    RecordNamesFirstSeen(requests, DefaultField(ctx));
    RecordKeepsLargestWindow(requests);
    RecordedWasRequested(requests);
    FirstSeenOfFront(FieldRequests(requests), FieldsIn(Preorder(node)));
    FirstSeenOfFront(SecurityRequests(requests), SecuritiesIn(Preorder(node)));
  }

  lemma FirstSeenOfFront(xs: seq<string>, all: seq<string>)
    requires xs <= all
    ensures FirstSeen(xs) <= FirstSeen(all)
  {
    FirstSeenGrows(xs, all[|xs|..]);
    assert all == xs + all[|xs|..];
  }
}
