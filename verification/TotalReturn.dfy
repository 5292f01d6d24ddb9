/** The total-return index: no look-ahead, the adjusted close when nothing is paid, and every payment credited once. */
module TotalReturn {
  import opened Util
  import opened CorporateActions

  datatype Point = Point(date: Date, value: real)

  // ---------------------------------------------------------------- bars in order

  predicate BarsAscend(bars: seq<Bar>) {
    forall i, j :: 0 <= i <= j < |bars| ==> bars[i].date <= bars[j].date
  }

  /** Stable insertion by date. */
  function InsertBar(bars: seq<Bar>, x: Bar): (r: seq<Bar>)
    ensures |r| == |bars| + 1
  {
    if bars == [] || bars[|bars| - 1].date <= x.date then bars + [x]
    else InsertBar(bars[..|bars| - 1], x) + [bars[|bars| - 1]]
  }

  function SortBars(bars: seq<Bar>): (r: seq<Bar>)
    ensures |r| == |bars|
  {
    if bars == [] then [] else InsertBar(SortBars(bars[..|bars| - 1]), bars[|bars| - 1])
  }

  lemma {:induction false} InsertHasBar(bars: seq<Bar>, x: Bar, y: Bar)
    ensures y in InsertBar(bars, x) <==> y == x || y in bars
  {
    if bars != [] {
      var n := |bars| - 1;
      assert bars == bars[..n] + [bars[n]];
      if bars[n].date > x.date {
        InsertHasBar(bars[..n], x, y);
      }
    }
  }

  lemma {:induction false} SortHasBar(bars: seq<Bar>, y: Bar)
    ensures y in SortBars(bars) <==> y in bars
  {
    if bars != [] {
      var n := |bars| - 1;
      assert bars == bars[..n] + [bars[n]];
      SortHasBar(bars[..n], y);
      InsertHasBar(SortBars(bars[..n]), bars[n], y);
    }
  }

  lemma {:induction false} InsertBarAscends(bars: seq<Bar>, x: Bar)
    requires BarsAscend(bars)
    ensures BarsAscend(InsertBar(bars, x))
  {
    if bars != [] && bars[|bars| - 1].date > x.date {
      var n := |bars| - 1;
      InsertBarAscends(bars[..n], x);
      var front := InsertBar(bars[..n], x);
      forall i | 0 <= i < |front|
        ensures front[i].date <= bars[n].date
      {
        InsertHasBar(bars[..n], x, front[i]);
      }
    }
  }

  lemma {:induction false} SortBarsAscend(bars: seq<Bar>)
    ensures BarsAscend(SortBars(bars))
  {
    if bars != [] {
      SortBarsAscend(bars[..|bars| - 1]);
      InsertBarAscends(SortBars(bars[..|bars| - 1]), bars[|bars| - 1]);
    }
  }

  // ---------------------------------------------------------------- cash

  /** The first bar on or after a date, or past the end. */
  function CreditBar(bars: seq<Bar>, exDate: Date): (at: nat)
    ensures at <= |bars|
    ensures at < |bars| ==> bars[at].date >= exDate
    ensures forall k :: 0 <= k < at ==> bars[k].date < exDate
  {
    if bars == [] || bars[0].date >= exDate then 0 else 1 + CreditBar(bars[1..], exDate)
  }

  predicate IsPayment(action: Action) {
    Applied(action.status) && IsCash(action.caType)
  }

  /** Is the payment after the first bar and not after the last? */
  predicate Credited(bars: seq<Bar>, action: Action) {
    IsPayment(action) && 0 < CreditBar(bars, action.exDate) < |bars|
  }

  function CashFor(steps: seq<Step>, action: Action): real {
    if action.amount.Some? then Times(action.amount.value, PriceAfter(steps, action.exDate)) else 0.0
  }

  function AddCash(bars: seq<Bar>, steps: seq<Step>, cash: seq<real>, action: Action): (r: seq<real>)
    requires |cash| == |bars|
    ensures |r| == |bars|
  {
    if !Credited(bars, action) then cash
    else
      var at := CreditBar(bars, action.exDate);
      cash[at := cash[at] + CashFor(steps, action)]
  }

  /** The cash of each bar, on the split basis of the prices. */
  function CashOf(bars: seq<Bar>, steps: seq<Step>, actions: seq<Action>): (r: Result<seq<real>>)
    ensures r.Ok? ==> |r.value| == |bars|
  {
    if actions == [] then Ok(seq(|bars|, _ => 0.0))
    else
      CashStep(bars, steps, CashOf(bars, steps, actions[..|actions| - 1]), actions[|actions| - 1])
  }

  function CashStep(bars: seq<Bar>, steps: seq<Step>, cash: Result<seq<real>>, action: Action): (r: Result<seq<real>>)
    requires cash.Ok? ==> |cash.value| == |bars|
    ensures r.Ok? ==> |r.value| == |bars|
  {
    if cash.Err? then cash
    else if IsPayment(action) && !Positive(action.amount) then Err(BadAmount(action))
    else Ok(AddCash(bars, steps, cash.value, action))
  }

  // ---------------------------------------------------------------- the index

  function AdjustedCloses(bars: seq<Bar>, steps: seq<Step>): (r: seq<real>)
    ensures |r| == |bars| && forall i :: 0 <= i < |bars| ==> r[i] == AdjustedClose(bars[i], steps)
  {
    seq(|bars|, i requires 0 <= i < |bars| => AdjustedClose(bars[i], steps))
  }

  function AdjustedClose(bar: Bar, steps: seq<Step>): real {
    Times(bar.close, PriceAfter(steps, bar.date))
  }

  function Grow(value: real, close: real, cash: real, prev: real): real
    requires prev > 0.0
  {
    Times(value, close + cash) / prev
  }

  /** One more point. */
  function PointStep(points: Result<seq<Point>>, before: Date, date: Date, close: real, cash: real,
                     prev: real): (r: Result<seq<Point>>)
    requires points.Ok? ==> points.value != []
    ensures r.Ok? ==> points.Ok? && |r.value| == |points.value| + 1
  {
    if points.Err? then points
    else if prev <= 0.0 then Err(NonPositiveClose(before))
    else Ok(points.value + [Point(date, Grow(points.value[|points.value| - 1].value, close, cash, prev))])
  }

  /** The first `n` points. */
  function Points(bars: seq<Bar>, closes: seq<real>, cash: seq<real>, first: real, n: nat): (r: Result<seq<Point>>)
    requires |closes| == |cash| == |bars| && 1 <= n <= |bars|
    ensures r.Ok? ==> |r.value| == n
  {
    if n == 1 then Ok([Point(bars[0].date, first)])
    else
      PointStep(Points(bars, closes, cash, first, n - 1), bars[n - 2].date, bars[n - 1].date, closes[n - 1],
          cash[n - 1],
                closes[n - 2])
  }

  function First(bars: seq<Bar>, base: Option<real>): real
    requires bars != []
  {
    if base.Some? then base.value else bars[0].close
  }

  /** The index once its steps are known. */
  function IndexWith(bars: seq<Bar>, steps: seq<Step>, actions: seq<Action>, base: Option<real>): Result<seq<Point>>
    requires bars != []
  {
    var cash := CashOf(bars, steps, actions);
    if cash.Err? then Err(cash.failure)
    else Points(bars, AdjustedCloses(bars, steps), cash.value, First(bars, base), |bars|)
  }

  /** The index of ordered bars. */
  function IndexOf(bars: seq<Bar>, actions: seq<Action>, base: Option<real>): Result<seq<Point>>
    requires bars != []
  {
    var steps := StepsOf(actions, [], Price);
    if steps.Err? then Err(steps.failure)
    else
      IndexWith(bars, steps.value, actions, base)
  }

  function TotalReturnOf(bars: seq<Bar>, actions: seq<Action>, base: Option<real>): Result<seq<Point>> {
    if bars == [] then Ok([]) else IndexOf(SortBars(bars), actions, base)
  }

  // ---------------------------------------------------------------- how it is computed

  lemma {:induction false} RatiosIgnoreCloses(actions: seq<Action>, closes: seq<Close>)
    ensures StepsOf(actions, closes, Price) == StepsOf(actions, [], Price)
  {
    if actions != [] {
      RatiosIgnoreCloses(actions[..|actions| - 1], closes);
    }
  }

  lemma {:induction false} CashFailureStays(bars: seq<Bar>, steps: seq<Step>, actions: seq<Action>, k: nat)
    requires k <= |actions|
    ensures CashOf(bars, steps, actions[..k]).Err? ==> CashOf(bars, steps, actions) == CashOf(bars, steps, actions[..k])
    decreases |actions|
  {
    if k < |actions| {
      var n := |actions| - 1;
      assert actions[..n][..k] == actions[..k];
      CashFailureStays(bars, steps, actions[..n], k);
    } else {
      assert actions[..k] == actions;
    }
  }

  method FindCreditBar(bars: seq<Bar>, exDate: Date) returns (at: nat)
    requires BarsAscend(bars)
    ensures at == CreditBar(bars, exDate)
  {
    at := 0;
    while at < |bars| && bars[at].date < exDate
      invariant at <= |bars|
      invariant forall k :: 0 <= k < at ==> bars[k].date < exDate
    {
      at := at + 1;
    }
  }

  /** The factor in force on a date, from the suffix products of the sorted steps. */
  method FactorOn(steps: seq<Step>, ghost unsorted: seq<Step>, price: array<real>, volume: array<real>, date: Date)
    returns (factor: real)
    requires steps == SortSteps(unsorted) && AreSuffixes(price, volume, steps, 0)
    ensures factor == PriceAfter(unsorted, date)
  {
    SortAscends(unsorted);
    var i := FirstStepAfter(steps, date);
    SuffixIsProduct(steps, date, i);
    SortKeepsProduct(unsorted, PriceOn(date));
    factor := price[i];
  }

  method CollectCash(bars: seq<Bar>, steps: seq<Step>, ghost unsorted: seq<Step>, price: array<real>,
                     volume: array<real>,
                     actions: seq<Action>)
    returns (r: Result<seq<real>>)
    requires BarsAscend(bars) && steps == SortSteps(unsorted) && AreSuffixes(price, volume, steps, 0)
    ensures r == CashOf(bars, unsorted, actions)
  {
    var cash := seq(|bars|, _ => 0.0);
    for k := 0 to |actions|
      invariant CashOf(bars, unsorted, actions[..k]) == Ok(cash)
    {
      assert actions[..k + 1][..k] == actions[..k];
      CashFailureStays(bars, unsorted, actions, k + 1);
      var action := actions[k];
      if !Applied(action.status) { continue; }
      if !IsCash(action.caType) { continue; }
      if !Positive(action.amount) { return Err(BadAmount(action)); }
      var at := FindCreditBar(bars, action.exDate);
      if at == |bars| || at == 0 { continue; }
      var factor := FactorOn(steps, unsorted, price, volume, action.exDate);
      cash := cash[at := cash[at] + action.amount.value * factor];
    }
    assert actions[..|actions|] == actions;
    r := Ok(cash);
  }

  method ChainPoints(bars: seq<Bar>, closes: seq<real>, cash: seq<real>, first: real) returns (r: Result<seq<Point>>)
    requires |closes| == |cash| == |bars| && bars != []
    ensures r == Points(bars, closes, cash, first, |bars|)
  {
    var out := [Point(bars[0].date, first)];
    for i := 1 to |bars|
      invariant Points(bars, closes, cash, first, i) == Ok(out)
    {
      PointsFailureStays(bars, closes, cash, first, i + 1);
      var prev := closes[i - 1];
      if prev <= 0.0 { return Err(NonPositiveClose(bars[i - 1].date)); }
      out := out + [Point(bars[i].date, Grow(out[i - 1].value, closes[i], cash[i], prev))];
    }
    r := Ok(out);
  }

  lemma {:induction false} PointsFailureStays(bars: seq<Bar>, closes: seq<real>, cash: seq<real>, first: real, n: nat)
    requires |closes| == |cash| == |bars| && 1 <= n <= |bars|
    ensures Points(bars, closes, cash, first, n).Err? ==>
              Points(bars, closes, cash, first, |bars|) == Points(bars, closes, cash, first, n)
    decreases |bars| - n
  {
    if n < |bars| {
      PointsFailureStays(bars, closes, cash, first, n + 1);
    }
  }

  method TotalReturnIndex(bars: seq<Bar>, actions: seq<Action>, base: Option<real>) returns (r: Result<seq<Point>>)
    ensures r == TotalReturnOf(bars, actions, base)
  {
    if |bars| == 0 { return Ok([]); }
    var ordered := SortBars(bars);
    SortBarsAscend(bars);
    var closes := seq(|ordered|, i requires 0 <= i < |ordered| => Close(ordered[i].date, ordered[i].close));
    RatiosIgnoreCloses(actions, closes);
    var splits := AdjustmentFactors(actions, closes, Price);
    if splits.Err? { return Err(splits.failure); }
    ghost var unsorted := StepsOf(actions, [], Price).value;
    var price, volume := SuffixProducts(splits.value);
    var adjusted: seq<real> := [];
    for i := 0 to |ordered|
      invariant |adjusted| == i && AreSuffixes(price, volume, splits.value, 0)
      invariant forall k :: 0 <= k < i ==> adjusted[k] == AdjustedClose(ordered[k], unsorted)
    {
      var factor := FactorOn(splits.value, unsorted, price, volume, ordered[i].date);
      adjusted := adjusted + [ordered[i].close * factor];
    }
    assert adjusted == AdjustedCloses(ordered, unsorted);
    var cash := CollectCash(ordered, splits.value, unsorted, price, volume, actions);
    if cash.Err? { return Err(cash.failure); }
    r := ChainPoints(ordered, adjusted, cash.value, First(ordered, base));
  }

  // ---------------------------------------------------------------- no look-ahead

  function Join(a: Result<seq<Step>>, b: Result<seq<Step>>): Result<seq<Step>> {
    if a.Err? then a else if b.Err? then b else Ok(a.value + b.value)
  }

  lemma {:induction false} StepsConcat(a: seq<Action>, b: seq<Action>)
    ensures StepsOf(a + b, [], Price) == Join(StepsOf(a, [], Price), StepsOf(b, [], Price))
  {
    if b == [] {
      assert a + b == a;
      var sa := StepsOf(a, [], Price);
      if sa.Ok? {
        assert sa.value + [] == sa.value;
      }
    } else {
      var n := |b| - 1;
      StepsConcat(a, b[..n]);
      assert (a + b)[..|a + b| - 1] == a + b[..n];
      var sa, sb, last := StepsOf(a, [], Price), StepsOf(b[..n], [], Price), StepOf(b[n], [], Price);
      if sa.Ok? && sb.Ok? && last.Ok? {
        var more := if last.value.Some? then [last.value.value] else [];
        assert (sa.value + sb.value) + more == sa.value + (sb.value + more);
      }
    }
  }

  lemma {:induction false} ProductConcat(xs: seq<Step>, ys: seq<Step>, f: Step -> real)
    ensures Product(xs + ys, f) == Times(Product(xs, f), Product(ys, f))
  {
    if ys == [] {
      assert xs + ys == xs;
    } else {
      var n := |ys| - 1;
      ProductConcat(xs, ys[..n], f);
      assert xs + ys == (xs + ys[..n]) + [ys[n]];
      LastFactor(xs + ys[..n], ys[n], f);
      Regroup(Product(xs, f), Product(ys[..n], f), f(ys[n]));
    }
  }

  lemma MiddleFactor(xs: seq<Step>, ys: seq<Step>, zs: seq<Step>, f: Step -> real)
    ensures Product(xs + ys + zs, f) == Times(Product(ys, f), Product(xs + zs, f))
  {
    ProductConcat(xs + ys, zs, f);
    ProductConcat(xs, ys, f);
    ProductConcat(xs, zs, f);
    Middle(Product(xs + ys + zs, f), Product(xs + ys, f), Product(xs + zs, f), Product(xs, f), Product(ys, f),
        Product(zs, f));
  }

  lemma Middle(all: real, front: real, outer: real, x: real, y: real, z: real)
    requires all == Times(front, z) && front == Times(x, y) && outer == Times(x, z)
    ensures all == Times(y, outer)
  {
    Extract(x, y, z);
  }

  /** An action that is well formed: one that would not stop the index. */
  predicate Valid(action: Action) {
    Applied(action.status) ==>
      && (IsRatio(action.caType) ==> Positive(action.ratioNew) && Positive(action.ratioOld))
      && (IsCash(action.caType) ==> Positive(action.amount))
  }

  /** The factor a valid action has on every earlier date. */
  function FactorOf(action: Action): (f: real)
    requires Valid(action)
    ensures f > 0.0
  {
    if Applied(action.status) && IsRatio(action.caType) then
      Ratio(action.ratioOld.value, action.ratioNew.value);
      action.ratioOld.value / action.ratioNew.value
    else 1.0
  }

  /** On every date before it, the action multiplies the cumulative factor by its own. */
  lemma OneMoreStep(a: seq<Action>, x: Action, b: seq<Action>, date: Date)
    requires Valid(x) && date < x.exDate
    ensures var before, after := StepsOf(a + b, [], Price), StepsOf(a + [x] + b, [], Price);
            && (before.Err? ==> after == before)
            && (before.Ok? ==> after.Ok? && PriceAfter(after.value, date) == Times(FactorOf(x),
                PriceAfter(before.value, date)))
  {
    StepsConcat(a, b);
    StepsConcat(a + [x], b);
    StepsConcat(a, [x]);
    var sa, sx, sb := StepsOf(a, [], Price), StepsOf([x], [], Price), StepsOf(b, [], Price);
    ValidHasSteps(x);
    OneStepProduct(x, sx.value, date);
    if sa.Ok? && sb.Ok? {
      MiddleFactor(sa.value, sx.value, sb.value, PriceOn(date));
    }
  }

  lemma ValidHasSteps(x: Action)
    requires Valid(x)
    ensures StepsOf([x], [], Price).Ok?
  {
    assert [x][..0] == [];
  }

  lemma Extract(a: real, x: real, b: real)
    ensures Times(Times(a, x), b) == Times(x, Times(a, b))
  {
  }

  lemma OneStepProduct(x: Action, steps: seq<Step>, date: Date)
    requires Valid(x) && date < x.exDate && StepsOf([x], [], Price) == Ok(steps)
    ensures Product(steps, PriceOn(date)) == FactorOf(x)
  {
    assert [x][..0] == [];
    if steps != [] {
      assert steps[..0] == [];
    }
  }

  /** The same bars and dates, every price and payment scaled: the points are the same. */
  lemma {:induction false} ScaledPoints(bars: seq<Bar>, closes: seq<real>, cash: seq<real>, f: real,
                                        closes1: seq<real>, cash1: seq<real>, first: real, n: nat)
    requires |closes| == |cash| == |closes1| == |cash1| == |bars| && 1 <= n <= |bars| && f > 0.0
    requires forall i :: 0 <= i < |bars| ==> closes1[i] == Times(f, closes[i]) && cash1[i] == Times(f, cash[i])
    ensures Points(bars, closes1, cash1, first, n) == Points(bars, closes, cash, first, n)
  {
    if n > 1 {
      ScaledPoints(bars, closes, cash, f, closes1, cash1, first, n - 1);
      ScaledStep(Points(bars, closes, cash, first, n - 1), bars[n - 2].date, bars[n - 1].date, closes[n - 1],
          cash[n - 1],
                 closes[n - 2], f);
    }
  }

  lemma ScaledStep(points: Result<seq<Point>>, before: Date, date: Date, close: real, cash: real, prev: real, f: real)
    requires f > 0.0 && (points.Ok? ==> points.value != [])
    ensures PointStep(points, before, date, Times(f, close), Times(f, cash), Times(f, prev)) == PointStep(points,
        before, date, close, cash, prev)
  {
    ScaledSign(f, prev);
    if points.Ok? && prev > 0.0 {
      ScaledGrow(points.value[|points.value| - 1].value, close, cash, prev, f);
    }
  }

  lemma ScaledSign(f: real, x: real)
    requires f > 0.0
    ensures Times(f, x) <= 0.0 <==> x <= 0.0
  {
  }

  lemma ScaledGrow(value: real, close: real, cash: real, prev: real, f: real)
    requires prev > 0.0 && f > 0.0
    ensures Times(f, prev) > 0.0 && Grow(value, Times(f, close), Times(f, cash), Times(f, prev)) == Grow(value, close,
        cash, prev)
  {
    var x, a := Times(value, close + cash), Times(value, Times(f, close) + Times(f, cash));
    var q := x / prev;
    assert q * prev == x;
    assert a == f * x;
    assert q * (f * prev) == f * (q * prev);
    Divide(a, Times(f, prev), q);
  }

  lemma Divide(a: real, b: real, q: real)
    requires b != 0.0 && Times(q, b) == a
    ensures a / b == q
  {
  }

  /** Factors scaled on every date up to the last bar scale the cash. */
  lemma {:induction false} ScaledCash(bars: seq<Bar>, steps: seq<Step>, steps1: seq<Step>, f: real,
                                      actions: seq<Action>)
    requires BarsAscend(bars)
    requires forall date: Date :: bars != [] && date <= bars[|bars| - 1].date ==>
               PriceAfter(steps1, date) == Times(f, PriceAfter(steps, date))
    ensures var was, now := CashOf(bars, steps, actions), CashOf(bars, steps1, actions);
            && (was.Err? ==> now == was)
            && (was.Ok? ==> now.Ok? && forall i :: 0 <= i < |bars| ==> now.value[i] == Times(f, was.value[i]))
  {
    if actions != [] {
      var n := |actions| - 1;
      var action := actions[n];
      ScaledCash(bars, steps, steps1, f, actions[..n]);
      var was := CashOf(bars, steps, actions[..n]);
      if was.Ok? && Credited(bars, action) && Positive(action.amount) {
        var at := CreditBar(bars, action.exDate);
        assert action.exDate <= bars[|bars| - 1].date;
        ScaledSum(f, was.value[at], action.amount.value, PriceAfter(steps, action.exDate));
      }
    }
  }

  lemma ScaledSum(f: real, c: real, amount: real, factor: real)
    ensures Times(f, c) + Times(amount, Times(f, factor)) == Times(f, c + Times(amount, factor))
  {
  }

  lemma CashNext(bars: seq<Bar>, steps: seq<Step>, actions: seq<Action>, x: Action)
    ensures CashOf(bars, steps, actions + [x]) == CashStep(bars, steps, CashOf(bars, steps, actions), x)
  {
    assert (actions + [x])[..|actions|] == actions;
  }

  /** A valid action that credits no bar changes no cash. */
  lemma {:induction false} IdleCash(bars: seq<Bar>, steps: seq<Step>, a: seq<Action>, x: Action, b: seq<Action>)
    requires Valid(x) && !Credited(bars, x)
    ensures CashOf(bars, steps, a + [x] + b) == CashOf(bars, steps, a + b)
  {
    if b == [] {
      assert a + [x] + b == a + [x] && a + b == a;
      CashNext(bars, steps, a, x);
    } else {
      var n := |b| - 1;
      IdleCash(bars, steps, a, x, b[..n]);
      assert a + [x] + b == (a + [x] + b[..n]) + [b[n]] && a + b == (a + b[..n]) + [b[n]];
      CashNext(bars, steps, a + [x] + b[..n], b[n]);
      CashNext(bars, steps, a + b[..n], b[n]);
    }
  }

  /** A valid action dated after the last bar, wherever it stands among the actions, changes no point. */
  lemma NoLookAhead(bars: seq<Bar>, a: seq<Action>, x: Action, b: seq<Action>, base: Option<real>)
    requires Valid(x) && forall bar :: bar in bars ==> bar.date < x.exDate
    ensures TotalReturnOf(bars, a + [x] + b, base) == TotalReturnOf(bars, a + b, base)
  {
    if bars != [] {
      var ordered := SortBars(bars);
      SortBarsAscend(bars);
      forall i | 0 <= i < |ordered|
        ensures ordered[i].date < x.exDate
      {
        SortHasBar(bars, ordered[i]);
      }
      OrderedLookAhead(ordered, a, x, b, base);
    }
  }

  lemma ScaledCloses(bars: seq<Bar>, steps: seq<Step>, steps1: seq<Step>, f: real)
    requires forall i :: 0 <= i < |bars| ==> PriceAfter(steps1, bars[i].date) == Times(f,
        PriceAfter(steps, bars[i].date))
    ensures forall i :: 0 <= i < |bars| ==> AdjustedCloses(bars, steps1)[i] == Times(f, AdjustedCloses(bars, steps)[i])
  {
    forall i | 0 <= i < |bars|
      ensures AdjustedCloses(bars, steps1)[i] == Times(f, AdjustedCloses(bars, steps)[i])
    {
      Extract(bars[i].close, f, PriceAfter(steps, bars[i].date));
      Regroup(bars[i].close, f, PriceAfter(steps, bars[i].date));
    }
  }

  lemma ScaledIndex(bars: seq<Bar>, steps: seq<Step>, steps1: seq<Step>, f: real, actions: seq<Action>,
                    base: Option<real>)
    requires bars != [] && BarsAscend(bars) && f > 0.0
    requires forall date: Date :: date <= bars[|bars| - 1].date ==>
               PriceAfter(steps1, date) == Times(f, PriceAfter(steps, date))
    ensures IndexWith(bars, steps1, actions, base) == IndexWith(bars, steps, actions, base)
  {
    ScaledCash(bars, steps, steps1, f, actions);
    ScaledCloses(bars, steps, steps1, f);
    var cash, cash1 := CashOf(bars, steps, actions), CashOf(bars, steps1, actions);
    if cash.Ok? {
      ScaledPoints(bars, AdjustedCloses(bars, steps), cash.value, f, AdjustedCloses(bars, steps1), cash1.value,
                   First(bars, base), |bars|);
    }
  }

  lemma OrderedLookAhead(bars: seq<Bar>, a: seq<Action>, x: Action, b: seq<Action>, base: Option<real>)
    requires Valid(x) && bars != [] && BarsAscend(bars) && forall i :: 0 <= i < |bars| ==> bars[i].date < x.exDate
    ensures IndexOf(bars, a + [x] + b, base) == IndexOf(bars, a + b, base)
  {
    var was, now := StepsOf(a + b, [], Price), StepsOf(a + [x] + b, [], Price);
    OneMoreStep(a, x, b, bars[0].date);
    if was.Ok? {
      forall date: Date | date <= bars[|bars| - 1].date
        ensures PriceAfter(now.value, date) == Times(FactorOf(x), PriceAfter(was.value, date))
      {
        OneMoreStep(a, x, b, date);
      }
      IdleCash(bars, now.value, a, x, b);
      ScaledIndex(bars, was.value, now.value, FactorOf(x), a + b, base);
    }
  }

  lemma {:induction false} CreditInFront(bars: seq<Bar>, more: seq<Bar>, exDate: Date)
    ensures var at := CreditBar(bars, exDate);
            if at < |bars| then CreditBar(bars + more, exDate) == at else CreditBar(bars + more, exDate) >= |bars|
  {
    if bars != [] {
      CreditInFront(bars[1..], more, exDate);
      assert (bars + more)[1..] == bars[1..] + more;
    }
  }

  lemma {:induction false} CashInFront(bars: seq<Bar>, more: seq<Bar>, steps: seq<Step>, actions: seq<Action>)
    requires bars != []
    ensures var front, all := CashOf(bars, steps, actions), CashOf(bars + more, steps, actions);
            && (front.Ok? <==> all.Ok?)
            && (front.Ok? ==> forall i :: 0 <= i < |bars| ==> all.value[i] == front.value[i])
  {
    if actions != [] {
      CashInFront(bars, more, steps, actions[..|actions| - 1]);
      CreditInFront(bars, more, actions[|actions| - 1].exDate);
    }
  }

  lemma {:induction false} PointsInFront(bars: seq<Bar>, closes: seq<real>, cash: seq<real>, first: real, n: nat,
                                         all: seq<Bar>, closes1: seq<real>, cash1: seq<real>)
    requires |closes| == |cash| == |bars| && |closes1| == |cash1| == |all| && 1 <= n <= |bars| <= |all|
    requires forall i :: 0 <= i < |bars| ==> all[i] == bars[i] && closes1[i] == closes[i] && cash1[i] == cash[i]
    ensures Points(all, closes1, cash1, first, n) == Points(bars, closes, cash, first, n)
  {
    if n > 1 {
      PointsInFront(bars, closes, cash, first, n - 1, all, closes1, cash1);
    }
  }

  lemma {:induction false} PointsKeepFront(bars: seq<Bar>, closes: seq<real>, cash: seq<real>, first: real, n: nat,
                                           m: nat)
    requires |closes| == |cash| == |bars| && 1 <= n <= m <= |bars|
    ensures Points(bars, closes, cash, first, m).Ok? ==>
              && Points(bars, closes, cash, first, n).Ok?
              && Points(bars, closes, cash, first, m).value[..n] == Points(bars, closes, cash, first, n).value
  {
    if n < m {
      PointsKeepFront(bars, closes, cash, first, n, m - 1);
    }
  }

  /** Bars that come later leave every earlier point as it was. */
  lemma LaterBarsChangeNothing(bars: seq<Bar>, more: seq<Bar>, actions: seq<Action>, base: Option<real>)
    requires bars != [] && IndexOf(bars + more, actions, base).Ok?
    ensures IndexOf(bars, actions, base).Ok?
    ensures IndexOf(bars, actions, base).value == IndexOf(bars + more, actions, base).value[..|bars|]
  {
    var steps, all := StepsOf(actions, [], Price).value, bars + more;
    CashInFront(bars, more, steps, actions);
    var cash, cash1 := CashOf(bars, steps, actions).value, CashOf(all, steps, actions).value;
    PointsInFront(bars, AdjustedCloses(bars, steps), cash, First(bars, base), |bars|, all, AdjustedCloses(all, steps),
        cash1);
    PointsKeepFront(all, AdjustedCloses(all, steps), cash1, First(bars, base), |bars|, |all|);
  }

  // ---------------------------------------------------------------- telescoping

  lemma {:induction false} NoPayments(bars: seq<Bar>, steps: seq<Step>, actions: seq<Action>)
    requires forall action :: action in actions ==> !Credited(bars, action)
    ensures var cash := CashOf(bars, steps, actions); cash.Ok? ==> forall i :: 0 <= i < |bars| ==> cash.value[i] == 0.0
  {
    if actions != [] {
      var n := |actions| - 1;
      assert actions[n] in actions;
      NoPayments(bars, steps, actions[..n]);
    }
  }

  lemma {:induction false} PointsTelescope(bars: seq<Bar>, closes: seq<real>, cash: seq<real>, first: real, n: nat,
                                           i: nat)
    requires |closes| == |cash| == |bars| && i < n <= |bars| && Points(bars, closes, cash, first, n).Ok?
    requires forall k :: 0 <= k < |bars| ==> cash[k] == 0.0
    ensures i == 0 || closes[0] > 0.0
    ensures Times(Points(bars, closes, cash, first, n).value[i].value, closes[0]) == Times(first, closes[i])
  {
    if n > 1 {
      if i == n - 1 {
        PointsTelescope(bars, closes, cash, first, n - 1, i - 1);
        var v := Points(bars, closes, cash, first, n - 1).value[i - 1].value;
        TelescopeStep(v, closes[0], first, closes[i - 1], closes[i]);
      } else {
        PointsTelescope(bars, closes, cash, first, n - 1, i);
      }
    }
  }

  lemma TelescopeStep(v: real, c0: real, first: real, prev: real, close: real)
    requires prev > 0.0 && Times(v, c0) == Times(first, prev)
    ensures Times(Grow(v, close, 0.0, prev), c0) == Times(first, close)
  {
    var g := Grow(v, close, 0.0, prev);
    assert g * prev == v * close;
    assert (g * c0) * prev == (v * c0) * close by {
      Commute(g, c0, prev);
      Commute(v, c0, close);
    }
    Commute(first, prev, close);
    Cancel(g * c0, first * close, prev);
  }

  lemma Cancel(a: real, b: real, c: real)
    requires c != 0.0 && a * c == b * c
    ensures a == b
  {
  }

  lemma PointRatio(bars: seq<Bar>, closes: seq<real>, cash: seq<real>, first: real, i: nat)
    requires |closes| == |cash| == |bars| && i < |bars| && Points(bars, closes, cash, first, |bars|).Ok?
    requires forall k :: 0 <= k < |bars| ==> cash[k] == 0.0
    ensures var points := Points(bars, closes, cash, first, |bars|).value;
            && points[0].value == first
            && (i > 0 ==> closes[0] > 0.0 && points[i].value == Times(first, closes[i]) / closes[0])
  {
    PointsTelescope(bars, closes, cash, first, |bars|, i);
    FirstPoint(bars, closes, cash, first, |bars|);
    if i > 0 {
      Divide(Times(first, closes[i]), closes[0], Points(bars, closes, cash, first, |bars|).value[i].value);
    }
  }

  /** With nothing credited the index is the base times the ratio of adjusted closes. */
  lemma IndexTelescopes(bars: seq<Bar>, actions: seq<Action>, base: Option<real>, i: nat)
    requires i < |bars| && IndexOf(bars, actions, base).Ok?
    requires forall action :: action in actions ==> !Credited(bars, action)
    ensures var closes := AdjustedCloses(bars, StepsOf(actions, [], Price).value);
            var points := IndexOf(bars, actions, base).value;
            && |points| == |bars|
            && points[0].value == First(bars, base)
            && (i > 0 ==> closes[0] > 0.0
                          && points[i].value == Times(First(bars, base), closes[i]) / closes[0])
  {
    var steps := StepsOf(actions, [], Price).value;
    NoPayments(bars, steps, actions);
    PointRatio(bars, AdjustedCloses(bars, steps), CashOf(bars, steps, actions).value, First(bars, base), i);
  }

  lemma {:induction false} FirstPoint(bars: seq<Bar>, closes: seq<real>, cash: seq<real>, first: real, n: nat)
    requires |closes| == |cash| == |bars| && 1 <= n <= |bars| && Points(bars, closes, cash, first, n).Ok?
    ensures Points(bars, closes, cash, first, n).value[0].value == first
  {
    if n > 1 {
      FirstPoint(bars, closes, cash, first, n - 1);
    }
  }

  // ---------------------------------------------------------------- conservation

  function Sum(xs: seq<real>): real {
    if xs == [] then 0.0 else Sum(xs[..|xs| - 1]) + xs[|xs| - 1]
  }

  lemma {:induction false} SumOfUpdate(xs: seq<real>, at: nat, x: real)
    requires at < |xs|
    ensures Sum(xs[at := xs[at] + x]) == Sum(xs) + x
  {
    var n := |xs| - 1;
    if at == n {
      assert xs[at := xs[at] + x][..n] == xs[..n];
    } else {
      SumOfUpdate(xs[..n], at, x);
      assert xs[at := xs[at] + x][..n] == xs[..n][at := xs[at] + x];
    }
  }

  lemma {:induction false} SumOfZeros(n: nat)
    ensures Sum(seq(n, _ => 0.0)) == 0.0
  {
    if n > 0 {
      SumOfZeros(n - 1);
      assert seq(n, _ => 0.0)[..n - 1] == seq(n - 1, _ => 0.0);
    }
  }

  /** The payments after the first bar's date and not after the last's, on the split basis of their ex-dates. */
  function Payments(bars: seq<Bar>, steps: seq<Step>, actions: seq<Action>): real
    requires bars != []
  {
    if actions == [] then 0.0
    else
      var last := actions[|actions| - 1];
      Payments(bars, steps, actions[..|actions| - 1])
      + if IsPayment(last) && bars[0].date < last.exDate <= bars[|bars| - 1].date then CashFor(steps, last) else 0.0
  }

  /** A payment is credited exactly when it falls after the first bar and not after the last. */
  lemma CreditedIsInside(bars: seq<Bar>, action: Action)
    requires bars != [] && BarsAscend(bars) && IsPayment(action)
    ensures Credited(bars, action) <==> bars[0].date < action.exDate <= bars[|bars| - 1].date
    ensures Credited(bars, action) ==>
              var at := CreditBar(bars, action.exDate); bars[at - 1].date < action.exDate <= bars[at].date
  {
  }

  /** All the cash of the bars together is all that was paid between them: each payment reaches one bar, once. */
  lemma {:induction false} EveryPaymentOnce(bars: seq<Bar>, steps: seq<Step>, actions: seq<Action>)
    requires bars != [] && BarsAscend(bars) && CashOf(bars, steps, actions).Ok?
    ensures Sum(CashOf(bars, steps, actions).value) == Payments(bars, steps, actions)
  {
    if actions == [] {
      SumOfZeros(|bars|);
    } else {
      var n := |actions| - 1;
      EveryPaymentOnce(bars, steps, actions[..n]);
      if IsPayment(actions[n]) {
        CreditedIsInside(bars, actions[n]);
        if Credited(bars, actions[n]) {
          SumOfUpdate(CashOf(bars, steps, actions[..n]).value, CreditBar(bars, actions[n].exDate),
              CashFor(steps, actions[n]));
        }
      }
    }
  }
}
