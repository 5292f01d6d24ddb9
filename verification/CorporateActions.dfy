/** Corporate actions as price and volume factors, and bars adjusted by them. */
module CorporateActions {
  import opened Util

  // ---------------------------------------------------------------- data

  datatype CaType =
    | CashDividend | SpecialDividend | StockDividend | Split | ReverseSplit | Spinoff | Merger | Tender | Rights | Call
    | Conversion | NameChange | TickerChange | Delisting | CapitalReturn

  datatype Status = Estimated | Announced | Confirmed | Paid | Cancelled

  /** Dates are only ever compared. */
  type Date = int

  datatype Action = Action(
    caType: CaType, status: Status, exDate: Date, amount: Option<real>, ratioNew: Option<real>, ratioOld: Option<real>)

  datatype Close = Close(date: Date, close: real)

  datatype StepKind = SplitStep | DividendStep | CapitalReturnStep

  datatype Step = Step(beforeDate: Date, priceFactor: real, volumeFactor: real, kind: StepKind)

  datatype Policy = Unadjusted | Price | TotalReturnPolicy

  datatype Bar = Bar(
    date: Date, open: real, high: real, low: real, close: real, volume: Option<real>, vwap: Option<real>,
    officialClose: Option<real>)

  datatype Failure =
    | BadRatio(action: Action)
    | BadAmount(action: Action)
    | NoClose(exDate: Date)
    | BadClose(exDate: Date, close: real)
    | PaysTooMuch(action: Action, priorClose: real)
    | NonPositiveClose(date: Date)

  datatype Result<+T> = Ok(value: T) | Err(failure: Failure)

  predicate Applied(s: Status) {
    s == Announced || s == Confirmed || s == Paid
  }

  predicate IsRatio(t: CaType) {
    t == Split || t == ReverseSplit || t == StockDividend || t == Rights
  }

  predicate IsCash(t: CaType) {
    t == CashDividend || t == SpecialDividend || t == CapitalReturn
  }

  predicate Positive(x: Option<real>) {
    x.Some? && x.value > 0.0
  }

  // ---------------------------------------------------------------- the close before an ex-date

  /** The row of the latest date strictly before, the first of that date. */
  function PriorRow(closes: seq<Close>, exDate: Date): (r: Option<nat>)
    ensures r.Some? ==> r.value < |closes|
  {
    if closes == [] then None
    else
      var n := |closes| - 1;
      var best := PriorRow(closes[..n], exDate);
      if closes[n].date < exDate && (best.None? || closes[n].date > closes[best.value].date) then Some(n) else best
  }

  lemma {:induction false} PriorRowIsLatest(closes: seq<Close>, exDate: Date)
    ensures var r := PriorRow(closes, exDate);
            && (r.None? <==> forall k :: 0 <= k < |closes| ==> closes[k].date >= exDate)
            && (r.Some? ==>
                  && closes[r.value].date < exDate
                  && (forall k :: 0 <= k < |closes| && closes[k].date < exDate ==>
                        closes[k].date <= closes[r.value].date)
                  && forall k :: 0 <= k < r.value ==> closes[k].date != closes[r.value].date)
  {
    if closes != [] {
      var n := |closes| - 1;
      PriorRowIsLatest(closes[..n], exDate);
      assert forall k :: 0 <= k < n ==> closes[..n][k] == closes[k];
    }
  }

  function PriorClose(closes: seq<Close>, exDate: Date): Result<real> {
    var row := PriorRow(closes, exDate);
    if row.None? then Err(NoClose(exDate))
    else if closes[row.value].close <= 0.0 then Err(BadClose(exDate, closes[row.value].close))
    else Ok(closes[row.value].close)
  }

  method CloseBeforeEx(closes: seq<Close>, exDate: Date) returns (r: Result<real>)
    ensures r == PriorClose(closes, exDate)
  {
    var best: Option<nat> := None;
    for k := 0 to |closes|
      invariant best == PriorRow(closes[..k], exDate)
    {
      assert closes[..k + 1][..k] == closes[..k];
      if closes[k].date >= exDate { continue; }
      if best.None? || closes[k].date > closes[best.value].date {
        best := Some(k);
      }
    }
    assert closes[..|closes|] == closes;
    if best.None? { return Err(NoClose(exDate)); }
    var close := closes[best.value].close;
    r := if close <= 0.0 then Err(BadClose(exDate, close)) else Ok(close);
  }

  // ---------------------------------------------------------------- one step an action

  /** The step an action makes under a policy: none, one, or a failure. */
  function StepOf(action: Action, closes: seq<Close>, policy: Policy): Result<Option<Step>> {
    if !Applied(action.status) then Ok(None)
    else if IsRatio(action.caType) then
      if !Positive(action.ratioNew) || !Positive(action.ratioOld) then Err(BadRatio(action))
      else
        var factor := action.ratioOld.value / action.ratioNew.value;
        Ratio(action.ratioOld.value, action.ratioNew.value);
        Ok(Some(Step(action.exDate, factor, 1.0 / factor, SplitStep)))
    else if IsCash(action.caType) && policy == TotalReturnPolicy then
      if !Positive(action.amount) then Err(BadAmount(action))
      else
        var prior := PriorClose(closes, action.exDate);
        if prior.Err? then Err(prior.failure)
        else if action.amount.value >= prior.value then Err(PaysTooMuch(action, prior.value))
        else Ok(Some(Step(action.exDate, 1.0 - action.amount.value / prior.value, 1.0,
                          if action.caType == CapitalReturn then CapitalReturnStep else DividendStep)))
    else Ok(None)
  }

  lemma Ratio(a: real, b: real)
    requires a > 0.0 && b > 0.0
    ensures a / b > 0.0
  {
  }

  /** The steps in the order of the actions, or the first failure. */
  function StepsOf(actions: seq<Action>, closes: seq<Close>, policy: Policy): Result<seq<Step>> {
    if actions == [] then Ok([])
    else
      var front := StepsOf(actions[..|actions| - 1], closes, policy);
      if front.Err? then front
      else
        var last := StepOf(actions[|actions| - 1], closes, policy);
        if last.Err? then Err(last.failure)
        else Ok(front.value + if last.value.Some? then [last.value.value] else [])
  }

  predicate Ascending(steps: seq<Step>) {
    forall i, j :: 0 <= i <= j < |steps| ==> steps[i].beforeDate <= steps[j].beforeDate
  }

  /** Stable insertion by date. */
  function InsertStep(steps: seq<Step>, x: Step): seq<Step> {
    if steps == [] || steps[|steps| - 1].beforeDate <= x.beforeDate then steps + [x]
    else InsertStep(steps[..|steps| - 1], x) + [steps[|steps| - 1]]
  }

  function SortSteps(steps: seq<Step>): seq<Step> {
    if steps == [] then [] else InsertStep(SortSteps(steps[..|steps| - 1]), steps[|steps| - 1])
  }

  function SortedSteps(steps: Result<seq<Step>>): Result<seq<Step>> {
    if steps.Ok? then Ok(SortSteps(steps.value)) else steps
  }

  /** One action's step. */
  method MakeStep(action: Action, closes: seq<Close>, policy: Policy) returns (r: Result<Option<Step>>)
    ensures r == StepOf(action, closes, policy)
  {
    if !Applied(action.status) { return Ok(None); }
    if IsRatio(action.caType) {
      if !Positive(action.ratioNew) || !Positive(action.ratioOld) { return Err(BadRatio(action)); }
      var priceFactor := action.ratioOld.value / action.ratioNew.value;
      Ratio(action.ratioOld.value, action.ratioNew.value);
      return Ok(Some(Step(action.exDate, priceFactor, 1.0 / priceFactor, SplitStep)));
    }
    if IsCash(action.caType) && policy == TotalReturnPolicy {
      if !Positive(action.amount) { return Err(BadAmount(action)); }
      var prior := CloseBeforeEx(closes, action.exDate);
      if prior.Err? { return Err(prior.failure); }
      if action.amount.value >= prior.value { return Err(PaysTooMuch(action, prior.value)); }
      return Ok(Some(Step(action.exDate, 1.0 - action.amount.value / prior.value, 1.0,
                          if action.caType == CapitalReturn then CapitalReturnStep else DividendStep)));
    }
    r := Ok(None);
  }

  /** The factor steps of a policy, ascending by date. */
  method AdjustmentFactors(actions: seq<Action>, closes: seq<Close>, policy: Policy) returns (r: Result<seq<Step>>)
    ensures r == if policy == Unadjusted then Ok([]) else SortedSteps(StepsOf(actions, closes, policy))
  {
    if policy == Unadjusted { return Ok([]); }
    var steps: seq<Step> := [];
    for k := 0 to |actions|
      invariant StepsOf(actions[..k], closes, policy) == Ok(steps)
    {
      assert actions[..k + 1][..k] == actions[..k];
      FailureStays(actions, closes, policy, k + 1);
      assert steps + [] == steps;
      var step := MakeStep(actions[k], closes, policy);
      if step.Err? { return Err(step.failure); }
      if step.value.Some? {
        steps := steps + [step.value.value];
      }
    }
    assert actions[..|actions|] == actions;
    r := Ok(SortSteps(steps));
  }

  /** A failure in a front is the failure of the whole. */
  lemma {:induction false} FailureStays(actions: seq<Action>, closes: seq<Close>, policy: Policy, k: nat)
    requires k <= |actions|
    ensures StepsOf(actions[..k], closes, policy).Err? ==>
              StepsOf(actions, closes, policy) == StepsOf(actions[..k], closes, policy)
    decreases |actions|
  {
    if k < |actions| {
      var n := |actions| - 1;
      assert actions[..n][..k] == actions[..k];
      FailureStays(actions[..n], closes, policy, k);
    } else {
      assert actions[..k] == actions;
    }
  }

  // ---------------------------------------------------------------- cumulative factors

  /** A step's factors on a date: it counts for dates before its own only. */
  function PriceOn(date: Date): Step -> real {
    (s: Step) => if s.beforeDate > date then s.priceFactor else 1.0
  }

  function VolumeOn(date: Date): Step -> real {
    (s: Step) => if s.beforeDate > date then s.volumeFactor else 1.0
  }

  function Times(a: real, b: real): real {
    a * b
  }

  function Product(steps: seq<Step>, f: Step -> real): real {
    if steps == [] then 1.0 else Times(Product(steps[..|steps| - 1], f), f(steps[|steps| - 1]))
  }

  /** The product of exactly the steps dated after `date`, in whatever order they come. */
  function PriceAfter(steps: seq<Step>, date: Date): real {
    Product(steps, PriceOn(date))
  }

  function VolumeAfter(steps: seq<Step>, date: Date): real {
    Product(steps, VolumeOn(date))
  }

  lemma LastFactor(steps: seq<Step>, x: Step, f: Step -> real)
    ensures Product(steps + [x], f) == Times(Product(steps, f), f(x))
  {
    assert (steps + [x])[..|steps|] == steps;
  }

  lemma Commute(a: real, b: real, c: real)
    ensures Times(Times(a, b), c) == Times(Times(a, c), b)
  {
  }

  lemma {:induction false} InsertKeepsProduct(steps: seq<Step>, x: Step, f: Step -> real)
    ensures Product(InsertStep(steps, x), f) == Times(Product(steps, f), f(x))
  {
    if steps != [] && steps[|steps| - 1].beforeDate > x.beforeDate {
      var n := |steps| - 1;
      InsertKeepsProduct(steps[..n], x, f);
      LastFactor(InsertStep(steps[..n], x), steps[n], f);
      Commute(Product(steps[..n], f), f(x), f(steps[n]));
    } else {
      LastFactor(steps, x, f);
    }
  }

  /** Sorting changes no product. */
  lemma {:induction false} SortKeepsProduct(steps: seq<Step>, f: Step -> real)
    ensures Product(SortSteps(steps), f) == Product(steps, f)
  {
    if steps != [] {
      var n := |steps| - 1;
      SortKeepsProduct(steps[..n], f);
      InsertKeepsProduct(SortSteps(steps[..n]), steps[n], f);
    }
  }

  lemma {:induction false} InsertHasStep(steps: seq<Step>, x: Step, y: Step)
    ensures y in InsertStep(steps, x) <==> y == x || y in steps
  {
    if steps != [] && steps[|steps| - 1].beforeDate > x.beforeDate {
      InsertHasStep(steps[..|steps| - 1], x, y);
    }
    assert steps != [] ==> steps == steps[..|steps| - 1] + [steps[|steps| - 1]];
  }

  lemma {:induction false} InsertAscends(steps: seq<Step>, x: Step)
    requires Ascending(steps)
    ensures Ascending(InsertStep(steps, x))
  {
    if steps != [] && steps[|steps| - 1].beforeDate > x.beforeDate {
      var n := |steps| - 1;
      InsertAscends(steps[..n], x);
      var front := InsertStep(steps[..n], x);
      forall i | 0 <= i < |front|
        ensures front[i].beforeDate <= steps[n].beforeDate
      {
        InsertHasStep(steps[..n], x, front[i]);
      }
    }
  }

  lemma {:induction false} SortAscends(steps: seq<Step>)
    ensures Ascending(SortSteps(steps))
  {
    if steps != [] {
      SortAscends(steps[..|steps| - 1]);
      InsertAscends(SortSteps(steps[..|steps| - 1]), steps[|steps| - 1]);
    }
  }

  /** The product of the steps from `i` on. */
  function SuffixPrice(steps: seq<Step>, i: nat): real
    requires i <= |steps|
    decreases |steps| - i
  {
    if i == |steps| then 1.0 else Times(steps[i].priceFactor, SuffixPrice(steps, i + 1))
  }

  function SuffixVolume(steps: seq<Step>, i: nat): real
    requires i <= |steps|
    decreases |steps| - i
  {
    if i == |steps| then 1.0 else Times(steps[i].volumeFactor, SuffixVolume(steps, i + 1))
  }

  /** The arrays hold the suffix products from `from` on. */
  ghost predicate AreSuffixes(price: array<real>, volume: array<real>, steps: seq<Step>, from: nat)
    reads price, volume
  {
    && price.Length == volume.Length == |steps| + 1
    && forall i: nat :: from <= i <= |steps| ==>
         price[i] == SuffixPrice(steps, i) && volume[i] == SuffixVolume(steps, i)
  }

  method SuffixProducts(steps: seq<Step>) returns (price: array<real>, volume: array<real>)
    ensures fresh(price) && fresh(volume) && price != volume && AreSuffixes(price, volume, steps, 0)
  {
    var k := |steps|;
    price := new real[k + 1](_ => 1.0);
    volume := new real[k + 1](_ => 1.0);
    var i: nat := k;
    while i > 0
      invariant i <= k
      invariant AreSuffixes(price, volume, steps, i)
    {
      i := i - 1;
      var p, v := steps[i].priceFactor * price[i + 1], steps[i].volumeFactor * volume[i + 1];
      assert p == SuffixPrice(steps, i) && v == SuffixVolume(steps, i);
      price[i], volume[i] := p, v;
    }
  }

  predicate FirstAfter(steps: seq<Step>, date: Date, i: nat) {
    && i <= |steps|
    && (forall k :: 0 <= k < i ==> steps[k].beforeDate <= date)
    && (forall k :: i <= k < |steps| ==> steps[k].beforeDate > date)
  }

  /** First index whose date is strictly greater. */
  method FirstStepAfter(steps: seq<Step>, date: Date) returns (lo: nat)
    requires Ascending(steps)
    ensures FirstAfter(steps, date, lo)
  {
    lo := 0;
    var hi := |steps|;
    while lo < hi
      invariant lo <= hi <= |steps|
      invariant forall k :: 0 <= k < lo ==> steps[k].beforeDate <= date
      invariant forall k :: hi <= k < |steps| ==> steps[k].beforeDate > date
    {
      var mid := (lo + hi) / 2;
      if steps[mid].beforeDate <= date {
        lo := mid + 1;
      } else {
        hi := mid;
      }
    }
  }

  /** The suffix at that index is the product of exactly the steps after the date. */
  lemma SuffixIsProduct(steps: seq<Step>, date: Date, i: nat)
    requires FirstAfter(steps, date, i)
    ensures SuffixPrice(steps, i) == PriceAfter(steps, date) && SuffixVolume(steps, i) == VolumeAfter(steps, date)
  {
    PriceFrom(steps, date, i, |steps|);
    VolumeFrom(steps, date, i, |steps|);
    assert steps[..|steps|] == steps;
  }

  lemma Regroup(a: real, b: real, c: real)
    ensures Times(Times(a, b), c) == Times(a, Times(b, c))
  {
  }

  /** The product of the first `n` steps, times the suffix from there, is the suffix from the first that counts. */
  lemma {:induction false} PriceFrom(steps: seq<Step>, date: Date, i: nat, n: nat)
    requires FirstAfter(steps, date, i) && n <= |steps|
    ensures n <= i ==> Product(steps[..n], PriceOn(date)) == 1.0
    ensures i <= n ==> Times(Product(steps[..n], PriceOn(date)), SuffixPrice(steps, n)) == SuffixPrice(steps, i)
    decreases n
  {
    if n > 0 {
      PriceFrom(steps, date, i, n - 1);
      LastFactor(steps[..n - 1], steps[n - 1], PriceOn(date));
      assert steps[..n] == steps[..n - 1] + [steps[n - 1]];
      Regroup(Product(steps[..n - 1], PriceOn(date)), steps[n - 1].priceFactor, SuffixPrice(steps, n));
    }
  }

  lemma {:induction false} VolumeFrom(steps: seq<Step>, date: Date, i: nat, n: nat)
    requires FirstAfter(steps, date, i) && n <= |steps|
    ensures n <= i ==> Product(steps[..n], VolumeOn(date)) == 1.0
    ensures i <= n ==> Times(Product(steps[..n], VolumeOn(date)), SuffixVolume(steps, n)) == SuffixVolume(steps, i)
    decreases n
  {
    if n > 0 {
      VolumeFrom(steps, date, i, n - 1);
      LastFactor(steps[..n - 1], steps[n - 1], VolumeOn(date));
      assert steps[..n] == steps[..n - 1] + [steps[n - 1]];
      Regroup(Product(steps[..n - 1], VolumeOn(date)), steps[n - 1].volumeFactor, SuffixVolume(steps, n));
    }
  }

  datatype DateFactors = DateFactors(date: Date, priceFactor: real, volumeFactor: real)

  /** The factors in force on each date: the products of the steps after it. */
  method CumulativeFactors(dates: seq<Date>, steps: seq<Step>) returns (out: seq<DateFactors>)
    requires Ascending(steps)
    ensures |out| == |dates|
    ensures forall i :: 0 <= i < |dates| ==>
              out[i] == DateFactors(dates[i], PriceAfter(steps, dates[i]), VolumeAfter(steps, dates[i]))
  {
    var price, volume := SuffixProducts(steps);
    out := [];
    for k := 0 to |dates|
      invariant |out| == k && AreSuffixes(price, volume, steps, 0)
      invariant forall i :: 0 <= i < k ==>
                  out[i] == DateFactors(dates[i], PriceAfter(steps, dates[i]), VolumeAfter(steps, dates[i]))
    {
      var i := FirstStepAfter(steps, dates[k]);
      SuffixIsProduct(steps, dates[k], i);
      out := out + [DateFactors(dates[k], price[i], volume[i])];
    }
  }

  // ---------------------------------------------------------------- adjusting bars

  function Scaled(x: Option<real>, f: real): Option<real> {
    if x.Some? then Some(Times(x.value, f)) else None
  }

  function Adjusted(bar: Bar, p: real, v: real): Bar {
    Bar(bar.date, Times(bar.open, p), Times(bar.high, p), Times(bar.low, p), Times(bar.close, p),
        Scaled(bar.volume, v), Scaled(bar.vwap, p),
        Scaled(bar.officialClose, p))
  }

  /** What adjusting a bar means: it is scaled by exactly the steps after it. */
  function AdjustedBy(bar: Bar, steps: seq<Step>): Bar {
    Adjusted(bar, PriceAfter(steps, bar.date), VolumeAfter(steps, bar.date))
  }

  lemma ScaledByOne(bar: Bar)
    ensures Adjusted(bar, 1.0, 1.0) == bar
  {
  }

  /** Bars in any order: the moving pointer and the binary search both find exactly the steps after the bar. */
  method ApplyAdjustment(bars: seq<Bar>, steps: seq<Step>) returns (out: seq<Bar>)
    requires Ascending(steps)
    ensures |out| == |bars|
    ensures forall i :: 0 <= i < |bars| ==> out[i] == AdjustedBy(bars[i], steps)
  {
    if |bars| == 0 { return []; }
    if |steps| == 0 {
      forall i | 0 <= i < |bars|
        ensures bars[i] == AdjustedBy(bars[i], steps)
      {
        ScaledByOne(bars[i]);
      }
      return bars;
    }
    var price, volume := SuffixProducts(steps);
    var ascending := IsAscending(bars);
    var pointer := 0;
    out := [];
    for k := 0 to |bars|
      invariant |out| == k && pointer <= |steps| && AreSuffixes(price, volume, steps, 0)
      invariant forall i :: 0 <= i < k ==> out[i] == AdjustedBy(bars[i], steps)
      invariant ascending && k < |bars| ==> forall j :: 0 <= j < pointer ==> steps[j].beforeDate <= bars[k].date
    {
      var bar := bars[k];
      var index: nat;
      if ascending {
        pointer := MovePointer(steps, bar.date, pointer);
        index := pointer;
      } else {
        index := FirstStepAfter(steps, bar.date);
      }
      SuffixIsProduct(steps, bar.date, index);
      out := out + [Adjusted(bar, price[index], volume[index])];
    }
  }

  method IsAscending(bars: seq<Bar>) returns (ascending: bool)
    requires |bars| > 0
    ensures ascending <==> forall i :: 0 < i < |bars| ==> bars[i - 1].date <= bars[i].date
  {
    for i := 1 to |bars|
      invariant forall j :: 0 < j < i ==> bars[j - 1].date <= bars[j].date
    {
      if bars[i - 1].date > bars[i].date { return false; }
    }
    return true;
  }

  method MovePointer(steps: seq<Step>, date: Date, from: nat) returns (pointer: nat)
    requires Ascending(steps) && from <= |steps|
    requires forall j :: 0 <= j < from ==> steps[j].beforeDate <= date
    ensures from <= pointer && FirstAfter(steps, date, pointer)
  {
    pointer := from;
    while pointer < |steps| && steps[pointer].beforeDate <= date
      invariant from <= pointer <= |steps|
      invariant forall j :: 0 <= j < pointer ==> steps[j].beforeDate <= date
    {
      pointer := pointer + 1;
    }
  }

  // ---------------------------------------------------------------- what adjustment keeps

  /** Factors are positive; where only ratios adjust, price and volume factors are inverse. */
  ghost predicate GoodSteps(steps: seq<Step>, inverse: bool) {
    forall s :: s in steps ==> s.priceFactor > 0.0 && s.volumeFactor > 0.0
                               && (inverse ==> Times(s.priceFactor, s.volumeFactor) == 1.0)
  }

  lemma {:induction false} StepsAreGood(actions: seq<Action>, closes: seq<Close>, policy: Policy)
    ensures var r := StepsOf(actions, closes, policy); r.Ok? ==> GoodSteps(r.value, policy == Price)
  {
    if actions != [] {
      StepsAreGood(actions[..|actions| - 1], closes, policy);
      StepIsGood(actions[|actions| - 1], closes, policy);
    }
  }

  lemma StepIsGood(action: Action, closes: seq<Close>, policy: Policy)
    ensures var r := StepOf(action, closes, policy);
            r.Ok? && r.value.Some? ==> GoodSteps([r.value.value], policy == Price)
  {
    if Applied(action.status) {
      if IsRatio(action.caType) {
        if Positive(action.ratioNew) && Positive(action.ratioOld) {
          var f := action.ratioOld.value / action.ratioNew.value;
          Ratio(action.ratioOld.value, action.ratioNew.value);
          Ratio(1.0, f);
          assert f * (1.0 / f) == 1.0;
        }
      } else if IsCash(action.caType) && policy == TotalReturnPolicy && Positive(action.amount) {
        var prior := PriorClose(closes, action.exDate);
        if prior.Ok? && action.amount.value < prior.value {
          BelowOne(action.amount.value, prior.value);
        }
      }
    }
  }

  lemma BelowOne(a: real, b: real)
    requires 0.0 < a < b
    ensures a / b < 1.0
  {
    var q := a / b;
    assert q * b == a;
    if q >= 1.0 {
      ScaleKeepsOrder(1.0, q, b);
    }
  }

  lemma {:induction false} ProductIsPositive(steps: seq<Step>, f: Step -> real)
    requires forall s :: s in steps ==> f(s) > 0.0
    ensures Product(steps, f) > 0.0
  {
    if steps != [] {
      assert steps[|steps| - 1] in steps;
      ProductIsPositive(steps[..|steps| - 1], f);
    }
  }

  lemma Interchange(a: real, b: real, c: real, d: real)
    ensures Times(Times(a, b), Times(c, d)) == Times(Times(a, c), Times(b, d))
  {
  }

  lemma {:induction false} ProductsAreInverse(steps: seq<Step>, f: Step -> real, g: Step -> real)
    requires forall s :: s in steps ==> Times(f(s), g(s)) == 1.0
    ensures Times(Product(steps, f), Product(steps, g)) == 1.0
  {
    if steps != [] {
      var n := |steps| - 1;
      var s := steps[n];
      assert s in steps;
      ProductsAreInverse(steps[..n], f, g);
      Interchange(Product(steps[..n], f), f(s), Product(steps[..n], g), g(s));
    }
  }

  /** On any date the cumulative factors of good steps are good. */
  lemma ProductsAreGood(steps: seq<Step>, inverse: bool, date: Date)
    requires GoodSteps(steps, inverse)
    ensures PriceAfter(steps, date) > 0.0 && VolumeAfter(steps, date) > 0.0
    ensures inverse ==> Times(PriceAfter(steps, date), VolumeAfter(steps, date)) == 1.0
  {
    ProductIsPositive(steps, PriceOn(date));
    ProductIsPositive(steps, VolumeOn(date));
    if inverse {
      ProductsAreInverse(steps, PriceOn(date), VolumeOn(date));
    }
  }

  predicate InRange(bar: Bar) {
    bar.low <= bar.open <= bar.high && bar.low <= bar.close <= bar.high
  }

  lemma ScaleKeepsOrder(a: real, b: real, p: real)
    requires p > 0.0 && a <= b
    ensures Times(a, p) <= Times(b, p)
  {
  }

  lemma ScaledKeepsRange(bar: Bar, p: real, v: real)
    requires p > 0.0 && InRange(bar)
    ensures InRange(Adjusted(bar, p, v))
  {
    var a := Adjusted(bar, p, v);
    assert a.low <= a.open by { ScaleKeepsOrder(bar.low, bar.open, p); }
    assert a.open <= a.high by { ScaleKeepsOrder(bar.open, bar.high, p); }
    assert a.low <= a.close by { ScaleKeepsOrder(bar.low, bar.close, p); }
    assert a.close <= a.high by { ScaleKeepsOrder(bar.close, bar.high, p); }
  }

  lemma SortedAreGood(actions: seq<Action>, closes: seq<Close>, policy: Policy, date: Date)
    requires StepsOf(actions, closes, policy).Ok?
    ensures var steps := SortSteps(StepsOf(actions, closes, policy).value);
            && PriceAfter(steps, date) > 0.0 && VolumeAfter(steps, date) > 0.0
            && (policy == Price ==> Times(PriceAfter(steps, date), VolumeAfter(steps, date)) == 1.0)
  {
    var steps := StepsOf(actions, closes, policy).value;
    StepsAreGood(actions, closes, policy);
    SortKeepsProduct(steps, PriceOn(date));
    SortKeepsProduct(steps, VolumeOn(date));
    ProductsAreGood(steps, policy == Price, date);
  }

  /** Adjusted with whatever actions and policy, a bar keeps its order. */
  lemma AdjustmentKeepsRange(bar: Bar, actions: seq<Action>, closes: seq<Close>, policy: Policy)
    requires StepsOf(actions, closes, policy).Ok? && InRange(bar)
    ensures InRange(AdjustedBy(bar, SortSteps(StepsOf(actions, closes, policy).value)))
  {
    var steps := SortSteps(StepsOf(actions, closes, policy).value);
    SortedAreGood(actions, closes, policy, bar.date);
    ScaledKeepsRange(bar, PriceAfter(steps, bar.date), VolumeAfter(steps, bar.date));
  }

  lemma InverseKeepsProduct(x: real, y: real, p: real, v: real)
    requires Times(p, v) == 1.0
    ensures Times(Times(x, p), Times(y, v)) == Times(x, y)
  {
    Interchange(x, p, y, v);
  }

  /** Adjusted for ratios alone, a bar keeps the value traded: adjusted close times volume is what it was. */
  lemma PricePolicyKeepsTurnover(bar: Bar, actions: seq<Action>, closes: seq<Close>)
    requires StepsOf(actions, closes, Price).Ok? && bar.volume.Some?
    ensures var adjusted := AdjustedBy(bar, SortSteps(StepsOf(actions, closes, Price).value));
            adjusted.volume.Some? && Times(adjusted.close, adjusted.volume.value) == Times(bar.close, bar.volume.value)
  {
    var steps := SortSteps(StepsOf(actions, closes, Price).value);
    SortedAreGood(actions, closes, Price, bar.date);
    InverseKeepsProduct(bar.close, bar.volume.value, PriceAfter(steps, bar.date), VolumeAfter(steps, bar.date));
  }
}
