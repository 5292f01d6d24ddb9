/**
 * What the steps of an adjustment are, said of the actions: which actions make one, what equation each factor
 * solves, the order they come in, and which action is to blame when there are none.
 */
module AdjustmentLaws {
  import opened Util
  import opened CorporateActions

  // ---------------------------------------------------------------- which actions count

  predicate ActsByRatio(a: Action) {
    && a.status in {Announced, Confirmed, Paid}
    && a.caType in {Split, ReverseSplit, StockDividend, Rights}
  }

  predicate ActsByCash(a: Action, policy: Policy) {
    && policy == TotalReturnPolicy && a.status in {Announced, Confirmed, Paid}
    && a.caType in {CashDividend, SpecialDividend, CapitalReturn}
  }

  predicate Acts(a: Action, policy: Policy) {
    ActsByRatio(a) || ActsByCash(a, policy)
  }

  /** The actions that make a step, in their order. */
  function Acting(actions: seq<Action>, policy: Policy): seq<Action> {
    if actions == [] then []
    else if Acts(actions[0], policy) then [actions[0]] + Acting(actions[1..], policy)
    else Acting(actions[1..], policy)
  }

  /** The row whose close is the last before a date, the first of its own date. */
  ghost predicate IsPriorRow(closes: seq<Close>, exDate: Date, k: nat) {
    && k < |closes| && closes[k].date < exDate
    && (forall j :: 0 <= j < |closes| && closes[j].date < exDate ==> closes[j].date <= closes[k].date)
    && forall j :: 0 <= j < k ==> closes[j].date != closes[k].date
  }

  // ---------------------------------------------------------------- the step of one action

  /** The new shares times the price factor are the old shares, and the other way round for volume. */
  predicate IsRatioStep(s: Step, a: Action) {
    && Positive(a.ratioNew) && Positive(a.ratioOld)
    && s.beforeDate == a.exDate && s.kind == SplitStep
    && Times(s.priceFactor, a.ratioNew.value) == a.ratioOld.value
    && Times(s.volumeFactor, a.ratioOld.value) == a.ratioNew.value
  }

  /** The prior close times the price factor is that close less the amount paid; volume stays. */
  predicate IsCashStep(s: Step, a: Action, priorClose: real) {
    && Positive(a.amount) && a.amount.value < priorClose
    && s.beforeDate == a.exDate && s.kind == (if a.caType == CapitalReturn then CapitalReturnStep else DividendStep)
    && Times(s.priceFactor, priorClose) == priorClose - a.amount.value && s.volumeFactor == 1.0
  }

  ghost predicate IsStepFor(s: Step, a: Action, closes: seq<Close>) {
    if a.caType in {Split, ReverseSplit, StockDividend, Rights} then IsRatioStep(s, a)
    else exists k: nat :: IsPriorRow(closes, a.exDate, k) && IsCashStep(s, a, closes[k].close)
  }

  lemma RatioFactors(x: real, y: real)
    requires x > 0.0 && y > 0.0
    ensures y / x > 0.0 && Times(y / x, x) == y && Times(1.0 / (y / x), y) == x
  {
    var f := y / x;
    assert f * x == y;
    var g := 1.0 / f;
    assert g * f == 1.0;
    assert g * (f * x) == (g * f) * x;
  }

  lemma CashFactor(amount: real, prior: real)
    requires prior > 0.0
    ensures Times(1.0 - amount / prior, prior) == prior - amount
  {
    var q := amount / prior;
    assert q * prior == amount;
  }

  lemma ActsAre(a: Action, policy: Policy)
    ensures ActsByRatio(a) <==> Applied(a.status) && IsRatio(a.caType)
    ensures ActsByCash(a, policy) <==> policy == TotalReturnPolicy && Applied(a.status) && IsCash(a.caType)
    ensures a.caType in {Split, ReverseSplit, StockDividend, Rights} <==> IsRatio(a.caType)
  {
  }

  lemma RatioStep(a: Action, closes: seq<Close>, policy: Policy)
    requires Applied(a.status) && IsRatio(a.caType) && StepOf(a, closes, policy).Ok?
    ensures var s := StepOf(a, closes, policy).value; s.Some? && IsRatioStep(s.value, a)
  {
    RatioFactors(a.ratioNew.value, a.ratioOld.value);
  }

  lemma CashStep(a: Action, closes: seq<Close>)
    requires Applied(a.status) && !IsRatio(a.caType) && IsCash(a.caType) && StepOf(a, closes, TotalReturnPolicy).Ok?
    ensures var s, k := StepOf(a, closes, TotalReturnPolicy).value, PriorRow(closes, a.exDate);
            s.Some? && k.Some? && IsPriorRow(closes, a.exDate, k.value) && IsCashStep(s.value, a, closes[k.value].close)
  {
    PriorRowIsLatest(closes, a.exDate);
    CashFactor(a.amount.value, closes[PriorRow(closes, a.exDate).value].close);
  }

  /** An action makes its step exactly when it acts. */
  lemma OneStep(a: Action, closes: seq<Close>, policy: Policy)
    requires policy != Unadjusted && StepOf(a, closes, policy).Ok?
    ensures var s := StepOf(a, closes, policy).value;
            (s.Some? <==> Acts(a, policy)) && (s.Some? ==> IsStepFor(s.value, a, closes))
  {
    ActsAre(a, policy);
    if Applied(a.status) && IsRatio(a.caType) {
      RatioStep(a, closes, policy);
    } else if ActsByCash(a, policy) {
      CashStep(a, closes);
    }
  }

  lemma {:induction false} ActingNext(front: seq<Action>, a: Action, policy: Policy)
    ensures Acting(front + [a], policy) == Acting(front, policy) + if Acts(a, policy) then [a] else []
  {
    if front == [] {
      assert front + [a] == [a];
    } else {
      assert (front + [a])[1..] == front[1..] + [a];
      ActingNext(front[1..], a, policy);
    }
  }

  /** Every action that acts makes exactly one step, the one that solves its equations; no other makes any. */
  lemma {:induction false} StepsAreOfActing(actions: seq<Action>, closes: seq<Close>, policy: Policy)
    requires policy != Unadjusted && StepsOf(actions, closes, policy).Ok?
    ensures var steps, acting := StepsOf(actions, closes, policy).value, Acting(actions, policy);
            |steps| == |acting| && forall i :: 0 <= i < |steps| ==> IsStepFor(steps[i], acting[i], closes)
  {
    if actions != [] {
      var n := |actions| - 1;
      StepsAreOfActing(actions[..n], closes, policy);
      OneStep(actions[n], closes, policy);
      ActingNext(actions[..n], actions[n], policy);
      assert actions == actions[..n] + [actions[n]];
    }
  }

  /** The equations leave one step. */
  lemma StepIsUnique(s: Step, t: Step, a: Action, closes: seq<Close>)
    requires IsStepFor(s, a, closes) && IsStepFor(t, a, closes)
    requires forall k :: 0 <= k < |closes| ==> closes[k].close > 0.0
    ensures s == t
  {
    ActsAre(a, Price);
    if a.caType in {Split, ReverseSplit, StockDividend, Rights} {
      Cancel(s.priceFactor, t.priceFactor, a.ratioNew.value);
      Cancel(s.volumeFactor, t.volumeFactor, a.ratioOld.value);
    } else {
      var k: nat :| IsPriorRow(closes, a.exDate, k) && IsCashStep(s, a, closes[k].close);
      var j: nat :| IsPriorRow(closes, a.exDate, j) && IsCashStep(t, a, closes[j].close);
      assert k == j;
      Cancel(s.priceFactor, t.priceFactor, closes[k].close);
    }
  }

  lemma Cancel(x: real, y: real, z: real)
    requires z != 0.0 && Times(x, z) == Times(y, z)
    ensures x == y
  {
  }

  // ---------------------------------------------------------------- their order

  /** The steps of one date, in their order. */
  function OnDate(steps: seq<Step>, date: Date): seq<Step> {
    if steps == [] then []
    else
      var last := steps[|steps| - 1];
      OnDate(steps[..|steps| - 1], date) + if last.beforeDate == date then [last] else []
  }

  lemma {:induction false} InsertOnDate(steps: seq<Step>, x: Step, date: Date)
    requires Ascending(steps)
    ensures OnDate(InsertStep(steps, x), date) == OnDate(steps, date) + if x.beforeDate == date then [x] else []
  {
    if steps == [] || steps[|steps| - 1].beforeDate <= x.beforeDate {
      assert (steps + [x])[..|steps|] == steps;
    } else {
      var n := |steps| - 1;
      InsertOnDate(steps[..n], x, date);
      var front := InsertStep(steps[..n], x);
      assert (front + [steps[n]])[..|front|] == front;
    }
  }

  /** Sorting puts the steps in ascending order and leaves those of one date in theirs. */
  lemma {:induction false} SortIsStable(steps: seq<Step>, date: Date)
    ensures Ascending(SortSteps(steps))
    ensures OnDate(SortSteps(steps), date) == OnDate(steps, date)
  {
    SortAscends(steps);
    if steps != [] {
      var n := |steps| - 1;
      SortIsStable(steps[..n], date);
      SortAscends(steps[..n]);
      InsertOnDate(SortSteps(steps[..n]), steps[n], date);
    }
  }

  // ---------------------------------------------------------------- failures

  /** What is wrong with an action, if it acts and something is; the prior row is the one of `PriorRowIsLatest`. */
  predicate IsBad(a: Action, closes: seq<Close>, policy: Policy, failure: Failure) {
    if ActsByRatio(a) then failure == BadRatio(a) && !(Positive(a.ratioNew) && Positive(a.ratioOld))
    else if !ActsByCash(a, policy) then false
    else if !Positive(a.amount) then failure == BadAmount(a)
    else
      match PriorRow(closes, a.exDate)
      case None => failure == NoClose(a.exDate)
      case Some(k) => ClosesBadly(a, closes[k].close, failure)
  }

  predicate ClosesBadly(a: Action, close: real, failure: Failure) {
    if close <= 0.0 then failure == BadClose(a.exDate, close)
    else a.amount.Some? && a.amount.value >= close && failure == PaysTooMuch(a, close)
  }

  lemma FailsExactly(a: Action, closes: seq<Close>, policy: Policy, failure: Failure)
    requires policy != Unadjusted
    ensures StepOf(a, closes, policy) == Err(failure) <==> IsBad(a, closes, policy, failure)
  {
    ActsAre(a, policy);
    if Applied(a.status) && !IsRatio(a.caType) && IsCash(a.caType) && policy == TotalReturnPolicy {
      CashFails(a, closes, failure);
    }
  }

  lemma CashFails(a: Action, closes: seq<Close>, failure: Failure)
    requires Applied(a.status) && !IsRatio(a.caType) && IsCash(a.caType)
    ensures StepOf(a, closes, TotalReturnPolicy) == Err(failure) <==> IsBad(a, closes, TotalReturnPolicy, failure)
  {
    ActsAre(a, TotalReturnPolicy);
  }

  /** The action at `k` is bad, and none before it is. */
  ghost predicate BlamedAt(actions: seq<Action>, closes: seq<Close>, policy: Policy, failure: Failure, k: nat) {
    && k < |actions| && IsBad(actions[k], closes, policy, failure)
    && forall j, f :: 0 <= j < k ==> !IsBad(actions[j], closes, policy, f)
  }

  lemma BlamedBefore(actions: seq<Action>, closes: seq<Close>, policy: Policy, failure: Failure, k: nat)
    requires actions != [] && k + 1 < |actions|
    ensures BlamedAt(actions, closes, policy, failure, k)
       <==> BlamedAt(actions[..|actions| - 1], closes, policy, failure, k)
  {
    assert forall j :: 0 <= j <= k ==> actions[..|actions| - 1][j] == actions[j];
  }

  /** The first action that is bad is the one to blame; with none bad there are steps. */
  lemma {:induction false} FirstIsToBlame(actions: seq<Action>, closes: seq<Close>, policy: Policy, failure: Failure)
    requires policy != Unadjusted
    ensures StepsOf(actions, closes, policy) == Err(failure) <==>
              exists k :: BlamedAt(actions, closes, policy, failure, k)
  {
    if actions != [] {
      var n := |actions| - 1;
      var front := StepsOf(actions[..n], closes, policy);
      FirstIsToBlame(actions[..n], closes, policy, failure);
      FailsExactly(actions[n], closes, policy, failure);
      if front.Err? {
        FirstIsToBlame(actions[..n], closes, policy, front.failure);
        var k: nat :| BlamedAt(actions[..n], closes, policy, front.failure, k);
        BlamedBefore(actions, closes, policy, front.failure, k);
        OneBlamed(actions, closes, policy, front.failure, failure, k);
      } else {
        NobodyBlamed(actions, closes, policy, failure);
      }
    }
  }

  /** Once the one to blame is known, another failure is not. */
  lemma OneBlamed(actions: seq<Action>, closes: seq<Close>, policy: Policy, first: Failure, failure: Failure, k: nat)
    requires BlamedAt(actions, closes, policy, first, k) && policy != Unadjusted
    ensures (exists j :: BlamedAt(actions, closes, policy, failure, j)) <==> failure == first
  {
    FailsExactly(actions[k], closes, policy, first);
    FailsExactly(actions[k], closes, policy, failure);
  }

  lemma NobodyBlamed(actions: seq<Action>, closes: seq<Close>, policy: Policy, failure: Failure)
    requires policy != Unadjusted && actions != [] && StepsOf(actions[..|actions| - 1], closes, policy).Ok?
    ensures (exists k :: BlamedAt(actions, closes, policy, failure, k))
       <==> IsBad(actions[|actions| - 1], closes, policy, failure)
  {
    var n := |actions| - 1;
    forall j, f | 0 <= j < n
      ensures !IsBad(actions[j], closes, policy, f)
    {
      AllMakeSteps(actions[..n], closes, policy, j);
      FailsExactly(actions[j], closes, policy, f);
    }
    if IsBad(actions[n], closes, policy, failure) {
      assert BlamedAt(actions, closes, policy, failure, n);
    }
  }

  lemma {:induction false} AllMakeSteps(actions: seq<Action>, closes: seq<Close>, policy: Policy, j: nat)
    requires StepsOf(actions, closes, policy).Ok? && j < |actions|
    ensures StepOf(actions[j], closes, policy).Ok?
  {
    var n := |actions| - 1;
    if j < n {
      AllMakeSteps(actions[..n], closes, policy, j);
    }
  }

  // ---------------------------------------------------------------- adjusted closes

  /** The new and the old shares of the ratio actions after a date, multiplied up. */
  function NewShares(actions: seq<Action>, date: Date): real {
    if actions == [] then 1.0
    else
      var a := actions[|actions| - 1];
      Times(NewShares(actions[..|actions| - 1], date),
            if ActsByRatio(a) && date < a.exDate && a.ratioNew.Some? then a.ratioNew.value else 1.0)
  }

  function OldShares(actions: seq<Action>, date: Date): real {
    if actions == [] then 1.0
    else
      var a := actions[|actions| - 1];
      Times(OldShares(actions[..|actions| - 1], date),
            if ActsByRatio(a) && date < a.exDate && a.ratioOld.Some? then a.ratioOld.value else 1.0)
  }

  lemma OneRatioMore(front: seq<Step>, s: Step, x: real, y: real, newShares: real, oldShares: real, date: Date)
    requires Times(PriceAfter(front, date), x) == y && Times(VolumeAfter(front, date), y) == x
    requires Times(s.priceFactor, newShares) == oldShares && Times(s.volumeFactor, oldShares) == newShares
    ensures var n, o := if date < s.beforeDate then newShares else 1.0, if date < s.beforeDate then oldShares else 1.0;
            && Times(PriceAfter(front + [s], date), Times(x, n)) == Times(y, o)
            && Times(VolumeAfter(front + [s], date), Times(y, o)) == Times(x, n)
  {
    var n := if date < s.beforeDate then newShares else 1.0;
    var o := if date < s.beforeDate then oldShares else 1.0;
    LastFactor(front, s, PriceOn(date));
    LastFactor(front, s, VolumeOn(date));
    Interchange(PriceAfter(front, date), PriceOn(date)(s), x, n);
    Interchange(VolumeAfter(front, date), VolumeOn(date)(s), y, o);
  }

  /** A price factor, times all the new shares after its date, is all the old ones. */
  lemma {:induction false} RatiosAfter(actions: seq<Action>, closes: seq<Close>, date: Date)
    requires StepsOf(actions, closes, Price).Ok?
    ensures Times(PriceAfter(StepsOf(actions, closes, Price).value, date), NewShares(actions, date))
         == OldShares(actions, date)
    ensures Times(VolumeAfter(StepsOf(actions, closes, Price).value, date), OldShares(actions, date))
         == NewShares(actions, date)
  {
    if actions != [] {
      var n := |actions| - 1;
      var front, a := StepsOf(actions[..n], closes, Price).value, actions[n];
      RatiosAfter(actions[..n], closes, date);
      ActsAre(a, Price);
      if Applied(a.status) && IsRatio(a.caType) {
        RatioStep(a, closes, Price);
        var s := StepOf(a, closes, Price).value.value;
        OneRatioMore(front, s, NewShares(actions[..n], date), OldShares(actions[..n], date), a.ratioNew.value,
                     a.ratioOld.value, date);
      } else {
        assert front + [] == front;
        TimesOne(NewShares(actions[..n], date));
        TimesOne(OldShares(actions[..n], date));
      }
    }
  }

  lemma TimesOne(x: real)
    ensures Times(x, 1.0) == x
  {
  }

  /** One price over another is as it was, whatever the steps; what is not there stays so. */
  lemma PricesMoveTogether(bar: Bar, steps: seq<Step>)
    ensures var a := AdjustedBy(bar, steps);
            && a.date == bar.date && a.close == Times(bar.close, PriceAfter(steps, bar.date))
            && Times(a.open, bar.close) == Times(a.close, bar.open)
            && Times(a.high, bar.close) == Times(a.close, bar.high)
            && Times(a.low, bar.close) == Times(a.close, bar.low)
  {
    var f := PriceAfter(steps, bar.date);
    SameProportion(bar.open, bar.close, f);
    SameProportion(bar.high, bar.close, f);
    SameProportion(bar.low, bar.close, f);
  }

  lemma OptionalPrices(bar: Bar, steps: seq<Step>)
    ensures var a := AdjustedBy(bar, steps);
            && (a.vwap.Some? <==> bar.vwap.Some?) && (a.officialClose.Some? <==> bar.officialClose.Some?)
            && (a.volume.Some? <==> bar.volume.Some?)
            && (a.vwap.Some? ==> Times(a.vwap.value, bar.close) == Times(a.close, bar.vwap.value))
            && (a.officialClose.Some? ==>
                  Times(a.officialClose.value, bar.close) == Times(a.close, bar.officialClose.value))
            && (a.volume.Some? ==> a.volume.value == Times(bar.volume.value, VolumeAfter(steps, bar.date)))
  {
    var f := PriceAfter(steps, bar.date);
    if bar.vwap.Some? {
      SameProportion(bar.vwap.value, bar.close, f);
    }
    if bar.officialClose.Some? {
      SameProportion(bar.officialClose.value, bar.close, f);
    }
  }

  lemma SameProportion(x: real, y: real, f: real)
    ensures Times(Times(x, f), y) == Times(Times(y, f), x)
  {
  }

  /** A 2:1 split is a factor of a half on the price and two on the volume of every bar before it and no other. */
  lemma TwoForOne(split: Action, step: Step, date: Date)
    requires split.caType == Split && split.status == Confirmed
    requires split.ratioNew == Some(2.0) && split.ratioOld == Some(1.0)
    requires step == Step(split.exDate, 0.5, 2.0, SplitStep)
    ensures StepOf(split, [], Price) == Ok(Some(step))
    ensures PriceAfter([step], date) == if date < split.exDate then 0.5 else 1.0
    ensures VolumeAfter([step], date) == if date < split.exDate then 2.0 else 1.0
  {
    LastFactor([], step, PriceOn(date));
    LastFactor([], step, VolumeOn(date));
    assert [] + [step] == [step];
  }

  /** 0.50 paid on a close of 50.00 is a factor of 0.99. */
  lemma HalfOnFifty(dividend: Action, before: Close)
    requires dividend.caType == CashDividend && dividend.status == Paid && dividend.amount == Some(0.5)
    requires before.date < dividend.exDate && before.close == 50.0
    ensures StepOf(dividend, [before], TotalReturnPolicy) == Ok(Some(Step(dividend.exDate, 0.99, 1.0, DividendStep)))
    ensures StepOf(dividend, [before], Price) == Ok(None)
  {
    assert [before][..0] == [];
    assert PriorRow([before], dividend.exDate) == Some(0);
    assert 0.5 / 50.0 == 0.01;
  }
}
