/**
 * How the total-return index grows, said of the bars and the actions alone: from bar to bar in the proportion of
 * the close and the cash paid in between to the close before.
 */
module TotalReturnLaws {
  import opened Util
  import opened CorporateActions
  import opened TotalReturn

  // ---------------------------------------------------------------- closes and payments

  predicate Pays(a: Action) {
    && a.status in {Announced, Confirmed, Paid} && a.caType in {CashDividend, SpecialDividend, CapitalReturn}
  }

  /** The close of a bar on the split basis. */
  function CloseAt(bars: seq<Bar>, steps: seq<Step>, i: nat): real
    requires i < |bars|
  {
    Times(bars[i].close, PriceAfter(steps, bars[i].date))
  }

  /** What is paid after one date and not after another, each payment on the split basis of its ex-date. */
  function PaidBetween(steps: seq<Step>, actions: seq<Action>, after: Date, upTo: Date): real {
    if actions == [] then 0.0
    else
      var a := actions[|actions| - 1];
      PaidBetween(steps, actions[..|actions| - 1], after, upTo)
      + if Pays(a) && after < a.exDate <= upTo && a.amount.Some?
        then Times(a.amount.value, PriceAfter(steps, a.exDate)) else 0.0
  }

  lemma PaysIs(a: Action)
    ensures Pays(a) <==> IsPayment(a)
  {
  }

  /** The cash of a bar is what is paid after the bar before it and not after it. */
  lemma {:induction false} CashIsPaid(bars: seq<Bar>, steps: seq<Step>, actions: seq<Action>, i: nat)
    requires BarsAscend(bars) && 0 < i < |bars| && CashOf(bars, steps, actions).Ok?
    ensures CashOf(bars, steps, actions).value[i] == PaidBetween(steps, actions, bars[i - 1].date, bars[i].date)
  {
    if actions != [] {
      var n := |actions| - 1;
      CashIsPaid(bars, steps, actions[..n], i);
      PaysIs(actions[n]);
      CreditedHere(bars, actions[n].exDate, i);
    }
  }

  lemma CreditedHere(bars: seq<Bar>, exDate: Date, i: nat)
    requires BarsAscend(bars) && 0 < i < |bars|
    ensures CreditBar(bars, exDate) == i <==> bars[i - 1].date < exDate <= bars[i].date
  {
  }

  // ---------------------------------------------------------------- growth

  lemma GrowIs(value: real, close: real, cash: real, prev: real)
    requires prev > 0.0
    ensures Times(Grow(value, close, cash, prev), prev) == Times(value, close + cash)
  {
  }

  lemma {:induction false} PointsGrow(bars: seq<Bar>, closes: seq<real>, cash: seq<real>, first: real, n: nat, i: nat)
    requires |closes| == |cash| == |bars| && 0 < i < n <= |bars| && Points(bars, closes, cash, first, n).Ok?
    ensures var points := Points(bars, closes, cash, first, n).value;
            && closes[i - 1] > 0.0 && points[i].date == bars[i].date
            && Times(points[i].value, closes[i - 1]) == Times(points[i - 1].value, closes[i] + cash[i])
  {
    if i < n - 1 {
      PointsGrow(bars, closes, cash, first, n - 1, i);
    } else {
      GrowIs(Points(bars, closes, cash, first, n - 1).value[n - 2].value, closes[i], cash[i], closes[i - 1]);
    }
  }

  /** The first point is the base, or the first close as quoted. */
  lemma StartsAtBase(bars: seq<Bar>, actions: seq<Action>, base: Option<real>)
    requires bars != [] && IndexOf(bars, actions, base).Ok?
    ensures StepsOf(actions, [], Price).Ok? && |IndexOf(bars, actions, base).value| == |bars|
    ensures IndexOf(bars, actions, base).value[0]
         == Point(bars[0].date, if base.Some? then base.value else bars[0].close)
  {
    var steps := StepsOf(actions, [], Price).value;
    var closes, cash := AdjustedCloses(bars, steps), CashOf(bars, steps, actions).value;
    FirstPoint(bars, closes, cash, First(bars, base), |bars|);
    FirstDate(bars, closes, cash, First(bars, base), |bars|);
  }

  /** `v` is on a date, and grows from `u` by a close and what was paid over the close before. */
  predicate Grows(u: Point, v: Point, date: Date, before: real, close: real, paid: real) {
    v.date == date && before > 0.0 && Times(v.value, before) == Times(u.value, close + paid)
  }

  /** Each value times the close before it is the value before it times the close and what was paid in between. */
  lemma GrowsByPayments(bars: seq<Bar>, actions: seq<Action>, base: Option<real>, i: nat)
    requires 0 < i < |bars| && BarsAscend(bars) && IndexOf(bars, actions, base).Ok?
    ensures StepsOf(actions, [], Price).Ok? && |IndexOf(bars, actions, base).value| == |bars|
    ensures var points, steps := IndexOf(bars, actions, base).value, StepsOf(actions, [], Price).value;
            Grows(points[i - 1], points[i], bars[i].date, CloseAt(bars, steps, i - 1), CloseAt(bars, steps, i),
                  PaidBetween(steps, actions, bars[i - 1].date, bars[i].date))
  {
    var steps := StepsOf(actions, [], Price).value;
    var closes, cash := AdjustedCloses(bars, steps), CashOf(bars, steps, actions).value;
    PointsGrow(bars, closes, cash, First(bars, base), |bars|, i);
    CashIsPaid(bars, steps, actions, i);
  }

  lemma {:induction false} FirstDate(bars: seq<Bar>, closes: seq<real>, cash: seq<real>, first: real, n: nat)
    requires |closes| == |cash| == |bars| && 1 <= n <= |bars| && Points(bars, closes, cash, first, n).Ok?
    ensures Points(bars, closes, cash, first, n).value[0].date == bars[0].date
  {
    if n > 1 {
      FirstDate(bars, closes, cash, first, n - 1);
    }
  }

  // ---------------------------------------------------------------- against the price alone

  ghost predicate SomethingPaid(actions: seq<Action>, after: Date, upTo: Date) {
    exists a :: a in actions && Pays(a) && after < a.exDate <= upTo
  }

  /** What is paid is never negative, and positive exactly when something is paid. */
  lemma {:induction false} PaidIsPositive(bars: seq<Bar>, steps: seq<Step>, actions: seq<Action>, after: Date,
                                          upTo: Date)
    requires GoodSteps(steps, true) && CashOf(bars, steps, actions).Ok?
    ensures var paid := PaidBetween(steps, actions, after, upTo);
            paid >= 0.0 && (paid > 0.0 <==> SomethingPaid(actions, after, upTo))
  {
    if actions != [] {
      var n := |actions| - 1;
      var a := actions[n];
      PaidIsPositive(bars, steps, actions[..n], after, upTo);
      PaysIs(a);
      assert actions == actions[..n] + [a];
      ProductsAreGood(steps, true, a.exDate);
      if Pays(a) {
        assert Positive(a.amount);
        PositiveProduct(a.amount.value, PriceAfter(steps, a.exDate));
      }
    }
  }

  lemma PositiveProduct(a: real, b: real)
    requires a > 0.0 && b > 0.0
    ensures Times(a, b) > 0.0
  {
  }

  lemma SomethingInTwo(actions: seq<Action>, after: Date, middle: Date, upTo: Date)
    requires after <= middle <= upTo
    ensures SomethingPaid(actions, after, upTo)
       <==> SomethingPaid(actions, after, middle) || SomethingPaid(actions, middle, upTo)
  {
    if a :| a in actions && Pays(a) && after < a.exDate <= upTo {
      assert a.exDate <= middle || middle < a.exDate;
    }
  }

  /**
   * `v` grows from `u` by the close `c` and the cash `d` over the close `b`; how far the index is ahead of the price,
   * which was `a` when the index was `first`, never falls behind, and moves ahead by what is paid.
   */
  lemma Ahead(first: real, a: real, u: real, b: real, v: real, c: real, d: real)
    requires a > 0.0 && b > 0.0 && c > 0.0 && d >= 0.0 && u > 0.0
    requires Times(v, b) == Times(u, c + d) && Times(u, a) >= Times(first, b)
    ensures v > 0.0
    ensures Times(v, a) >= Times(first, c)
    ensures Times(v, a) > Times(first, c) <==> Times(u, a) > Times(first, b) || d > 0.0
  {
    var lead, now := u * a - first * b, v * a - first * c;
    assert now * b == lead * c + (u * a) * d by {
      AheadBy(first, a, u, b, v, c, d);
    }
    PositiveProduct(u, c + d);
    PositiveProduct(u, a);
    SignOfQuotient(v, b, u * (c + d));
    Signs(now, b, lead, c, u * a, d);
  }

  lemma AheadBy(first: real, a: real, u: real, b: real, v: real, c: real, d: real)
    requires Times(v, b) == Times(u, c + d)
    ensures (v * a - first * c) * b == (u * a - first * b) * c + (u * a) * d
  {
    assert v * b == u * c + u * d;
    assert (v * a) * b == (v * b) * a;
  }

  lemma SignOfQuotient(v: real, b: real, p: real)
    requires b > 0.0 && v * b == p && p > 0.0
    ensures v > 0.0
  {
  }

  lemma Signs(now: real, b: real, lead: real, c: real, w: real, d: real)
    requires b > 0.0 && c > 0.0 && w > 0.0 && lead >= 0.0 && d >= 0.0 && now * b == lead * c + w * d
    ensures now >= 0.0 && (now > 0.0 <==> lead > 0.0 || d > 0.0)
  {
    assert lead * c >= 0.0 && (lead > 0.0 ==> lead * c > 0.0);
    assert w * d >= 0.0 && (d > 0.0 ==> w * d > 0.0);
  }

  /** How far the index is ahead of the price: at least level, and ahead exactly when something was paid. */
  ghost predicate IsAhead(first: real, start: real, value: real, close: real, paid: bool) {
    && value > 0.0 && Times(value, start) >= Times(first, close)
    && (Times(value, start) > Times(first, close) <==> paid)
  }

  lemma AheadStep(first: real, start: real, u: Point, v: Point, date: Date, before: real, close: real, paid: real,
                  was: bool, now: bool)
    requires start > 0.0 && close > 0.0 && paid >= 0.0 && Grows(u, v, date, before, close, paid)
    requires IsAhead(first, start, u.value, before, was) && (now <==> was || paid > 0.0)
    ensures IsAhead(first, start, v.value, close, now)
  {
    Ahead(first, start, u.value, before, v.value, close, paid);
  }

  lemma PositiveClose(bars: seq<Bar>, actions: seq<Action>, steps: seq<Step>, i: nat)
    requires i < |bars| && StepsOf(actions, [], Price) == Ok(steps)
    ensures bars[i].close > 0.0 <==> CloseAt(bars, steps, i) > 0.0
    ensures GoodSteps(steps, true)
  {
    StepsAreGood(actions, [], Price);
    ProductsAreGood(steps, true, bars[i].date);
    if bars[i].close > 0.0 {
      PositiveProduct(bars[i].close, PriceAfter(steps, bars[i].date));
    }
    if CloseAt(bars, steps, i) > 0.0 {
      PositiveFactor(bars[i].close, PriceAfter(steps, bars[i].date));
    }
  }

  /** From a positive start the index never falls behind the price, and is ahead exactly once something was paid. */
  lemma {:induction false} AheadWhenPaid(bars: seq<Bar>, actions: seq<Action>, base: Option<real>, i: nat)
    requires i < |bars| && BarsAscend(bars) && IndexOf(bars, actions, base).Ok?
    requires First(bars, base) > 0.0 && bars[0].close > 0.0 && bars[i].close > 0.0
    ensures StepsOf(actions, [], Price).Ok? && |IndexOf(bars, actions, base).value| == |bars|
    ensures var points, steps := IndexOf(bars, actions, base).value, StepsOf(actions, [], Price).value;
            IsAhead(points[0].value, CloseAt(bars, steps, 0), points[i].value, CloseAt(bars, steps, i),
                    SomethingPaid(actions, bars[0].date, bars[i].date))
    decreases i
  {
    var steps := StepsOf(actions, [], Price).value;
    StartsAtBase(bars, actions, base);
    var points := IndexOf(bars, actions, base).value;
    if i > 0 {
      GrowsByPayments(bars, actions, base, i);
      PositiveClose(bars, actions, steps, 0);
      PositiveClose(bars, actions, steps, i - 1);
      PositiveClose(bars, actions, steps, i);
      AheadWhenPaid(bars, actions, base, i - 1);
      PaidIsPositive(bars, steps, actions, bars[i - 1].date, bars[i].date);
      SomethingInTwo(actions, bars[0].date, bars[i - 1].date, bars[i].date);
      AheadStep(points[0].value, CloseAt(bars, steps, 0), points[i - 1], points[i], bars[i].date,
                CloseAt(bars, steps, i - 1), CloseAt(bars, steps, i),
                PaidBetween(steps, actions, bars[i - 1].date, bars[i].date),
                SomethingPaid(actions, bars[0].date, bars[i - 1].date),
                SomethingPaid(actions, bars[0].date, bars[i].date));
    } else {
      PositiveClose(bars, actions, steps, 0);
    }
  }

  lemma PositiveFactor(x: real, f: real)
    requires f > 0.0 && Times(x, f) > 0.0
    ensures x > 0.0
  {
  }

  // ---------------------------------------------------------------- bars in order

  /** The bars of one date, in their order. */
  function BarsOn(bars: seq<Bar>, date: Date): seq<Bar> {
    if bars == [] then []
    else
      var last := bars[|bars| - 1];
      BarsOn(bars[..|bars| - 1], date) + if last.date == date then [last] else []
  }

  lemma {:induction false} InsertBarOn(bars: seq<Bar>, x: Bar, date: Date)
    requires BarsAscend(bars)
    ensures BarsOn(InsertBar(bars, x), date) == BarsOn(bars, date) + if x.date == date then [x] else []
  {
    if bars == [] || bars[|bars| - 1].date <= x.date {
      assert (bars + [x])[..|bars|] == bars;
    } else {
      var n := |bars| - 1;
      InsertBarOn(bars[..n], x, date);
      var front := InsertBar(bars[..n], x);
      assert (front + [bars[n]])[..|front|] == front;
    }
  }

  /** The index is of the bars in ascending order, those of one date in the order given. */
  lemma {:induction false} BarsSortStably(bars: seq<Bar>, date: Date)
    ensures BarsAscend(SortBars(bars))
    ensures BarsOn(SortBars(bars), date) == BarsOn(bars, date)
  {
    SortBarsAscend(bars);
    if bars != [] {
      var n := |bars| - 1;
      BarsSortStably(bars[..n], date);
      SortBarsAscend(bars[..n]);
      InsertBarOn(SortBars(bars[..n]), bars[n], date);
    }
  }

  /** Closes of 100 and 100 with 2.00 paid on the second bar's date: 100, 102. */
  lemma TwoOnAHundred(bars: seq<Bar>, dividend: Action)
    requires |bars| == 2 && bars[0].date < bars[1].date && bars[0].close == bars[1].close == 100.0
    requires dividend.caType == CashDividend && dividend.status == Paid && dividend.amount == Some(2.0)
    requires dividend.exDate == bars[1].date
    ensures TotalReturnOf(bars, [dividend], None) == Ok([Point(bars[0].date, 100.0), Point(bars[1].date, 102.0)])
  {
    SortedAlready(bars);
    OneDividend(bars, dividend);
    var closes, cash := AdjustedCloses(bars, []), CashOf(bars, [], [dividend]).value;
    TwoPoints(bars, closes, cash);
    assert First(bars, None) == 100.0;
    assert IndexWith(bars, [], [dividend], None) == Points(bars, closes, cash, 100.0, 2);
  }

  lemma TwoPoints(bars: seq<Bar>, closes: seq<real>, cash: seq<real>)
    requires |bars| == |closes| == |cash| == 2 && closes[0] == closes[1] == 100.0 && cash[1] == 2.0
    ensures Points(bars, closes, cash, 100.0, 2) == Ok([Point(bars[0].date, 100.0), Point(bars[1].date, 102.0)])
  {
    var first := Points(bars, closes, cash, 100.0, 1);
    assert first == Ok([Point(bars[0].date, 100.0)]);
    assert Grow(100.0, 100.0, 2.0, 100.0) == 102.0;
    assert first.value + [Point(bars[1].date, 102.0)] == [Point(bars[0].date, 100.0), Point(bars[1].date, 102.0)];
  }

  /** No step, and all the cash on the second bar. */
  lemma OneDividend(bars: seq<Bar>, dividend: Action)
    requires |bars| == 2 && bars[0].date < bars[1].date && bars[0].close == bars[1].close == 100.0
    requires dividend.caType == CashDividend && dividend.status == Paid && dividend.amount == Some(2.0)
    requires dividend.exDate == bars[1].date
    ensures StepsOf([dividend], [], Price) == Ok([])
    ensures CashOf(bars, [], [dividend]).Ok? && CashOf(bars, [], [dividend]).value[1] == 2.0
    ensures forall i :: 0 <= i < 2 ==> AdjustedCloses(bars, [])[i] == 100.0
  {
    var actions := [dividend];
    var none: seq<Step> := [];
    assert actions[..0] == [] && none + [] == none;
    assert StepOf(dividend, [], Price) == Ok(None);
    assert CashOf(bars, [], actions[..0]).Ok?;
    CashIsPaid(bars, [], actions, 1);
    assert PaidBetween([], actions[..0], bars[0].date, bars[1].date) == 0.0;
  }

  lemma SortedAlready(bars: seq<Bar>)
    requires |bars| == 2 && bars[0].date <= bars[1].date
    ensures SortBars(bars) == bars
  {
    assert bars[..1][..0] == [] && bars == ([] + [bars[0]]) + [bars[1]];
    assert SortBars(bars[..1]) == [bars[0]];
  }
}
