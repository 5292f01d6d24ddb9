/**
 * Business-day rolls and steps over an arbitrary test of which days are business days.
 *
 * A date here is its epoch day: `CivilDates` proves the conversion a bijection that keeps order, and
 * `addDays` is addition. A roll that finds nothing within 400 days throws in the source and is `None`.
 */
module BusinessDays {
  import opened Util
  import opened CivilDates

  /** Is this epoch day a business day? */
  type DayTest = int -> bool

  const MAX_ROLL: nat := 400

  datatype Convention = Following | ModifiedFollowing | Preceding | Unadjusted

  // ---------------------------------------------------------------- rolls

  /** The first business day from `day` on, within `tries` days. */
  function RollUp(biz: DayTest, day: int, tries: nat): Option<int>
    decreases tries
  {
    if tries == 0 then None
    else if biz(day) then Some(day)
    else RollUp(biz, day + 1, tries - 1)
  }

  /** The last business day up to `day`, within `tries` days. */
  function RollDown(biz: DayTest, day: int, tries: nat): Option<int>
    decreases tries
  {
    if tries == 0 then None
    else if biz(day) then Some(day)
    else RollDown(biz, day - 1, tries - 1)
  }

  function Next(biz: DayTest, day: int): Option<int> {
    RollUp(biz, day + 1, MAX_ROLL)
  }

  function Previous(biz: DayTest, day: int): Option<int> {
    RollDown(biz, day - 1, MAX_ROLL)
  }

  method NextBusinessDay(biz: DayTest, date: int) returns (r: Option<int>)
    ensures r == Next(biz, date)
  {
    var d := date + 1;
    for i := 0 to MAX_ROLL
      invariant Next(biz, date) == RollUp(biz, d, MAX_ROLL - i)
    {
      if biz(d) { return Some(d); }
      d := d + 1;
    }
    r := None;
  }

  method PreviousBusinessDay(biz: DayTest, date: int) returns (r: Option<int>)
    ensures r == Previous(biz, date)
  {
    var d := date - 1;
    for i := 0 to MAX_ROLL
      invariant Previous(biz, date) == RollDown(biz, d, MAX_ROLL - i)
    {
      if biz(d) { return Some(d); }
      d := d - 1;
    }
    r := None;
  }

  function MonthOf(day: int): int {
    FromEpochDay(day).month
  }

  function Adjust(biz: DayTest, day: int, bdc: Convention): Option<int> {
    if bdc == Unadjusted || biz(day) then Some(day)
    else
      match bdc
      case Preceding => Previous(biz, day)
      case Following => Next(biz, day)
      case ModifiedFollowing =>
        match Next(biz, day)
        case None => None
        case Some(forward) => if MonthOf(forward) == MonthOf(day) then Some(forward) else Previous(biz, day)
  }

  // ---------------------------------------------------------------- months

  function FirstOfMonth(day: int): int {
    day - FromEpochDay(day).day + 1
  }

  function LastOfMonth(day: int): int {
    var d := FromEpochDay(day);
    day - d.day + DaysInMonth(d.year, d.month)
  }

  function AdjustDate(biz: DayTest, day: int, bdc: Convention, endOfMonthRule: bool): Option<int> {
    if endOfMonthRule && bdc != Unadjusted && day == LastOfMonth(day) then Adjust(biz, LastOfMonth(day), Preceding)
    else Adjust(biz, day, bdc)
  }

  function AdjustSchedule(biz: DayTest, dates: seq<int>, bdc: Convention, endOfMonthRule: bool): seq<Option<int>> {
    seq(|dates|, i requires 0 <= i < |dates| => AdjustDate(biz, dates[i], bdc, endOfMonthRule))
  }

  lemma DayWithinMonth(d: IsoDate, day: int)
    requires 1 <= day <= DaysInMonth(d.year, d.month)
    ensures ToEpochDay(Civil(d.year, d.month, day)) == ToEpochDay(d) - d.day + day
  {
  }

  /** A month is an interval of epoch days, of at most 31 of them, and every day in it agrees which. */
  lemma MonthIsInterval(a: int, b: int)
    requires FirstOfMonth(a) <= b <= LastOfMonth(a)
    ensures FirstOfMonth(b) == FirstOfMonth(a) && LastOfMonth(b) == LastOfMonth(a) && MonthOf(b) == MonthOf(a)
  {
    var d := FromEpochDay(a);
    DayRoundTrip(a);
    var e: IsoDate := Civil(d.year, d.month, d.day + b - a);
    DayWithinMonth(d, e.day);
    DateRoundTrip(e);
    assert ToEpochDay(e) == b && FromEpochDay(b) == e;
  }

  lemma MonthBounds(a: int)
    ensures FirstOfMonth(a) <= a <= LastOfMonth(a) < FirstOfMonth(a) + 31
  {
  }

  /** The day after a month is the first of one with another number. */
  lemma MonthAfter(a: int)
    ensures FirstOfMonth(LastOfMonth(a) + 1) == LastOfMonth(a) + 1 && MonthOf(LastOfMonth(a) + 1) != MonthOf(a)
  {
    var d := FromEpochDay(a);
    DayRoundTrip(a);
    var last: IsoDate := Civil(d.year, d.month, DaysInMonth(d.year, d.month));
    var first: IsoDate := Civil(if d.month == 12 then d.year + 1 else d.year, if d.month == 12 then 1 else d.month + 1,
        1);
    DayWithinMonth(d, last.day);
    FirstFollowsLast(last, first);
    FirstIsFirst(first);
    assert LastOfMonth(a) + 1 == ToEpochDay(first);
  }

  lemma FirstIsFirst(first: IsoDate)
    requires first.day == 1
    ensures FirstOfMonth(ToEpochDay(first)) == ToEpochDay(first) && MonthOf(ToEpochDay(first)) == first.month
  {
    DateRoundTrip(first);
  }

  lemma FirstFollowsLast(last: IsoDate, first: IsoDate)
    requires last.day == DaysInMonth(last.year, last.month) && first.day == 1
    requires if last.month == 12 then first.month == 1 && first.year == last.year + 1
             else first.month == last.month + 1 && first.year == last.year
    ensures ToEpochDay(first) == ToEpochDay(last) + 1
  {
    EpochDayIsYearAndDay(last);
    EpochDayIsYearAndDay(first);
    if last.month == 2 {
      YearLengths(last.year - 1);
    } else {
      MonthLengths(MarchMonth(last));
    }
  }

  // ---------------------------------------------------------------- what a roll finds

  /** The first business day of `lo..hi`. */
  predicate FirstIn(biz: DayTest, lo: int, hi: int, m: int) {
    lo <= m <= hi && biz(m) && forall k :: lo <= k < m ==> !biz(k)
  }

  predicate LastIn(biz: DayTest, lo: int, hi: int, m: int) {
    lo <= m <= hi && biz(m) && forall k :: m < k <= hi ==> !biz(k)
  }

  lemma {:induction false} RollUpFinds(biz: DayTest, day: int, tries: nat, m: int)
    requires FirstIn(biz, day, day + tries - 1, m)
    ensures RollUp(biz, day, tries) == Some(m)
    decreases tries
  {
    if day < m {
      RollUpFinds(biz, day + 1, tries - 1, m);
    }
  }

  lemma {:induction false} RollDownFinds(biz: DayTest, day: int, tries: nat, m: int)
    requires LastIn(biz, day - tries + 1, day, m)
    ensures RollDown(biz, day, tries) == Some(m)
    decreases tries
  {
    if m < day {
      RollDownFinds(biz, day - 1, tries - 1, m);
    }
  }

  lemma {:induction false} FirstExists(biz: DayTest, lo: int, hi: int, w: int) returns (m: int)
    requires lo <= w <= hi && biz(w)
    ensures FirstIn(biz, lo, hi, m) && m <= w
    decreases w - lo
  {
    m := lo;
    if !biz(lo) {
      m := FirstExists(biz, lo + 1, hi, w);
    }
  }

  lemma {:induction false} LastExists(biz: DayTest, lo: int, hi: int, w: int) returns (m: int)
    requires lo <= w <= hi && biz(w)
    ensures LastIn(biz, lo, hi, m) && w <= m
    decreases hi - w
  {
    m := hi;
    if !biz(hi) {
      m := LastExists(biz, lo, hi - 1, w);
    }
  }

  /** Some day of `lo..hi` is a business day. */
  ghost predicate Opens(biz: DayTest, lo: int, hi: int) {
    exists w :: lo <= w <= hi && biz(w)
  }

  ghost predicate EveryMonthOpens(biz: DayTest) {
    forall day :: Opens(biz, FirstOfMonth(day), LastOfMonth(day))
  }

  /** `following`: the first business day from the date on. */
  lemma FollowingFinds(biz: DayTest, day: int, hi: int) returns (m: int)
    requires hi <= day + MAX_ROLL && Opens(biz, day, hi)
    ensures FirstIn(biz, day, hi, m) && Adjust(biz, day, Following) == Some(m)
    ensures !biz(day) ==> Next(biz, day) == Some(m)
  {
    var w :| day <= w <= hi && biz(w);
    m := FirstExists(biz, day, hi, w);
    if !biz(day) {
      RollUpFinds(biz, day + 1, MAX_ROLL, m);
    }
  }

  /** `preceding`: the last business day up to the date. */
  lemma PrecedingFinds(biz: DayTest, day: int, lo: int) returns (m: int)
    requires day - MAX_ROLL <= lo && Opens(biz, lo, day)
    ensures LastIn(biz, lo, day, m) && Adjust(biz, day, Preceding) == Some(m)
    ensures !biz(day) ==> Previous(biz, day) == Some(m)
  {
    var w :| lo <= w <= day && biz(w);
    m := LastExists(biz, lo, day, w);
    if !biz(day) {
      RollDownFinds(biz, day - 1, MAX_ROLL, m);
    }
  }

  // ---------------------------------------------------------------- the rolls keep order

  /**
   * `modified_following` within the date's own month: the first business day from the date on, or, when
   * none is left there, the last one of the month.
   */
  lemma ModifiedFinds(biz: DayTest, day: int) returns (m: int)
    requires EveryMonthOpens(biz)
    ensures Adjust(biz, day, ModifiedFollowing) == Some(m)
    ensures var lo, hi := FirstOfMonth(day), LastOfMonth(day);
            FirstIn(biz, day, hi, m) || (!Opens(biz, day, hi) && LastIn(biz, lo, hi, m))
  {
    var lo, hi := FirstOfMonth(day), LastOfMonth(day);
    MonthBounds(day);
    if Opens(biz, day, hi) {
      m := FollowingFinds(biz, day, hi);
      MonthIsInterval(day, m);
    } else {
      assert Opens(biz, lo, hi);
      var w :| lo <= w <= hi && biz(w);
      assert Opens(biz, lo, day);
      m := PrecedingFinds(biz, day, lo);
      NextLeavesMonth(biz, day);
    }
  }

  lemma NextLeavesMonth(biz: DayTest, day: int)
    requires EveryMonthOpens(biz) && !Opens(biz, day, LastOfMonth(day))
    ensures Next(biz, day).Some? && MonthOf(Next(biz, day).value) != MonthOf(day)
  {
    var first := LastOfMonth(day) + 1;
    var last := LastOfMonth(first);
    MonthBounds(day);
    MonthBounds(first);
    MonthAfter(day);
    assert Opens(biz, FirstOfMonth(first), last);
    var w :| first <= w <= last && biz(w);
    assert Opens(biz, day, last);
    var m := FollowingFinds(biz, day, last);
    assert m >= first by {
      if m < first {
        assert Opens(biz, day, LastOfMonth(day));
      }
    }
    MonthIsInterval(first, m);
  }

  /** Where every month has a business day, `modified_following` keeps the order of dates. */
  lemma ModifiedFollowingKeepsOrder(biz: DayTest, a: int, b: int)
    requires EveryMonthOpens(biz) && a <= b
    ensures Adjust(biz, a, ModifiedFollowing).Some? && Adjust(biz, b, ModifiedFollowing).Some?
    ensures Adjust(biz, a, ModifiedFollowing).value <= Adjust(biz, b, ModifiedFollowing).value
  {
    var m := ModifiedFinds(biz, a);
    var n := ModifiedFinds(biz, b);
    MonthBounds(a);
    MonthBounds(b);
    if b <= LastOfMonth(a) {
      MonthIsInterval(a, b);
    } else {
      MonthsDoNotOverlap(a, b);
    }
  }

  lemma MonthsDoNotOverlap(a: int, b: int)
    requires LastOfMonth(a) < b
    ensures LastOfMonth(a) < FirstOfMonth(b)
  {
    if FirstOfMonth(b) <= LastOfMonth(a) {
      MonthBounds(b);
      MonthIsInterval(b, LastOfMonth(a));
      MonthBounds(a);
      MonthIsInterval(a, LastOfMonth(a));
    }
  }

  lemma PrecedingKeepsOrder(biz: DayTest, a: int, b: int)
    requires EveryMonthOpens(biz) && a <= b
    ensures Adjust(biz, a, Preceding).Some? && Adjust(biz, b, Preceding).Some?
    ensures Adjust(biz, a, Preceding).value <= Adjust(biz, b, Preceding).value
  {
    var m := PrecedingSomewhere(biz, a);
    var n := PrecedingSomewhere(biz, b);
  }

  /** The month before always has a business day, close enough for the roll to reach. */
  lemma PrecedingSomewhere(biz: DayTest, day: int) returns (m: int)
    requires EveryMonthOpens(biz)
    ensures Adjust(biz, day, Preceding) == Some(m) && m <= day && biz(m) && forall k :: m < k <= day ==> !biz(k)
  {
    var before := FirstOfMonth(day) - 1;
    MonthBefore(day);
    MonthBounds(day);
    MonthBounds(before);
    assert Opens(biz, FirstOfMonth(before), LastOfMonth(before));
    OpensMore(biz, FirstOfMonth(before), LastOfMonth(before), day);
    m := PrecedingFinds(biz, day, FirstOfMonth(before));
  }

  lemma OpensMore(biz: DayTest, lo: int, hi: int, more: int)
    requires Opens(biz, lo, hi) && hi <= more
    ensures Opens(biz, lo, more)
  {
    var w :| lo <= w <= hi && biz(w);
  }

  /** The day before a month's first is the last of its own month. */
  lemma MonthBefore(day: int)
    ensures LastOfMonth(FirstOfMonth(day) - 1) == FirstOfMonth(day) - 1
  {
    var before := FirstOfMonth(day) - 1;
    MonthBounds(day);
    MonthBounds(before);
    if LastOfMonth(before) > before {
      MonthIsInterval(before, before + 1);
      MonthIsInterval(day, before + 1);
    }
  }

  /** The end-of-month rule changes nothing under these two conventions. */
  lemma EndOfMonthIsRedundant(biz: DayTest, day: int, bdc: Convention)
    requires EveryMonthOpens(biz) && (bdc == ModifiedFollowing || bdc == Preceding)
    ensures AdjustDate(biz, day, bdc, true) == Adjust(biz, day, bdc)
  {
    if day == LastOfMonth(day) && bdc == ModifiedFollowing {
      var m := ModifiedFinds(biz, day);
      var n := PrecedingSomewhere(biz, day);
      MonthBounds(day);
      if !biz(day) {
        assert !Opens(biz, day, day);
        assert LastIn(biz, FirstOfMonth(day), day, m);
      }
    }
  }

  /** Schedules keep their order, with the end-of-month rule or without it. */
  lemma ScheduleKeepsOrder(biz: DayTest, dates: seq<int>, bdc: Convention, endOfMonthRule: bool)
    requires EveryMonthOpens(biz) && (bdc == ModifiedFollowing || bdc == Preceding)
    requires forall i, j :: 0 <= i <= j < |dates| ==> dates[i] <= dates[j]
    ensures var out := AdjustSchedule(biz, dates, bdc, endOfMonthRule);
            && (forall i :: 0 <= i < |out| ==> out[i].Some?)
            && (forall i, j :: 0 <= i <= j < |out| ==> out[i].value <= out[j].value)
  {
    var out := AdjustSchedule(biz, dates, bdc, endOfMonthRule);
    forall i, j | 0 <= i <= j < |out|
      ensures out[i].Some? && out[j].Some? && out[i].value <= out[j].value
    {
      EndOfMonthIsRedundant(biz, dates[i], bdc);
      EndOfMonthIsRedundant(biz, dates[j], bdc);
      if bdc == Preceding {
        PrecedingKeepsOrder(biz, dates[i], dates[j]);
      } else {
        ModifiedFollowingKeepsOrder(biz, dates[i], dates[j]);
      }
    }
  }

  lemma FollowingSomewhere(biz: DayTest, day: int) returns (m: int)
    requires EveryMonthOpens(biz)
    ensures Adjust(biz, day, Following) == Some(m) && m >= day && biz(m) && forall k :: day <= k < m ==> !biz(k)
  {
    var after := LastOfMonth(day) + 1;
    MonthBounds(day);
    MonthBounds(after);
    MonthAfter(day);
    assert Opens(biz, FirstOfMonth(after), LastOfMonth(after));
    var w :| FirstOfMonth(after) <= w <= LastOfMonth(after) && biz(w);
    assert Opens(biz, day, LastOfMonth(after));
    m := FollowingFinds(biz, day, LastOfMonth(after));
  }

  /**
   * `following` with the end-of-month rule breaks the order of two dates exactly when the later one is a
   * month end, the earlier one is in the same month and is not, and no business day lies between them.
   */
  lemma FollowingWithEndOfMonthBreaksOrder(biz: DayTest, a: int, b: int)
    requires EveryMonthOpens(biz) && a <= b
    ensures AdjustDate(biz, a, Following, true).Some? && AdjustDate(biz, b, Following, true).Some?
    ensures AdjustDate(biz, a, Following, true).value > AdjustDate(biz, b, Following, true).value
       <==> a < LastOfMonth(a) == b && !Opens(biz, a, b)
  {
    MonthBounds(a);
    MonthBounds(b);
    if b <= LastOfMonth(a) {
      MonthIsInterval(a, b);
    } else {
      MonthsDoNotOverlap(a, b);
    }
    var fa := FollowingSomewhere(biz, a);
    var fb := FollowingSomewhere(biz, b);
    var pa := PrecedingSomewhere(biz, a);
    var pb := PrecedingSomewhere(biz, b);
    if b == LastOfMonth(b) && a != LastOfMonth(a) && LastOfMonth(a) < b {
      MonthHasOne(biz, b, pb);
      FollowingWithinTwo(biz, a, b, fa, pb);
    }
  }

  lemma MonthHasOne(biz: DayTest, b: int, pb: int)
    requires EveryMonthOpens(biz) && b == LastOfMonth(b)
    requires pb <= b && biz(pb) && forall k :: pb < k <= b ==> !biz(k)
    ensures FirstOfMonth(b) <= pb
  {
    assert Opens(biz, FirstOfMonth(b), LastOfMonth(b));
  }

  lemma FollowingWithinTwo(biz: DayTest, a: int, b: int, fa: int, pb: int)
    requires LastOfMonth(a) < b && FirstOfMonth(b) <= pb && biz(pb) && forall k :: a <= k < fa ==> !biz(k)
    requires a <= LastOfMonth(a)
    ensures fa <= pb
  {
    MonthsDoNotOverlap(a, b);
  }

  // ---------------------------------------------------------------- stepping and counting

  /** Business days of `lo..hi`, `hi` excluded. */
  function Count(biz: DayTest, lo: int, hi: int): nat
    decreases hi - lo
  {
    if hi <= lo then 0 else Count(biz, lo, hi - 1) + (if biz(hi - 1) then 1 else 0)
  }

  /** `r` is the `n`th business day after `date`. */
  ghost predicate NthAfter(biz: DayTest, date: int, n: nat, r: int) {
    date < r && biz(r) && Count(biz, date + 1, r + 1) == n
  }

  /** `r` is the `n`th business day before `date`. */
  ghost predicate NthBefore(biz: DayTest, date: int, n: nat, r: int) {
    r < date && biz(r) && Count(biz, r, date) == n
  }

  lemma {:induction false} CountSplits(biz: DayTest, lo: int, mid: int, hi: int)
    requires lo <= mid <= hi
    ensures Count(biz, lo, hi) == Count(biz, lo, mid) + Count(biz, mid, hi)
    decreases hi - mid
  {
    if mid < hi {
      CountSplits(biz, lo, mid, hi - 1);
    }
  }

  lemma CountOne(biz: DayTest, day: int)
    ensures Count(biz, day, day + 1) == if biz(day) then 1 else 0
  {
    assert Count(biz, day, day) == 0;
  }

  /** `r` is `n` business days from `date`, in the direction of `n`. */
  ghost predicate NthThatWay(biz: DayTest, date: int, n: int, r: int) {
    if n > 0 then NthAfter(biz, date, n, r) else n < 0 && NthBefore(biz, date, -n, r)
  }

  /** There is such a day. */
  ghost predicate Reachable(biz: DayTest, date: int, n: int) {
    n == 0 || exists r :: NthThatWay(biz, date, n, r)
  }

  /** There are `n` business days after the date and before `hi`, or as many from `hi` on and before the date. */
  predicate Enough(biz: DayTest, date: int, n: int, hi: int) {
    if n > 0 then Count(biz, date + 1, hi) >= n else Count(biz, hi, date) >= -n
  }

  lemma {:induction false} NthIsAfter(biz: DayTest, date: int, n: nat, hi: int) returns (r: int)
    requires n > 0 && Count(biz, date + 1, hi) >= n
    ensures NthAfter(biz, date, n, r)
    decreases hi - date
  {
    r := hi - 1;
    if Count(biz, date + 1, hi - 1) >= n {
      r := NthIsAfter(biz, date, n, hi - 1);
    }
  }

  lemma {:induction false} NthIsBefore(biz: DayTest, date: int, n: nat, lo: int) returns (r: int)
    requires n > 0 && Count(biz, lo, date) >= n
    ensures NthBefore(biz, date, n, r)
    decreases date - lo
  {
    r := lo;
    CountSplits(biz, lo, lo + 1, date);
    CountOne(biz, lo);
    if Count(biz, lo + 1, date) >= n {
      r := NthIsBefore(biz, date, n, lo + 1);
    }
  }

  /** There is an `n`th business day that way exactly when there are that many. */
  lemma ReachableExactly(biz: DayTest, date: int, n: int)
    requires n != 0
    ensures Reachable(biz, date, n) <==> exists hi :: Enough(biz, date, n, hi)
  {
    if hi :| Enough(biz, date, n, hi) {
      var r;
      if n > 0 {
        r := NthIsAfter(biz, date, n, hi);
      } else {
        r := NthIsBefore(biz, date, -n, hi);
      }
      assert NthThatWay(biz, date, n, r);
    }
    if r :| NthThatWay(biz, date, n, r) {
      assert Enough(biz, date, n, if n > 0 then r + 1 else r);
    }
  }

  /** `addBusinessDays`: zero is the `following` roll, otherwise the nth business day that way, where there is one. */
  method AddBusinessDays(biz: DayTest, date: int, n: int) returns (r: Option<int>)
    requires Reachable(biz, date, n)
    ensures n == 0 ==> r == Adjust(biz, date, Following)
    ensures n != 0 ==> r.Some? && NthThatWay(biz, date, n, r.value)
  {
    if n == 0 {
      return Adjust(biz, date, Following);
    }
    var d := date;
    var step := if n > 0 then 1 else -1;
    var remaining := if n > 0 then n else -n;
    ghost var total := remaining;
    ghost var goal :| NthThatWay(biz, date, n, goal);
    while remaining > 0
      invariant 0 <= remaining <= total && Beyond(date, d, step) && Beyond(d, goal, step)
      invariant remaining == total - Passed(biz, date, d, step)
      invariant remaining < total && remaining == 0 ==> biz(d)
      decreases if step == 1 then goal - d else d - goal
    {
      PassedStep(biz, date, d, step);
      d := d + step;
      if biz(d) {
        remaining := remaining - 1;
      }
    }
    NothingPassed(biz, date, d, step);
    r := Some(d);
  }

  predicate Beyond(date: int, d: int, step: int) {
    if step == 1 then date <= d else d <= date
  }

  /** Business days passed on the way, the start not counted. */
  function Passed(biz: DayTest, date: int, d: int, step: int): nat {
    if step == 1 then Count(biz, date + 1, d + 1) else Count(biz, d, date)
  }

  lemma PassedStep(biz: DayTest, date: int, d: int, step: int)
    requires (step == 1 || step == -1) && Beyond(date, d, step)
    ensures Beyond(date, d + step, step)
    ensures Passed(biz, date, d + step, step) == Passed(biz, date, d, step) + (if biz(d + step) then 1 else 0)
  {
    if step == -1 {
      CountSplits(biz, d - 1, d, date);
      CountOne(biz, d - 1);
    }
  }

  lemma NothingPassed(biz: DayTest, date: int, d: int, step: int)
    requires Beyond(date, d, step)
    ensures Passed(biz, date, d, step) > 0 ==> d != date
  {
  }

  /** The signed count of business days in `[from, to)`. */
  function Between(biz: DayTest, from: int, to: int): int {
    if from <= to then Count(biz, from, to) else -(Count(biz, to, from) as int)
  }

  method BusinessDaysBetween(biz: DayTest, from: int, to: int) returns (r: int)
    ensures r == Between(biz, from, to)
  {
    var sign := if from <= to then 1 else -1;
    var lo, hi := if sign == 1 then from else to, if sign == 1 then to else from;
    var count := 0;
    for d := lo to hi
      invariant count == Count(biz, lo, d)
    {
      if biz(d) { count := count + 1; }
    }
    r := count * sign;
  }

  /**
   * Counting undoes stepping: the day `n` steps away is `n` business days away, except that stepping
   * forward from a closed day loses one, because the start is not counted.
   */
  lemma CountUndoesSteps(biz: DayTest, from: int, n: int, r: int)
    requires n == 0 ==> Adjust(biz, from, Following) == Some(r) && FirstIn(biz, from, r, r)
    requires n != 0 ==> NthThatWay(biz, from, n, r)
    ensures Between(biz, from, r) == if n > 0 && !biz(from) then n - 1 else n
  {
    if n == 0 {
      NoneBefore(biz, from, r);
    } else if n > 0 {
      CountSplits(biz, from, from + 1, r + 1);
      CountSplits(biz, from, r, r + 1);
      CountOne(biz, from);
      CountOne(biz, r);
    }
  }

  lemma {:induction false} NoneBefore(biz: DayTest, lo: int, hi: int)
    requires forall k :: lo <= k < hi ==> !biz(k)
    ensures Count(biz, lo, hi) == 0
    decreases hi - lo
  {
    if lo < hi {
      NoneBefore(biz, lo, hi - 1);
    }
  }

  /**
   * `businessDaysBetween(from, addBusinessDays(from, n))` is `n` exactly when `n` is not positive or `from` is open;
   * there is nothing to count when `n` is zero and the `following` roll finds no day.
   */
  method StepThenCount(biz: DayTest, from: int, n: int) returns (r: Option<int>)
    requires Reachable(biz, from, n)
    ensures r.None? <==> n == 0 && Adjust(biz, from, Following).None?
    ensures r.Some? ==> (r.value == n <==> n <= 0 || biz(from))
  {
    var d := AddBusinessDays(biz, from, n);
    if d.None? {
      return None;
    }
    if n == 0 {
      FollowingIsFirst(biz, from, d.value);
    }
    CountUndoesSteps(biz, from, n, d.value);
    var count := BusinessDaysBetween(biz, from, d.value);
    r := Some(count);
  }

  lemma FollowingIsFirst(biz: DayTest, from: int, r: int)
    requires Adjust(biz, from, Following) == Some(r)
    ensures FirstIn(biz, from, r, r)
  {
    if !biz(from) {
      RolledIsFirst(biz, from + 1, MAX_ROLL, r);
    }
  }

  lemma {:induction false} RolledIsFirst(biz: DayTest, day: int, tries: nat, r: int)
    requires RollUp(biz, day, tries) == Some(r)
    ensures day <= r && biz(r) && forall k :: day <= k < r ==> !biz(k)
    decreases tries
  {
    if !biz(day) {
      RolledIsFirst(biz, day + 1, tries - 1, r);
    }
  }

  lemma {:induction false} RollUpExactly(biz: DayTest, day: int, tries: nat, r: int)
    ensures RollUp(biz, day, tries) == Some(r) <==>
              day <= r < day + tries && biz(r) && forall k :: day <= k < r ==> !biz(k)
    decreases tries
  {
    if tries > 0 && !biz(day) {
      RollUpExactly(biz, day + 1, tries - 1, r);
    }
  }

  lemma {:induction false} RollDownExactly(biz: DayTest, day: int, tries: nat, r: int)
    ensures RollDown(biz, day, tries) == Some(r) <==>
              day - tries < r <= day && biz(r) && forall k :: r < k <= day ==> !biz(k)
    decreases tries
  {
    if tries > 0 && !biz(day) {
      RollDownExactly(biz, day - 1, tries - 1, r);
    }
  }

  /** The next and the previous business day are the nearest ones, within 400 days. */
  lemma RollsExactly(biz: DayTest, date: int, r: int)
    ensures Next(biz, date) == Some(r) <==> date < r <= date + 400 && biz(r) && forall k :: date < k < r ==> !biz(k)
    ensures Previous(biz, date) == Some(r) <==>
              date - 400 <= r < date && biz(r) && forall k :: r < k < date ==> !biz(k)
  {
    RollUpExactly(biz, date + 1, MAX_ROLL, r);
    RollDownExactly(biz, date - 1, MAX_ROLL, r);
  }

  // ---------------------------------------------------------------- the order really breaks

  /** Saturday 30 and Sunday 31 August 2025 on a weekend-only calendar. */
  lemma FollowingEndOfMonthExample(biz: DayTest)
    requires forall d :: biz(d) <==> (d + 4) % 7 != 0 && (d + 4) % 7 != 6
    ensures ToEpochDay(Civil(2025, 8, 30)) == 20330
    ensures AdjustDate(biz, 20330, Following, true) == Some(20332)
    ensures AdjustDate(biz, 20331, Following, true) == Some(20329)
  {
    AugustWeekend();
    WeekendExample(biz);
  }

  lemma WeekendExample(biz: DayTest)
    requires forall d :: biz(d) <==> (d + 4) % 7 != 0 && (d + 4) % 7 != 6
    ensures Adjust(biz, 20330, Following) == Some(20332) && Adjust(biz, 20331, Preceding) == Some(20329)
  {
    assert !biz(20330) && !biz(20331) && biz(20332) && biz(20329);
    RollUpFinds(biz, 20331, MAX_ROLL, 20332);
    RollDownFinds(biz, 20330, MAX_ROLL, 20329);
  }

  lemma AugustWeekend()
    ensures ToEpochDay(Civil(2025, 8, 30)) == 20330
    ensures LastOfMonth(20330) == 20331 && LastOfMonth(20331) == 20331
  {
    AugustDay(30);
    AugustDay(31);
  }

  lemma AugustDay(day: int)
    requires day == 30 || day == 31
    ensures ToEpochDay(Civil(2025, 8, day)) == 20300 + day && LastOfMonth(20300 + day) == 20331
  {
    var d: IsoDate := Civil(2025, 8, day);
    assert 2025 / 400 == 5 && 25 / 4 == 6 && 25 / 100 == 0 && (153 * 5 + 2) / 5 == 153;
    assert ToEpochDay(d) == 20300 + day;
    DateRoundTrip(d);
    LastOf(d, 20300 + day);
  }

  lemma LastOf(d: IsoDate, n: int)
    requires FromEpochDay(n) == d
    ensures LastOfMonth(n) == n - d.day + DaysInMonth(d.year, d.month)
  {
  }
}
