/**
 * ACT/ACT ISDA (section 4.16(b) of the 2006 ISDA Definitions): the interval is split at each 1 January
 * and each part divided by the length of its own year. Fractions are exact.
 *
 * A date here is its epoch day together with its year; `CivilIsDated` says every real date is one.
 */
module DayCount {
  import opened CivilDates

  datatype Measure = Measure(days: int, denominator: real, yearFraction: real)

  function YearLength(year: int): (n: int)
    ensures 365 <= n <= 366
  {
    if IsLeapYear(year) then 366 else 365
  }

  /** Epoch day of 1 January, counted from 1970 a year at a time. */
  function NewYear(year: int): int
    decreases if year < 1970 then 1970 - year else year - 1970
  {
    if year == 1970 then 0
    else if year > 1970 then NewYear(year - 1) + YearLength(year - 1)
    else NewYear(year + 1) - YearLength(year)
  }

  datatype Dated = Dated(day: int, year: int)

  /** The day is in the year whose New Year it has reached and whose next it has not. */
  type Date = d: Dated | NewYear(d.year) <= d.day < NewYear(d.year + 1) witness Dated(0, 1970)

  lemma NewYearsApart(year: int)
    ensures NewYear(year + 1) - NewYear(year) == YearLength(year)
  {
  }

  lemma {:induction false} NewYearsRise(x: int, y: int)
    requires x <= y
    ensures NewYear(x) <= NewYear(y) && (x < y ==> NewYear(x + 1) <= NewYear(y))
    decreases y - x
  {
    if x < y {
      NewYearsApart(x);
      NewYearsRise(x + 1, y);
    }
  }

  lemma {:induction false} NewYearIsJanuaryFirst(year: int)
    ensures NewYear(year) == ToEpochDay(Civil(year, 1, 1))
    decreases if year < 1970 then 1970 - year else year - 1970
  {
    if year == 1970 {
      assert ToEpochDay(Civil(1970, 1, 1)) == 0;
    } else if year > 1970 {
      NewYearIsJanuaryFirst(year - 1);
      JanuariesApart(year - 1);
    } else {
      NewYearIsJanuaryFirst(year + 1);
      JanuariesApart(year);
    }
  }

  lemma JanuariesApart(year: int)
    ensures ToEpochDay(Civil(year + 1, 1, 1)) - ToEpochDay(Civil(year, 1, 1)) == YearLength(year)
  {
    EpochDayIsYearAndDay(Civil(year, 1, 1));
    EpochDayIsYearAndDay(Civil(year + 1, 1, 1));
    YearLengths(year - 1);
  }

  /** Every real date lies in its own year. */
  lemma CivilIsDated(d: IsoDate)
    ensures NewYear(d.year) <= ToEpochDay(d) < NewYear(d.year + 1)
  {
    NewYearIsJanuaryFirst(d.year);
    NewYearIsJanuaryFirst(d.year + 1);
    EpochDayOrders(d, Civil(d.year, 1, 1));
    EpochDayOrders(d, Civil(d.year + 1, 1, 1));
  }

  /** Years, each day worth one over the length of its own year. */
  function Position(d: Dated): real {
    d.year as real + (d.day - NewYear(d.year)) as real / YearLength(d.year) as real
  }

  lemma YearsRise(a: Date, b: Date)
    requires a.day <= b.day
    ensures a.year <= b.year
  {
    if b.year < a.year {
      NewYearsRise(b.year + 1, a.year);
    }
  }

  // ---------------------------------------------------------------- one year's part

  function Later(a: int, b: int): int { if a >= b then a else b }

  function Earlier(a: int, b: int): int { if a <= b then a else b }

  /** Where the parts before year `y` have got to. */
  function Reached(lo: Date, hi: Date, y: int): real {
    if y == hi.year + 1 then Position(hi) else if y == lo.year then Position(lo) else y as real
  }

  /** The day they have got to. */
  function DayReached(lo: Date, hi: Date, y: int): int {
    if y == hi.year + 1 then hi.day else Later(lo.day, NewYear(y))
  }

  /** What `days` of a year of `n` days are worth. */
  function Worth(days: int, n: int): real
    requires n > 0
  {
    days as real / n as real
  }

  lemma WorthAdds(a: int, b: int, n: int)
    requires n > 0
    ensures Worth(a, n) + Worth(b, n) == Worth(a + b, n) && Worth(n, n) == 1.0 && Worth(0, n) == 0.0
  {
    assert a as real + b as real == (a + b) as real;
  }

  lemma WorthBounds(days: int, n: int)
    requires days >= 0 && 365 <= n <= 366
    ensures Worth(days, 366) <= Worth(days, n) <= Worth(days, 365)
  {
  }

  /** One part, over its year's length, takes the sum from where it was to where the next part starts. */
  lemma PartAdds(lo: Date, hi: Date, y: int)
    requires lo.day <= hi.day && lo.year <= y <= hi.year
    ensures var from, to := Later(lo.day, NewYear(y)), Earlier(hi.day, NewYear(y + 1));
            && from == DayReached(lo, hi, y) && to == DayReached(lo, hi, y + 1) && from <= to
            && Reached(lo, hi, y) + Worth(to - from, YearLength(y)) == Reached(lo, hi, y + 1)
  {
    PartDays(lo, hi, y);
    var from, to := Later(lo.day, NewYear(y)), Earlier(hi.day, NewYear(y + 1));
    WorthAdds(from - NewYear(y), to - from, YearLength(y));
    PartReached(lo, hi, y, from, to);
  }

  /** The days of one part. */
  lemma PartDays(lo: Date, hi: Date, y: int)
    requires lo.day <= hi.day && lo.year <= y <= hi.year
    ensures var from, to := Later(lo.day, NewYear(y)), Earlier(hi.day, NewYear(y + 1));
            && from == DayReached(lo, hi, y) && to == DayReached(lo, hi, y + 1) && from <= to
            && from == (if y == lo.year then lo.day else NewYear(y))
            && to == if y == hi.year then hi.day else NewYear(y + 1)
  {
    NewYearsApart(y);
    NewYearsRise(lo.year, y);
    NewYearsRise(y, hi.year);
    if y < hi.year { NewYearsRise(y + 1, hi.year); }
    if y > lo.year { NewYearsRise(lo.year + 1, y); }
    NewYearsRise(lo.year + 1, y + 1);
  }

  /** Where the parts have got to before and after one. */
  lemma PartReached(lo: Date, hi: Date, y: int, from: int, to: int)
    requires lo.year <= y <= hi.year
    requires from == (if y == lo.year then lo.day else NewYear(y)) && to == if y == hi.year then hi.day
        else NewYear(y + 1)
    ensures Reached(lo, hi, y) == y as real + Worth(from - NewYear(y), YearLength(y))
    ensures Reached(lo, hi, y + 1) == y as real + Worth(to - NewYear(y), YearLength(y))
  {
    NewYearsApart(y);
    WorthAdds(0, 0, YearLength(y));
  }

  // ---------------------------------------------------------------- the convention

  method MeasureActActIsda(start: Date, end: Date) returns (m: Measure)
    ensures m.days == end.day - start.day
    ensures m.yearFraction == YearFraction(start, end)
    ensures start.day == end.day ==> m.denominator == YearLength(start.year) as real
    ensures start.day != end.day ==> m.yearFraction != 0.0 && m.denominator == m.days as real / m.yearFraction
  {
    var days := end.day - start.day;
    FractionSign(start, end);
    if days == 0 {
      return Measure(0, YearLength(start.year) as real, 0.0);
    }
    var backwards := days < 0;
    var lo, hi := if backwards then end else start, if backwards then start else end;
    var yearFraction := SumYears(lo, hi);
    if backwards {
      yearFraction := -yearFraction;
    }
    m := Measure(days, days as real / yearFraction, yearFraction);
  }

  /** The loop over the years of the interval, an empty part being skipped. */
  method SumYears(lo: Date, hi: Date) returns (yearFraction: real)
    requires lo.day < hi.day
    ensures yearFraction == YearFraction(lo, hi)
  {
    yearFraction := 0.0;
    YearsRise(lo, hi);
    var y := lo.year;
    while y <= hi.year
      invariant lo.year <= y <= hi.year + 1
      invariant yearFraction == Reached(lo, hi, y) - Position(lo)
    {
      var from, to := Later(lo.day, NewYear(y)), Earlier(hi.day, NewYear(y + 1));
      PartAdds(lo, hi, y);
      WorthAdds(0, 0, YearLength(y));
      if from < to {
        yearFraction := yearFraction + Worth(to - from, YearLength(y));
      }
      y := y + 1;
    }
  }

  // ---------------------------------------------------------------- the law

  /** What the loop computes, without the loop. */
  function YearFraction(start: Dated, end: Dated): real {
    Position(end) - Position(start)
  }

  /** A day is worth one over the days from its year's first of January to the next. */
  lemma OneDay(a: Date, b: Date)
    requires b.day == a.day + 1
    ensures var days := ToEpochDay(Civil(a.year + 1, 1, 1)) - ToEpochDay(Civil(a.year, 1, 1));
            days > 0 && YearFraction(a, b) == Worth(1, days)
  {
    NewYearIsJanuaryFirst(a.year);
    NewYearIsJanuaryFirst(a.year + 1);
    NewYearsApart(a.year);
    NextDayYear(a, b);
    PositionIs(a);
    PositionIs(b);
    WorthAdds(a.day - NewYear(a.year), 1, YearLength(a.year));
    WorthAdds(0, 0, YearLength(a.year));
    WorthAdds(0, 0, YearLength(b.year));
  }

  lemma PositionIs(d: Date)
    ensures Position(d) == d.year as real + Worth(d.day - NewYear(d.year), YearLength(d.year))
  {
  }

  lemma NextDayYear(a: Date, b: Date)
    requires b.day == a.day + 1
    ensures b.year == a.year || (b.year == a.year + 1 && b.day == NewYear(b.year))
  {
    YearsRise(a, b);
    if b.year > a.year {
      NewYearsRise(a.year + 1, b.year);
      if b.year > a.year + 1 {
        NewYearsApart(a.year + 1);
        NewYearsRise(a.year + 2, b.year);
      }
    }
  }

  /** Over any three dates, in any order, the fractions add up. */
  lemma FractionsAdd(a: Date, b: Date, c: Date)
    ensures YearFraction(a, b) + YearFraction(b, c) == YearFraction(a, c)
    ensures YearFraction(b, a) == -YearFraction(a, b)
  {
  }

  /** Between days over 366 and days over 365, for an interval the right way round. */
  lemma FractionBounds(a: Date, b: Date)
    requires a.day <= b.day
    ensures Worth(b.day - a.day, 366) <= YearFraction(a, b) <= Worth(b.day - a.day, 365)
  {
    YearsRise(a, b);
    UpToYear(a, b, b.year + 1);
  }

  lemma {:induction false} UpToYear(lo: Date, hi: Date, y: int)
    requires lo.day <= hi.day && lo.year <= y <= hi.year + 1
    ensures var d := DayReached(lo, hi, y) - lo.day;
            d >= 0 && Worth(d, 366) <= Reached(lo, hi, y) - Position(lo) <= Worth(d, 365)
    decreases y - lo.year
  {
    if y == lo.year {
      NewYearsRise(lo.year, hi.year);
      assert DayReached(lo, hi, y) == lo.day;
    } else {
      UpToYear(lo, hi, y - 1);
      PartAdds(lo, hi, y - 1);
      var before, part := DayReached(lo, hi, y - 1) - lo.day, DayReached(lo, hi, y) - DayReached(lo, hi, y - 1);
      WorthBounds(part, YearLength(y - 1));
      WorthAdds(before, part, 365);
      WorthAdds(before, part, 366);
    }
  }

  lemma FractionSign(a: Date, b: Date)
    ensures a.day == b.day ==> YearFraction(a, b) == 0.0
    ensures a.day != b.day ==> YearFraction(a, b) != 0.0
  {
    if a.day <= b.day {
      FractionBounds(a, b);
    } else {
      FractionBounds(b, a);
    }
  }
}
