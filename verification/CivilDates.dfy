/** Calendar dates and the proleptic-Gregorian epoch-day conversion. */
module CivilDates {

  datatype Civil = Civil(year: int, month: int, day: int)

  predicate IsLeapYear(year: int) {
    (year % 4 == 0 && year % 100 != 0) || year % 400 == 0
  }

  function DaysInMonth(year: int, month: int): int
    requires 1 <= month <= 12
  {
    if month == 2 then if IsLeapYear(year) then 29 else 28
    else if month == 4 || month == 6 || month == 9 || month == 11 then 30
    else 31
  }

  /** The fields of a day that exists. */
  predicate IsReal(d: Civil) {
    1 <= d.month <= 12 && 1 <= d.day <= DaysInMonth(d.year, d.month)
  }

  type IsoDate = d: Civil | IsReal(d) witness Civil(1970, 1, 1)

  /** The remainder of the truncating division JavaScript has. */
  function Remainder(a: int, b: int): int
    requires b > 0
  {
    if a >= 0 then a % b else -((-a) % b)
  }

  /** Days since 1970-01-01, in years that start on 1 March. */
  function ToEpochDay(d: IsoDate): int {
    var y := if d.month <= 2 then d.year - 1 else d.year;
    var era := y / 400;
    var yoe := y - era * 400;
    var doy := (153 * (d.month + (if d.month > 2 then -3 else 9)) + 2) / 5 + d.day - 1;
    var doe := yoe * 365 + yoe / 4 - yoe / 100 + doy;
    era * 146097 + doe - 719468
  }

  /** The fields the inverse computes, before anything says they are a real date. */
  function EpochFields(epochDay: int): Civil {
    var z := epochDay + 719468;
    var era := z / 146097;
    var doe := z - era * 146097;
    var yoe := YearOfEra(doe);
    var y := yoe + era * 400;
    var doy := doe - (365 * yoe + yoe / 4 - yoe / 100);
    var mp := (5 * doy + 2) / 153;
    var day := doy - (153 * mp + 2) / 5 + 1;
    var month := mp + (if mp < 10 then 3 else -9);
    Civil(if month <= 2 then y + 1 else y, month, day)
  }

  function YearOfEra(doe: int): int {
    (doe - doe / 1460 + doe / 36524 - doe / 146096) / 365
  }

  // ---------------------------------------------------------------- the year of the era

  /** A day of an era: century, four-year cycle, year of the cycle, day of the year. */
  datatype EraDay = EraDay(c: int, q: int, r: int, doy: int)

  /** Years of the era that start on 1 March and end in a leap February have day 365. */
  predicate Proper(e: EraDay) {
    && 0 <= e.c < 4 && 0 <= e.q < 25 && 0 <= e.r < 4
    && 0 <= e.doy <= 365
    && (e.doy == 365 ==> e.r == 3 && (e.q < 24 || e.c == 3))
  }

  function DayOfEra(e: EraDay): int {
    36524 * e.c + 1461 * e.q + 365 * e.r + e.doy
  }

  function YearIn(e: EraDay): int {
    100 * e.c + 4 * e.q + e.r
  }

  lemma EraDecomposes(doe: int) returns (e: EraDay)
    requires 0 <= doe < 146097
    ensures Proper(e) && DayOfEra(e) == doe
  {
    var c := if doe / 36524 > 3 then 3 else doe / 36524;
    var inCentury := doe - 36524 * c;
    var q := inCentury / 1461;
    var inCycle := inCentury - 1461 * q;
    var r := if inCycle / 365 > 3 then 3 else inCycle / 365;
    e := EraDay(c, q, r, inCycle - 365 * r);
  }

  lemma CenturyOfDay(e: EraDay)
    requires Proper(e)
    ensures DayOfEra(e) / 36524 - DayOfEra(e) / 146096 == e.c
  {
    var inCentury := 1461 * e.q + 365 * e.r + e.doy;
    assert 0 <= inCentury <= 36524 && (inCentury == 36524 ==> e.c == 3);
    if inCentury == 36524 {
      assert DayOfEra(e) == 146096;
    } else {
      assert DayOfEra(e) == 36524 * e.c + inCentury;
    }
  }

  lemma CycleOfDay(e: EraDay)
    requires Proper(e)
    ensures var over := 24 * e.c + e.q + 365 * e.r + e.doy;
            DayOfEra(e) / 1460 == 25 * e.c + e.q + (if over >= 1460 then 1 else 0)
  {
    var over := 24 * e.c + e.q + 365 * e.r + e.doy;
    assert DayOfEra(e) == 1460 * (25 * e.c + e.q) + over;
    assert 0 <= over < 2920;
  }

  lemma YearOfEraIsYear(e: EraDay)
    requires Proper(e)
    ensures YearOfEra(DayOfEra(e)) == YearIn(e)
    ensures 365 * YearIn(e) + YearIn(e) / 4 - YearIn(e) / 100 + e.doy == DayOfEra(e)
  {
    CenturyOfDay(e);
    CycleOfDay(e);
    var over := 24 * e.c + e.q + 365 * e.r + e.doy;
    var carry := if over >= 1460 then 1 else 0;
    var doe := DayOfEra(e);
    assert doe - doe / 1460 + (doe / 36524 - doe / 146096) == 365 * YearIn(e) + (e.doy - carry);
    assert 0 <= e.doy - carry <= 364;
    assert YearIn(e) / 4 == 25 * e.c + e.q;
    assert YearIn(e) / 100 == e.c;
  }

  // ---------------------------------------------------------------- months of a year from March

  function MonthStart(mp: int): int {
    (153 * mp + 2) / 5
  }

  /** The month index from a day of the year picks the month that holds it. */
  lemma MonthOfDay(doy: int)
    requires 0 <= doy <= 365
    ensures var mp := (5 * doy + 2) / 153;
            0 <= mp <= 11 && MonthStart(mp) <= doy && (mp < 11 ==> doy < MonthStart(mp + 1))
  {
  }

  lemma DayPicksMonth(mp: int, doy: int)
    requires 0 <= mp <= 11 && MonthStart(mp) <= doy <= 365 && (mp < 11 ==> doy < MonthStart(mp + 1))
    ensures (5 * doy + 2) / 153 == mp
  {
  }

  /** The year after year `y` of the March count is leap exactly when that count's year has a day 365. */
  lemma LeapEndsYear(era: int, e: EraDay)
    requires 0 <= e.c < 4 && 0 <= e.q < 25 && 0 <= e.r < 4
    ensures IsLeapYear(YearIn(e) + era * 400 + 1) <==> e.r == 3 && (e.q < 24 || e.c == 3)
  {
    var y := YearIn(e) + era * 400 + 1;
    if e.r < 3 {
      Fours(100 * era + 25 * e.c + e.q, e.r + 1);
    } else {
      Fours(100 * era + 25 * e.c + e.q + 1, 0);
      if e.q < 24 {
        Hundreds(4 * era + e.c, 4 * e.q + 4);
      } else {
        Hundreds(4 * era + e.c + 1, 0);
        if e.c < 3 {
          FourHundreds(era, 100 * (e.c + 1));
        } else {
          FourHundreds(era + 1, 0);
        }
      }
    }
  }

  lemma Fours(q: int, r: int)
    requires 0 <= r < 4
    ensures (4 * q + r) / 4 == q && (4 * q + r) % 4 == r
  {
  }

  lemma Hundreds(q: int, r: int)
    requires 0 <= r < 100
    ensures (100 * q + r) / 100 == q && (100 * q + r) % 100 == r
  {
  }

  lemma FourHundreds(q: int, r: int)
    requires 0 <= r < 400
    ensures (400 * q + r) / 400 == q && (400 * q + r) % 400 == r
  {
  }

  /** Where a March-year day falls in its own month; every month has the length it should. */
  function DateOf(y: int, doy: int): Civil {
    var mp := (5 * doy + 2) / 153;
    var month := mp + (if mp < 10 then 3 else -9);
    Civil(if month <= 2 then y + 1 else y, month, doy - MonthStart(mp) + 1)
  }

  lemma MonthLengths(mp: int)
    requires 0 <= mp < 11
    ensures MonthStart(mp + 1) - MonthStart(mp)
         == if mp == 1 || mp == 3 || mp == 6 || mp == 8 then 30 else 31
  {
  }

  lemma DateOfIsReal(y: int, doy: int)
    requires 0 <= doy <= 365 && (doy == 365 ==> IsLeapYear(y + 1))
    ensures IsReal(DateOf(y, doy))
  {
    var mp := (5 * doy + 2) / 153;
    MonthOfDay(doy);
    if mp < 11 {
      MonthLengths(mp);
    }
  }

  lemma EpochFieldsAre(epochDay: int) returns (era: int, e: EraDay)
    ensures Proper(e) && epochDay == era * 146097 + DayOfEra(e) - 719468
    ensures EpochFields(epochDay) == DateOf(YearIn(e) + era * 400, e.doy)
  {
    var z := epochDay + 719468;
    era := z / 146097;
    e := EraDecomposes(z - era * 146097);
    YearOfEraIsYear(e);
  }

  /** The inverse never builds an invalid date. */
  lemma FieldsAreReal(epochDay: int)
    ensures IsReal(EpochFields(epochDay))
  {
    var era, e := EpochFieldsAre(epochDay);
    LeapEndsYear(era, e);
    DateOfIsReal(YearIn(e) + era * 400, e.doy);
  }

  function FromEpochDay(epochDay: int): IsoDate {
    FieldsAreReal(epochDay);
    EpochFields(epochDay)
  }

  // ---------------------------------------------------------------- from a date

  /** The March year and the day of it. */
  function MarchYear(d: IsoDate): int {
    if d.month <= 2 then d.year - 1 else d.year
  }

  function MarchMonth(d: IsoDate): int {
    d.month + (if d.month > 2 then -3 else 9)
  }

  function MarchDay(d: IsoDate): int {
    MonthStart(MarchMonth(d)) + d.day - 1
  }

  lemma MarchDayBounds(d: IsoDate)
    ensures 0 <= MarchDay(d) <= 365 && (MarchDay(d) == 365 ==> IsLeapYear(MarchYear(d) + 1))
    ensures DateOf(MarchYear(d), MarchDay(d)) == d
  {
    var mp := MarchMonth(d);
    if mp < 11 {
      MonthLengths(mp);
    }
    assert MonthStart(0) == 0 && MonthStart(11) == 337;
    MonthStartsRise(mp);
    DayPicksMonth(mp, MarchDay(d));
  }

  lemma MonthStartsRise(mp: int)
    requires 0 <= mp <= 11
    ensures 0 <= MonthStart(mp) <= 337 && (mp < 11 ==> MonthStart(mp + 1) <= 337)
  {
  }

  lemma EraOfDate(d: IsoDate) returns (era: int, e: EraDay)
    ensures Proper(e) && YearIn(e) + era * 400 == MarchYear(d) && e.doy == MarchDay(d)
    ensures ToEpochDay(d) == era * 146097 + DayOfEra(e) - 719468
  {
    var y := MarchYear(d);
    era := y / 400;
    var yoe := y - era * 400;
    e := EraDay(yoe / 100, yoe % 100 / 4, yoe % 4, MarchDay(d));
    assert YearIn(e) == yoe;
    MarchDayBounds(d);
    LeapEndsYear(era, e);
    YearOfEraIsYear(e);
  }

  /** Days to dates and back. */
  lemma DayRoundTrip(epochDay: int)
    ensures ToEpochDay(FromEpochDay(epochDay)) == epochDay
  {
    var era, e := EpochFieldsAre(epochDay);
    var d := FromEpochDay(epochDay);
    DateOfYearDay(era, e, d);
    var era', e' := EraOfDate(d);
    SameYearSameEra(era, e, era', e');
  }

  lemma DateOfYearDay(era: int, e: EraDay, d: IsoDate)
    requires Proper(e) && d == DateOf(YearIn(e) + era * 400, e.doy)
    ensures MarchYear(d) == YearIn(e) + era * 400 && MarchDay(d) == e.doy
  {
    MonthOfDay(e.doy);
  }

  lemma SameYearSameEra(era: int, e: EraDay, era': int, e': EraDay)
    requires Proper(e) && Proper(e') && YearIn(e) + era * 400 == YearIn(e') + era' * 400 && e.doy == e'.doy
    ensures era == era' && e == e'
  {
    assert 0 <= YearIn(e) < 400 && 0 <= YearIn(e') < 400;
  }

  /** Dates to days and back. */
  lemma DateRoundTrip(d: IsoDate)
    ensures FromEpochDay(ToEpochDay(d)) == d
  {
    var era, e := EraOfDate(d);
    var era', e' := EpochFieldsAre(ToEpochDay(d));
    SameDateOf(era, e, era', e');
    MarchDayBounds(d);
  }

  lemma SameDateOf(era: int, e: EraDay, era': int, e': EraDay)
    requires Proper(e) && Proper(e') && era * 146097 + DayOfEra(e) == era' * 146097 + DayOfEra(e')
    ensures YearIn(e) + era * 400 == YearIn(e') + era' * 400 && e.doy == e'.doy
  {
    DayOfEraBounds(e);
    DayOfEraBounds(e');
    EraIsUnique(era, DayOfEra(e), era', DayOfEra(e'));
    SameDaySameYear(e, e');
  }

  lemma EraIsUnique(era: int, doe: int, era': int, doe': int)
    requires 0 <= doe < 146097 && 0 <= doe' < 146097 && era * 146097 + doe == era' * 146097 + doe'
    ensures era == era' && doe == doe'
  {
  }

  lemma SameDaySameYear(e: EraDay, e': EraDay)
    requires Proper(e) && Proper(e') && DayOfEra(e) == DayOfEra(e')
    ensures YearIn(e) == YearIn(e') && e.doy == e'.doy
  {
    YearOfEraIsYear(e);
    YearOfEraIsYear(e');
  }

  lemma DayOfEraBounds(e: EraDay)
    requires Proper(e)
    ensures 0 <= DayOfEra(e) < 146097
  {
  }

  // ---------------------------------------------------------------- order

  predicate Before(a: Civil, b: Civil) {
    a.year < b.year || (a.year == b.year && (a.month < b.month || (a.month == b.month && a.day < b.day)))
  }

  /** Epoch day of 1 March of year `y`, less a constant: four-year, century and era corrections. */
  function YearStart(y: int): int {
    365 * y + y / 4 - y / 100 + y / 400
  }

  lemma EpochDayIsYearAndDay(d: IsoDate)
    ensures ToEpochDay(d) == YearStart(MarchYear(d)) + MarchDay(d) - 719468
  {
    var y := MarchYear(d);
    var era := y / 400;
    var yoe := y - era * 400;
    assert y == 400 * era + yoe && 0 <= yoe < 400;
    assert y / 4 == 100 * era + yoe / 4;
    assert y / 100 == 4 * era + yoe / 100;
  }

  lemma YearLengths(y: int)
    ensures YearStart(y + 1) - YearStart(y) == if IsLeapYear(y + 1) then 366 else 365
  {
    CountSteps(y, 4);
    CountSteps(y, 100);
    CountSteps(y, 400);
  }

  lemma CountSteps(y: int, n: int)
    requires n == 4 || n == 100 || n == 400
    ensures (y + 1) / n - y / n == if (y + 1) % n == 0 then 1 else 0
  {
  }

  lemma {:induction false} YearStartsRise(x: int, y: int)
    requires x < y
    ensures YearStart(x + 1) <= YearStart(y)
    decreases y - x
  {
    if x + 1 < y {
      YearStartsRise(x + 1, y);
      YearLengths(x + 1);
    }
  }

  /** Earlier dates have smaller epoch days. */
  lemma EpochDayIsMonotone(a: IsoDate, b: IsoDate)
    requires Before(a, b)
    ensures ToEpochDay(a) < ToEpochDay(b)
  {
    EpochDayIsYearAndDay(a);
    EpochDayIsYearAndDay(b);
    MarchDayBounds(a);
    MarchDayBounds(b);
    if MarchYear(a) < MarchYear(b) {
      YearLengths(MarchYear(a));
      YearStartsRise(MarchYear(a), MarchYear(b));
    } else {
      assert MarchYear(a) == MarchYear(b);
      MarchDayIsMonotone(a, b);
    }
  }

  lemma MarchDayIsMonotone(a: IsoDate, b: IsoDate)
    requires Before(a, b) && MarchYear(a) == MarchYear(b)
    ensures MarchDay(a) < MarchDay(b)
  {
    var m, n := MarchMonth(a), MarchMonth(b);
    if m < n {
      MonthLengths(m);
      assert MonthStart(m + 1) <= MonthStart(n);
    }
  }

  /** The order of dates is the order of their epoch days. */
  lemma EpochDayOrders(a: IsoDate, b: IsoDate)
    ensures ToEpochDay(a) < ToEpochDay(b) <==> Before(a, b)
    ensures ToEpochDay(a) == ToEpochDay(b) <==> a == b
  {
    if Before(a, b) {
      EpochDayIsMonotone(a, b);
    } else if Before(b, a) {
      EpochDayIsMonotone(b, a);
    } else {
      assert a == b;
    }
  }

  // ---------------------------------------------------------------- days of the week

  const SUNDAY := 0
  const SATURDAY := 6

  /** 0 is Sunday; 1970-01-01 was a Thursday. */
  function DayOfWeek(d: IsoDate): int {
    Remainder(Remainder(ToEpochDay(d) + 4, 7) + 7, 7)
  }

  lemma DayOfWeekIsEuclidean(d: IsoDate)
    ensures DayOfWeek(d) == (ToEpochDay(d) + 4) % 7
  {
    TwoRemainders(ToEpochDay(d) + 4);
  }

  /** Truncating twice, with a week added in between, is the Euclidean remainder. */
  lemma TwoRemainders(n: int)
    ensures Remainder(Remainder(n, 7) + 7, 7) == n % 7
  {
    if n < 0 {
      var k := (-n) % 7;
      assert -n == 7 * (-n / 7) + k;
      assert n == 7 * -(-n / 7) - k;
    }
  }

  function AddDays(d: IsoDate, days: int): (r: IsoDate)
    ensures ToEpochDay(r) == ToEpochDay(d) + days
  {
    DayRoundTrip(ToEpochDay(d) + days);
    FromEpochDay(ToEpochDay(d) + days)
  }

  /** Day 0 is the first of January 1970, a Thursday; a Sunday is three days past it, modulo the week. */
  lemma EpochIsAThursday(d: IsoDate)
    ensures ToEpochDay(Civil(1970, 1, 1)) == 0 && DayOfWeek(Civil(1970, 1, 1)) == 4
    ensures DayOfWeek(d) == SUNDAY <==> (ToEpochDay(d) - 3) % 7 == 0
    ensures DayOfWeek(d) == SATURDAY <==> (ToEpochDay(d) - 2) % 7 == 0
  {
    FirstDay();
    DayOfWeekIsEuclidean(d);
    WeekdayOfDay(ToEpochDay(d), DayOfWeek(d));
  }

  lemma FirstDay()
    ensures ToEpochDay(Civil(1970, 1, 1)) == 0 && DayOfWeek(Civil(1970, 1, 1)) == 4
  {
    DayOfWeekIsEuclidean(Civil(1970, 1, 1));
  }

  lemma WeekdayOfDay(e: int, day: int)
    requires day == (e + 4) % 7
    ensures day == 0 <==> (e - 3) % 7 == 0
    ensures day == 6 <==> (e - 2) % 7 == 0
  {
    WeekRemainder(e + 4, -7);
    WeekRemainder(e + 4, -6);
    WeekdayIs(day);
  }

  lemma WeekdayIs(day: int)
    requires 0 <= day < 7
    ensures (day - 7) % 7 == day && ((day - 6) % 7 == 0 <==> day == 6)
    ensures (day - 4) % 7 == if day < 4 then day + 3 else day - 4
  {
  }

  /** Weekdays come round in order. */
  lemma WeekdaysCycle(d: IsoDate, days: int)
    ensures DayOfWeek(AddDays(d, days)) == (DayOfWeek(d) + days) % 7
  {
    DayOfWeekIsEuclidean(d);
    DayOfWeekIsEuclidean(AddDays(d, days));
    WeekRemainder(ToEpochDay(d) + 4, days);
  }

  lemma WeekRemainder(x: int, k: int)
    ensures (x % 7 + k) % 7 == (x + k) % 7
  {
    var q := x / 7;
    assert x + k == x % 7 + k + 7 * q;
    SevensVanish(x % 7 + k, q);
  }

  lemma {:induction false} SevensVanish(r: int, q: int)
    ensures (r + 7 * q) % 7 == r % 7
    decreases if q < 0 then -q else q
  {
    if q > 0 {
      SevensVanish(r, q - 1);
    } else if q < 0 {
      SevensVanish(r, q + 1);
    }
  }

  // ---------------------------------------------------------------- Easter

  /** The algorithm's `h`: how the moon stands; the source's `%` is the truncating one. */
  function Epact(year: int): int {
    var b := year / 100;
    Remainder(19 * Remainder(year, 19) + b - b / 4 - (b - (b + 8) / 25 + 1) / 3 + 15, 30)
  }

  /** The algorithm's `l`: how far the next Sunday is. */
  function SundayShift(year: int, h: int): int {
    var c := Remainder(year, 100);
    Remainder(32 + 2 * Remainder(year / 100, 4) + 2 * (c / 4) - h - Remainder(c, 4), 7)
  }

  /** How many days after 22 March Easter falls. */
  function EasterOffset(a: int, h: int, l: int): int {
    var m := (a + 11 * h + 22 * l) / 451;
    h + l - 7 * m
  }

  /** The Meeus-Jones-Butcher algorithm. */
  function EasterFields(year: int): Civil {
    var h := Epact(year);
    var l := SundayShift(year, h);
    MonthAndDay(year, EasterOffset(Remainder(year, 19), h, l) + 114)
  }

  function MonthAndDay(year: int, n: int): Civil {
    Civil(year, n / 31, Remainder(n, 31) + 1)
  }

  lemma EasterOffsetBounds(a: int, h: int, l: int)
    requires 0 <= a < 19 && 0 <= h < 30 && 0 <= l < 7
    ensures 0 <= EasterOffset(a, h, l) <= 34
  {
    var x := a + 11 * h + 22 * l;
    assert 0 <= x < 902;
    if h == 29 && l == 6 {
      assert x >= 451;
    } else if x >= 451 {
      assert h + l >= 7;
    }
  }

  /** `19a + b - d - g + 15` is never negative, so the truncating remainder is the Euclidean one. */
  lemma EpactIsNonNegative(b: int)
    requires b >= 0
    ensures b - b / 4 - (b - (b + 8) / 25 + 1) / 3 + 15 >= 0
  {
  }

  lemma YearStartParts(d: int, e: int, i: int, k: int)
    requires 0 <= e < 4 && 0 <= i < 25 && 0 <= k < 4
    ensures YearStart(100 * (4 * d + e) + 4 * i + k) == 146097 * d + 36524 * e + 1461 * i + 365 * k
  {
    var y := 100 * (4 * d + e) + 4 * i + k;
    Fours(100 * d + 25 * e + i, k);
    Hundreds(4 * d + e, 4 * i + k);
    FourHundreds(d, 100 * e + 4 * i + k);
    assert y / 4 == 100 * d + 25 * e + i && y / 100 == 4 * d + e && y / 400 == d;
  }

  /** 22 March of `100(4d + e) + 4i + k`, modulo the week, from the century parts. */
  lemma MarchWeekday(d: int, e: int, i: int, k: int)
    requires 0 <= e < 4 && 0 <= i < 25 && 0 <= k < 4
    ensures ToEpochDay(Civil(100 * (4 * d + e) + 4 * i + k, 3, 22))
         == 146097 * d + 36524 * e + 1461 * i + 365 * k + 21 - 719468
  {
    EpochDayIsYearAndDay(Civil(100 * (4 * d + e) + 4 * i + k, 3, 22));
    YearStartParts(d, e, i, k);
  }

  /** The one congruence the algorithm rests on: the offset it adds always lands on a Sunday. */
  lemma SundayCongruence(d: int, e: int, i: int, k: int, h: int, l: int, m: int)
    requires (32 + 2 * e + 2 * i - h - k - l) % 7 == 0
    ensures (146097 * d + 36524 * e + 1461 * i + 365 * k + 21 - 719468 + (h + l - 7 * m) + 4) % 7 == 0
  {
    var t := (32 + 2 * e + 2 * i - h - k - l) / 7;
    assert 32 + 2 * e + 2 * i - h - k - l == 7 * t;
    var s := 20871 * d + 5218 * e + 209 * i + 52 * k - 102773 - m - t;
    assert 146097 * d + 36524 * e + 1461 * i + 365 * k + 21 - 719468 + (h + l - 7 * m) + 4 == 0 + 7 * s;
    SevensVanish(0, s);
  }

  /** Easter is a real date from 22 March to 25 April, and a Sunday. */
  lemma EasterIsASunday(year: int)
    requires year >= 0
    ensures IsReal(EasterFields(year))
    ensures !Before(EasterFields(year), Civil(year, 3, 22)) && !Before(Civil(year, 4, 25), EasterFields(year))
    ensures DayOfWeek(EasterFields(year)) == SUNDAY
  {
    var d, e, i, k, h, l, m := EasterParts(year);
    EasterIn(year, EasterFields(year), d, e, i, k, h, l, m);
  }

  lemma EasterIn(year: int, easter: Civil, d: int, e: int, i: int, k: int, h: int, l: int, m: int)
    requires 0 <= e < 4 && 0 <= i < 25 && 0 <= k < 4 && year == 100 * (4 * d + e) + 4 * i + k
    requires (32 + 2 * e + 2 * i - h - k - l) % 7 == 0 && 0 <= h + l - 7 * m <= 34
    requires easter == Civil(year, (h + l - 7 * m + 114) / 31, (h + l - 7 * m + 114) % 31 + 1)
    ensures IsReal(easter) && DayOfWeek(easter) == SUNDAY
    ensures !Before(easter, Civil(year, 3, 22)) && !Before(Civil(year, 4, 25), easter)
  {
    EasterDay(year, h + l - 7 * m);
    SundayAfter(year, easter, d, e, i, k, h, l, m);
  }

  lemma SundayAfter(year: int, easter: IsoDate, d: int, e: int, i: int, k: int, h: int, l: int, m: int)
    requires 0 <= e < 4 && 0 <= i < 25 && 0 <= k < 4 && year == 100 * (4 * d + e) + 4 * i + k
    requires (32 + 2 * e + 2 * i - h - k - l) % 7 == 0
    requires ToEpochDay(easter) == ToEpochDay(Civil(year, 3, 22)) + (h + l - 7 * m)
    ensures DayOfWeek(easter) == SUNDAY
  {
    MarchWeekday(d, e, i, k);
    SundayCongruence(d, e, i, k, h, l, m);
    DayOfWeekIsEuclidean(easter);
  }

  /** One year before year 0: the truncating remainders put the feast outside its season. */
  lemma EasterNeedsACommonEraYear()
    ensures EasterFields(-2) == Civil(-2, 3, 10)
  {
    assert Remainder(-2, 19) == -2 && Remainder(-2, 100) == -2 && Remainder(-1, 4) == -1 && Remainder(-2, 4) == -2;
    assert (-2) / 100 == -1 && (-1) / 4 == -1 && (-2) / 4 == -1 && 7 / 25 == 0;
    assert Remainder(-23, 30) == -23 && Remainder(53, 7) == 4 && (-167) / 451 == -1;
    assert 102 / 31 == 3 && Remainder(102, 31) == 9;
  }

  /** The algorithm's own quantities, and that the date is `h + l - 7m` days after 22 March. */
  lemma EasterParts(year: int) returns (d: int, e: int, i: int, k: int, h: int, l: int, m: int)
    requires year >= 0
    ensures 0 <= e < 4 && 0 <= i < 25 && 0 <= k < 4 && year == 100 * (4 * d + e) + 4 * i + k
    ensures (32 + 2 * e + 2 * i - h - k - l) % 7 == 0
    ensures 0 <= h + l - 7 * m <= 34
    ensures EasterFields(year) == Civil(year, (h + l - 7 * m + 114) / 31, (h + l - 7 * m + 114) % 31 + 1)
  {
    d, e, i, k := CenturyParts(year);
    h := Epact(year);
    l := SundayShift(year, h);
    m := (year % 19 + 11 * h + 22 * l) / 451;
    EpactBounds(year);
    SundayShiftIs(year, h, e, i, k);
    WholeWeeks(32 + 2 * e + 2 * i - h - k);
    EasterOffsetBounds(year % 19, h, l);
    EasterFieldsAre(year, h + l - 7 * m);
  }

  lemma CenturyParts(year: int) returns (d: int, e: int, i: int, k: int)
    requires year >= 0
    ensures 0 <= e < 4 && 0 <= i < 25 && 0 <= k < 4 && year == 100 * (4 * d + e) + 4 * i + k
    ensures e == year / 100 % 4 && i == year % 100 / 4 && k == year % 100 % 4
  {
    var b, c := year / 100, year % 100;
    d, e, i, k := b / 4, b % 4, c / 4, c % 4;
  }

  lemma WholeWeeks(w: int)
    ensures (w - w % 7) % 7 == 0
  {
    SevensVanish(0, w / 7);
    assert w - w % 7 == 0 + 7 * (w / 7);
  }

  // No remainder the algorithm takes is of a negative number, from year 0 on.

  lemma EpactBounds(year: int)
    requires year >= 0
    ensures 0 <= Epact(year) < 30
  {
    EpactIsNonNegative(year / 100);
  }

  lemma SundayShiftIs(year: int, h: int, e: int, i: int, k: int)
    requires year >= 0 && h < 30 && e == year / 100 % 4 && i == year % 100 / 4 && k == year % 100 % 4
    ensures SundayShift(year, h) == (32 + 2 * e + 2 * i - h - k) % 7
  {
  }

  lemma EasterFieldsAre(year: int, offset: int)
    requires year >= 0 && 0 <= offset == EasterOffset(year % 19, Epact(year), SundayShift(year, Epact(year)))
    ensures EasterFields(year) == Civil(year, (offset + 114) / 31, (offset + 114) % 31 + 1)
  {
    assert Remainder(year, 19) == year % 19;
    assert Remainder(offset + 114, 31) == (offset + 114) % 31;
  }

  lemma EasterDay(year: int, offset: int)
    requires 0 <= offset <= 34
    ensures var easter := Civil(year, (offset + 114) / 31, (offset + 114) % 31 + 1);
            && IsReal(easter) && ToEpochDay(easter) == ToEpochDay(Civil(year, 3, 22)) + offset
            && !Before(easter, Civil(year, 3, 22)) && !Before(Civil(year, 4, 25), easter)
  {
    var easter := Civil(year, (offset + 114) / 31, (offset + 114) % 31 + 1);
    if offset < 10 {
      assert easter == Civil(year, 3, 22 + offset);
    } else {
      assert easter == Civil(year, 4, offset - 9);
    }
  }
}
