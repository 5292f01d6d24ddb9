/**
 * Which Sunday Easter is: the one in the week after the paschal full moon, where the moon is told from year to
 * year by the nineteen-year cycle and the two corrections of the centuries.
 */
module EasterMoon {
  import opened CivilDates

  /** Century years in which the moon is moved a day earlier: 1800, every third to 3900, then 4300, and so on. */
  predicate IsLunarCentury(century: nat) {
    var j := (century + 7) % 25;
    j % 3 == 0 && j < 24
  }

  /** A century year that is no leap year makes the moon a day later; a lunar one makes it a day earlier. */
  function CenturyShift(century: nat): int {
    (if century % 4 != 0 then 1 else 0) - (if IsLunarCentury(century) then 1 else 0)
  }

  /**
   * The moon in days after 21 March, before the two late dates are mended, in a cycle of thirty: eleven days earlier
   * each year, and twelve when the nineteen-year cycle begins again.
   */
  function Moon(year: nat): (m: nat)
    ensures m < 30
  {
    if year == 0 then 15
    else
      (Moon(year - 1) - (if year % 19 == 0 then 12 else 11)
       + if year % 100 == 0 then CenturyShift(year / 100) else 0) % 30
  }

  /** The 29th day becomes the 28th; the 28th becomes the 27th in the later years of the cycle. */
  function PaschalMoon(year: nat): int {
    if Moon(year) == 29 then 28
    else if Moon(year) == 28 && year % 19 > 10 then 27
    else Moon(year)
  }

  // ---------------------------------------------------------------- the algorithm follows the moon

  /** The lunar correction of the algorithm. */
  function Lunar(b: nat): int {
    (b - (b + 8) / 25 + 1) / 3
  }

  lemma LunarSteps(b: nat)
    requires b > 0
    ensures Lunar(b) - Lunar(b - 1) == if IsLunarCentury(b) then 1 else 0
  {
    var q, j := (b + 7) / 25, (b + 7) % 25;
    LunarAt(b, q, j);
    if j < 24 {
      NextThird(24 * q + j - 7);
      ThreesVanish(j, 8 * q - 2);
    }
  }

  lemma LunarAt(b: nat, q: nat, j: nat)
    requires b > 0 && b + 7 == 25 * q + j && j < 25
    ensures Lunar(b - 1) == (24 * q + j - 7) / 3
    ensures Lunar(b) == (24 * q + (if j == 24 then 23 else j) - 6) / 3
  {
    assert (b - 1 + 8) / 25 == q;
    assert (b + 8) / 25 == if j == 24 then q + 1 else q;
  }

  lemma NextThird(x: int)
    ensures (x + 1) / 3 - x / 3 == if (x + 1) % 3 == 0 then 1 else 0
  {
  }

  lemma ThreesVanish(r: int, k: int)
    ensures (r + 3 * k) % 3 == r % 3
  {
  }

  /** What the algorithm takes the remainder of. */
  function Raw(year: nat): int {
    19 * (year % 19) + Centuries(year / 100) + 15
  }

  function Centuries(b: nat): int {
    b - b / 4 - Lunar(b)
  }

  lemma CenturySteps(b: nat)
    requires b > 0
    ensures Centuries(b) == Centuries(b - 1) + CenturyShift(b)
  {
    LunarSteps(b);
    assert b / 4 - (b - 1) / 4 == if b % 4 == 0 then 1 else 0;
  }

  lemma CycleSteps(year: nat)
    requires year > 0
    ensures year % 19 == if (year - 1) % 19 == 18 then 0 else (year - 1) % 19 + 1
  {
  }

  lemma YearsInCentury(year: nat)
    requires year > 0
    ensures (year - 1) / 100 == if year % 100 == 0 then year / 100 - 1 else year / 100
  {
    var b, c := year / 100, year % 100;
    assert year == 100 * b + c;
  }

  lemma EpactIsRaw(year: nat)
    ensures Epact(year) == Raw(year) % 30
  {
    EpactIsNonNegative(year / 100);
  }

  lemma RawSteps(year: nat, back: int, shift: int, k: int)
    requires year > 0 && back == (if year % 19 == 0 then 12 else 11)
    requires shift == (if year % 100 == 0 then CenturyShift(year / 100) else 0)
    requires k == if year % 19 == 0 then -11 else 1
    ensures Raw(year) == Raw(year - 1) + shift - back + 30 * k
  {
    CycleSteps(year);
    YearsInCentury(year);
    if year % 100 == 0 {
      CenturySteps(year / 100);
    }
  }

  lemma Thirties(x: int, y: int, k: int)
    requires x == y + 30 * k
    ensures x % 30 == y % 30
  {
  }

  lemma ShiftedRemainder(x: int, k: int)
    ensures (x % 30 + k) % 30 == (x + k) % 30
  {
    Thirties(x + k, x % 30 + k, x / 30);
  }

  lemma OneYearOn(raw: int, before: int, moon: int, back: int, shift: int, k: int)
    requires raw == before + shift - back + 30 * k && moon == before % 30
    ensures raw % 30 == (moon - back + shift) % 30
  {
    ShiftedRemainder(before, shift - back);
    Thirties(raw, before + (shift - back), k);
  }

  lemma FirstCentury(b: nat)
    requires b == 0
    ensures Centuries(b) == 0
  {
  }

  lemma FirstMoon(year: nat)
    requires year == 0
    ensures Moon(year) == 15
  {
  }

  lemma FirstRaw(year: nat)
    requires year == 0
    ensures Raw(year) == 15
  {
    FirstCentury(year / 100);
  }

  lemma MoonSteps(year: nat, before: int, back: int, shift: int)
    requires year > 0 && back == (if year % 19 == 0 then 12 else 11) && before == Moon(year - 1)
    requires shift == if year % 100 == 0 then CenturyShift(year / 100) else 0
    ensures Moon(year) == (before - back + shift) % 30
  {
  }

  lemma {:induction false} MoonIsRaw(year: nat)
    ensures Moon(year) == Raw(year) % 30
  {
    if year > 0 {
      var back := if year % 19 == 0 then 12 else 11;
      var shift := if year % 100 == 0 then CenturyShift(year / 100) else 0;
      var before := Raw(year - 1);
      MoonIsRaw(year - 1);
      MoonSteps(year, before % 30, back, shift);
      RawSteps(year, back, shift, if year % 19 == 0 then -11 else 1);
      OneYearOn(Raw(year), before, before % 30, back, shift, if year % 19 == 0 then -11 else 1);
    } else {
      FirstMoon(year);
      FirstRaw(year);
    }
  }

  lemma MoonIsEpact(year: nat)
    ensures Moon(year) == Epact(year)
  {
    EpactIsRaw(year);
    MoonIsRaw(year);
  }

  /** The last step of the algorithm is the mending of the two late dates. */
  lemma OffsetFollowsMoon(a: int, h: int, l: int)
    requires 0 <= a < 19 && 0 <= h < 30 && 0 <= l < 7
    ensures var moon := if h == 29 then 28 else if h == 28 && a > 10 then 27 else h;
            moon <= EasterOffset(a, h, l) <= moon + 6
  {
    var x := a + 11 * h + 22 * l;
    assert x / 451 == if x >= 451 then 1 else 0;
  }

  lemma EquinoxAndNext(year: nat)
    ensures ToEpochDay(Civil(year, 3, 22)) == ToEpochDay(Civil(year, 3, 21)) + 1
  {
    EpochDayIsYearAndDay(Civil(year, 3, 21));
    EpochDayIsYearAndDay(Civil(year, 3, 22));
  }

  lemma ShiftBounds(year: nat, h: int)
    requires 0 <= h < 30
    ensures 0 <= SundayShift(year, h) < 7
  {
    var d, e, i, k := CenturyParts(year);
    SundayShiftIs(year, h, e, i, k);
  }

  /** The date, from the moon and the way to the next Sunday. */
  lemma EasterFrom(year: nat, h: int, l: int)
    requires h == Epact(year) && l == SundayShift(year, h)
    ensures 0 <= h < 30 && 0 <= l < 7
    ensures var offset := EasterOffset(year % 19, h, l);
            EasterFields(year) == Civil(year, (offset + 114) / 31, (offset + 114) % 31 + 1)
  {
    EpactBounds(year);
    ShiftBounds(year, h);
    EasterOffsetBounds(year % 19, h, l);
    EasterFieldsAre(year, EasterOffset(year % 19, h, l));
  }

  lemma EasterDayIs(year: nat, offset: int)
    requires offset == EasterOffset(year % 19, Epact(year), SundayShift(year, Epact(year)))
    ensures IsReal(EasterFields(year))
    ensures ToEpochDay(EasterFields(year)) == ToEpochDay(Civil(year, 3, 21)) + 1 + offset
  {
    EasterFrom(year, Epact(year), SundayShift(year, Epact(year)));
    EasterOffsetBounds(year % 19, Epact(year), SundayShift(year, Epact(year)));
    EasterDay(year, offset);
    EquinoxAndNext(year);
  }

  lemma OffsetInWeek(year: nat, offset: int)
    requires offset == EasterOffset(year % 19, Epact(year), SundayShift(year, Epact(year)))
    ensures PaschalMoon(year) <= offset <= PaschalMoon(year) + 6
  {
    EpactBounds(year);
    ShiftBounds(year, Epact(year));
    MoonIsEpact(year);
    OffsetFollowsMoon(year % 19, Epact(year), SundayShift(year, Epact(year)));
  }

  /** Easter is the Sunday one to seven days after the paschal full moon. */
  lemma EasterFollowsMoon(year: nat)
    ensures IsReal(EasterFields(year)) && DayOfWeek(EasterFields(year)) == SUNDAY
    ensures 1 <= ToEpochDay(EasterFields(year)) - (ToEpochDay(Civil(year, 3, 21)) + PaschalMoon(year)) <= 7
  {
    EasterIsASunday(year);
    var offset := EasterOffset(year % 19, Epact(year), SundayShift(year, Epact(year)));
    EasterDayIs(year, offset);
    OffsetInWeek(year, offset);
  }

  /** In the years from 2000 to 2099. */
  lemma RawOf(year: nat, a: int, raw: int)
    requires 2000 <= year < 2100 && a == year % 19 && raw == 19 * a + 24
    ensures Epact(year) == raw % 30
  {
    EpactIsRaw(year);
    assert year / 100 == 20 && Lunar(20) == 6;
  }

  lemma ShiftOf(year: nat, h: int, c: int)
    requires 2000 <= year < 2100 && 0 <= h < 30 && c == year - 2000
    ensures SundayShift(year, h) == (32 + 2 * (c / 4) - h - c % 4) % 7
  {
    SundayShiftIs(year, h, 0, c / 4, c % 4);
  }

  lemma Easter2024()
    ensures EasterFields(2024) == Civil(2024, 3, 31)
  {
    RawOf(2024, 10, 214);
    ShiftOf(2024, 4, 24);
    EasterFrom(2024, 4, 5);
    assert EasterOffset(10, 4, 5) == 9;
  }

  lemma Easter2025()
    ensures EasterFields(2025) == Civil(2025, 4, 20)
  {
    RawOf(2025, 11, 233);
    ShiftOf(2025, 23, 25);
    EasterFrom(2025, 23, 6);
    assert EasterOffset(11, 23, 6) == 29;
  }

  lemma Easter2026()
    ensures EasterFields(2026) == Civil(2026, 4, 5)
  {
    RawOf(2026, 12, 252);
    ShiftOf(2026, 12, 26);
    EasterFrom(2026, 12, 2);
    assert EasterOffset(12, 12, 2) == 14;
  }
}
