/**
 * Rule calendars: a memoised index over an arbitrary holiday rule, and the union of several calendars.
 *
 * The source's insertion-ordered maps keyed by day are sequences with at most one row a day.
 */
module Calendar {
  import opened Util
  import opened CivilDates

  datatype HolidayKind = ClosedDay | EarlyClose

  datatype Holiday = Holiday(day: IsoDate, name: string, kind: HolidayKind, closeTime: Option<string>)

  /** Every row whose rule belongs to a year; a row may lie in a neighbouring year. */
  type HolidayRule = int -> seq<Holiday>

  predicate IsWeekend(d: IsoDate) {
    DayOfWeek(d) == SATURDAY || DayOfWeek(d) == SUNDAY
  }

  /** Two days of every seven: the second and third after the first of January 1970, and so on. */
  lemma WeekendsAre(d: IsoDate)
    ensures IsWeekend(d) <==> ToEpochDay(d) % 7 == 2 || ToEpochDay(d) % 7 == 3
  {
    DayOfWeekIsEuclidean(d);
    WeekRemainder(ToEpochDay(d) + 4, -4);
    WeekdayIs(DayOfWeek(d));
  }

  // ---------------------------------------------------------------- day-keyed maps

  function Lookup(rows: seq<Holiday>, day: IsoDate): (r: Option<Holiday>)
    ensures r.Some? ==> r.value in rows && r.value.day == day
    ensures r.None? ==> forall h :: h in rows ==> h.day != day
  {
    if rows == [] then None
    else
      var n := |rows| - 1;
      assert rows == rows[..n] + [rows[n]];
      if rows[n].day == day then Some(rows[n]) else Lookup(rows[..n], day)
  }

  /** One row a day. */
  predicate DistinctDays(rows: seq<Holiday>) {
    forall i, j :: 0 <= i < j < |rows| ==> rows[i].day != rows[j].day
  }

  lemma LookupNext(rows: seq<Holiday>, h: Holiday, day: IsoDate)
    ensures Lookup(rows + [h], day) == if h.day == day then Some(h) else Lookup(rows, day)
  {
    assert (rows + [h])[..|rows|] == rows;
  }

  lemma LookupOne(rows: seq<Holiday>, h: Holiday)
    requires h in rows && DistinctDays(rows)
    ensures Lookup(rows, h.day) == Some(h)
  {
    var r := Lookup(rows, h.day);
    assert r.Some?;
    var i :| 0 <= i < |rows| && rows[i] == h;
    var j :| 0 <= j < |rows| && rows[j] == r.value;
  }

  lemma {:induction false} LookupConcat(a: seq<Holiday>, b: seq<Holiday>, day: IsoDate)
    ensures Lookup(a + b, day) == if Lookup(b, day).Some? then Lookup(b, day) else Lookup(a, day)
  {
    if b == [] {
      assert a + b == a;
    } else {
      var n := |b| - 1;
      LookupConcat(a, b[..n], day);
      LookupNext(a + b[..n], b[n], day);
      assert a + b == a + b[..n] + [b[n]];
    }
  }

  // ---------------------------------------------------------------- the index of one year

  function Rows(rule: HolidayRule, year: int): seq<Holiday> {
    rule(year - 1) + rule(year) + rule(year + 1)
  }

  predicate Belongs(h: Holiday, year: int) {
    h.day.year == year && !IsWeekend(h.day)
  }

  /** The first row of each day and kind that belongs to the year. */
  function Bucket(rows: seq<Holiday>, year: int, kind: HolidayKind): seq<Holiday> {
    if rows == [] then []
    else
      var n := |rows| - 1;
      var front := Bucket(rows[..n], year, kind);
      if Belongs(rows[n], year) && rows[n].kind == kind && Lookup(front, rows[n].day).None?
      then front + [rows[n]] else front
  }

  /** The rows whose day the others do not have. */
  function Without(rows: seq<Holiday>, others: seq<Holiday>): seq<Holiday> {
    if rows == [] then []
    else
      var n := |rows| - 1;
      if Lookup(others, rows[n].day).None? then Without(rows[..n], others) + [rows[n]] else Without(rows[..n], others)
  }

  /** Closures first; an early close never survives on a day that is also closed. */
  function Index(rule: HolidayRule, year: int): seq<Holiday> {
    var closed := Bucket(Rows(rule, year), year, ClosedDay);
    closed + Without(Bucket(Rows(rule, year), year, EarlyClose), closed)
  }

  /** Put one row into its bucket, unless its day is there already. */
  method FileRow(h: Holiday, year: int, closed0: seq<Holiday>, early0: seq<Holiday>, ghost done: seq<Holiday>)
    returns (closed: seq<Holiday>, early: seq<Holiday>)
    requires closed0 == Bucket(done, year, ClosedDay) && early0 == Bucket(done, year, EarlyClose)
    ensures closed == Bucket(done + [h], year, ClosedDay) && early == Bucket(done + [h], year, EarlyClose)
  {
    closed, early := closed0, early0;
    BucketNext(done, h, year, ClosedDay);
    BucketNext(done, h, year, EarlyClose);
    if h.day.year != year { return; }
    if IsWeekend(h.day) { return; }
    if h.kind == ClosedDay {
      if Lookup(closed, h.day) == None { closed := closed + [h]; }
    } else {
      if Lookup(early, h.day) == None { early := early + [h]; }
    }
  }

  method FileRows(rows: seq<Holiday>, year: int, closed0: seq<Holiday>, early0: seq<Holiday>,
                  ghost before: seq<Holiday>)
    returns (closed: seq<Holiday>, early: seq<Holiday>)
    requires closed0 == Bucket(before, year, ClosedDay) && early0 == Bucket(before, year, EarlyClose)
    ensures closed == Bucket(before + rows, year, ClosedDay) && early == Bucket(before + rows, year, EarlyClose)
  {
    closed, early := closed0, early0;
    ghost var all, done := before + rows, before;
    assert all[..|before|] == before;
    for i := 0 to |rows|
      invariant done == all[..|before| + i]
      invariant closed == Bucket(done, year, ClosedDay) && early == Bucket(done, year, EarlyClose)
    {
      closed, early := FileRow(rows[i], year, closed, early, done);
      assert all[|before| + i] == rows[i];
      done := done + [rows[i]];
    }
    assert done == all;
  }

  function RowsFrom(rule: HolidayRule, lo: int, hi: int): seq<Holiday>
    decreases hi - lo
  {
    if hi <= lo then [] else RowsFrom(rule, lo, hi - 1) + rule(hi - 1)
  }

  lemma RowsFromIsRows(rule: HolidayRule, year: int)
    ensures RowsFrom(rule, year - 1, year + 2) == Rows(rule, year)
  {
    var first := RowsFrom(rule, year - 1, year);
    assert first == RowsFrom(rule, year - 1, year - 1) + rule(year - 1) == rule(year - 1);
    assert RowsFrom(rule, year - 1, year + 1) == first + rule(year);
  }

  lemma BucketNext(rows: seq<Holiday>, h: Holiday, year: int, kind: HolidayKind)
    ensures var front := Bucket(rows, year, kind);
            Bucket(rows + [h], year, kind)
            == if Belongs(h, year) && h.kind == kind && Lookup(front, h.day).None? then front + [h] else front
  {
    assert (rows + [h])[..|rows|] == rows;
  }

  /** Early closes join the closures on the days the index does not have yet. */
  method MergeEarly(ghost rows: seq<Holiday>, ghost year: int, closed: seq<Holiday>, early: seq<Holiday>)
    returns (index: seq<Holiday>)
    requires early == Bucket(rows, year, EarlyClose)
    ensures index == closed + Without(early, closed)
  {
    index := closed;
    BucketDistinct(rows, year, EarlyClose);
    for i := 0 to |early|
      invariant index == closed + Without(early[..i], closed)
    {
      assert early[..i + 1][..i] == early[..i];
      WithoutLookup(early[..i], closed, early[i].day);
      LookupConcat(closed, Without(early[..i], closed), early[i].day);
      assert Lookup(early[..i], early[i].day) == None;
      if Lookup(index, early[i].day) == None {
        index := index + [early[i]];
      }
    }
    assert early[..|early|] == early;
  }

  /** The two buckets of a year, from the rule of the year and its neighbours. */
  method FileYears(rule: HolidayRule, year: int) returns (closed: seq<Holiday>, early: seq<Holiday>)
    ensures closed == Bucket(RowsFrom(rule, year - 1, year + 2), year, ClosedDay)
    ensures early == Bucket(RowsFrom(rule, year - 1, year + 2), year, EarlyClose)
  {
    closed, early := [], [];
    var y := year - 1;
    while y <= year + 1
      invariant year - 1 <= y <= year + 2
      invariant closed == Bucket(RowsFrom(rule, year - 1, y), year, ClosedDay)
      invariant early == Bucket(RowsFrom(rule, year - 1, y), year, EarlyClose)
    {
      closed, early := FileRows(rule(y), year, closed, early, RowsFrom(rule, year - 1, y));
      y := y + 1;
    }
  }

  method BuildIndex(rule: HolidayRule, year: int) returns (index: seq<Holiday>)
    ensures index == Index(rule, year)
  {
    var closed, early := FileYears(rule, year);
    RowsFromIsRows(rule, year);
    index := MergeEarly(Rows(rule, year), year, closed, early);
  }

  class RuleCalendar {
    const rule: HolidayRule
    var cache: map<int, seq<Holiday>>

    constructor (rule: HolidayRule)
      ensures Valid() && this.rule == rule
    {
      this.rule := rule;
      cache := map[];
    }

    /** The cache never disagrees with the rule. */
    ghost predicate Valid()
      reads this
    {
      forall y :: y in cache ==> cache[y] == Index(rule, y)
    }

    method IndexFor(year: int) returns (index: seq<Holiday>)
      requires Valid()
      modifies this`cache
      ensures Valid() && index == Index(rule, year)
    {
      if year in cache {
        return cache[year];
      }
      index := BuildIndex(rule, year);
      cache := cache[year := index];
    }

    method Entry(date: IsoDate) returns (e: Option<Holiday>)
      requires Valid()
      modifies this`cache
      ensures Valid() && e == EntryOf(rule, date)
    {
      var index := IndexFor(date.year);
      e := Lookup(index, date);
    }

    method IsHoliday(date: IsoDate) returns (r: bool)
      requires Valid()
      modifies this`cache
      ensures Valid() && r == (!IsWeekend(date) && IsClosed(rule, date))
    {
      if IsWeekend(date) { return false; }
      var e := Entry(date);
      r := e.Some? && e.value.kind == ClosedDay;
    }

    method IsBusinessDay(date: IsoDate) returns (r: bool)
      requires Valid()
      modifies this`cache
      ensures Valid() && r == IsBusiness(rule, date)
    {
      if IsWeekend(date) { return false; }
      var e := Entry(date);
      r := !(e.Some? && e.value.kind == ClosedDay);
    }

    method HolidayName(date: IsoDate) returns (name: Option<string>)
      requires Valid()
      modifies this`cache
      ensures Valid() && name == if IsClosed(rule, date) then Some(EntryOf(rule, date).value.name) else None
    {
      var e := Entry(date);
      name := if e.Some? && e.value.kind == ClosedDay then Some(e.value.name) else None;
    }

    method EarlyCloseOn(date: IsoDate) returns (e: Option<Holiday>)
      requires Valid()
      modifies this`cache
      ensures Valid() && e == EarlyCloseOf(rule, date)
    {
      if IsWeekend(date) { return None; }
      var entry := Entry(date);
      e := if entry.Some? && entry.value.kind == EarlyClose then entry else None;
    }

    method Holidays(fromYear: int, toYear: int) returns (out: seq<Holiday>)
      requires Valid()
      modifies this`cache
      ensures Valid() && out == HolidaysOf(rule, fromYear, toYear)
    {
      var all := CollectIndexes(fromYear, toYear);
      out := SortByDay(all);
    }

    /** The indexes of a range of years, one after another. */
    method CollectIndexes(fromYear: int, toYear: int) returns (all: seq<Holiday>)
      requires Valid()
      modifies this`cache
      ensures Valid() && all == IndexesOf(rule, fromYear, toYear)
    {
      all := [];
      var y := fromYear;
      while y <= toYear
        invariant Valid()
        invariant fromYear <= y && (y == fromYear || y <= toYear + 1)
        invariant all == IndexesOf(rule, fromYear, y - 1)
        decreases toYear - y
      {
        var index := IndexFor(y);
        IndexesNext(rule, fromYear, y);
        all := all + index;
        y := y + 1;
      }
    }
  }

  // ---------------------------------------------------------------- what the index says about a day

  function EntryOf(rule: HolidayRule, date: IsoDate): Option<Holiday> {
    Lookup(Index(rule, date.year), date)
  }

  predicate IsClosed(rule: HolidayRule, date: IsoDate) {
    EntryOf(rule, date).Some? && EntryOf(rule, date).value.kind == ClosedDay
  }

  predicate IsBusiness(rule: HolidayRule, date: IsoDate) {
    !IsWeekend(date) && !IsClosed(rule, date)
  }

  function EarlyCloseOf(rule: HolidayRule, date: IsoDate): Option<Holiday> {
    var e := EntryOf(rule, date);
    if !IsWeekend(date) && e.Some? && e.value.kind == EarlyClose then e else None
  }

  /** The first row of a day and kind, in the order the rule gives them. */
  function FirstRow(rows: seq<Holiday>, date: IsoDate, kind: HolidayKind): (r: Option<Holiday>)
    ensures r.Some? ==> r.value in rows && r.value.day == date && r.value.kind == kind
    ensures r.None? ==> forall h :: h in rows ==> !(h.day == date && h.kind == kind)
  {
    if rows == [] then None
    else
      var n := |rows| - 1;
      assert rows == rows[..n] + [rows[n]];
      var front := FirstRow(rows[..n], date, kind);
      if front.Some? then front
      else if rows[n].day == date && rows[n].kind == kind then Some(rows[n]) else None
  }

  lemma {:induction false} BucketLookup(rows: seq<Holiday>, year: int, kind: HolidayKind, date: IsoDate)
    ensures Lookup(Bucket(rows, year, kind), date)
         == if date.year == year && !IsWeekend(date) then FirstRow(rows, date, kind) else None
  {
    if rows != [] {
      var n := |rows| - 1;
      BucketLookup(rows[..n], year, kind, date);
      LookupNext(Bucket(rows[..n], year, kind), rows[n], date);
    }
  }

  lemma {:induction false} BucketDistinct(rows: seq<Holiday>, year: int, kind: HolidayKind)
    ensures DistinctDays(Bucket(rows, year, kind))
    ensures forall h :: h in Bucket(rows, year, kind) ==> Belongs(h, year) && h.kind == kind && h in rows
  {
    if rows != [] {
      BucketDistinct(rows[..|rows| - 1], year, kind);
      assert rows == rows[..|rows| - 1] + [rows[|rows| - 1]];
    }
  }

  lemma {:induction false} WithoutLookup(rows: seq<Holiday>, others: seq<Holiday>, date: IsoDate)
    ensures Lookup(Without(rows, others), date) == if Lookup(others, date).Some? then None else Lookup(rows, date)
  {
    if rows != [] {
      var n := |rows| - 1;
      WithoutLookup(rows[..n], others, date);
      if Lookup(others, rows[n].day).None? {
        LookupNext(Without(rows[..n], others), rows[n], date);
      }
    }
  }

  lemma {:induction false} WithoutDistinct(rows: seq<Holiday>, others: seq<Holiday>)
    requires DistinctDays(rows)
    ensures DistinctDays(Without(rows, others))
    ensures forall h :: h in Without(rows, others) ==> h in rows && Lookup(others, h.day).None?
  {
    if rows != [] {
      WithoutDistinct(rows[..|rows| - 1], others);
      assert rows == rows[..|rows| - 1] + [rows[|rows| - 1]];
    }
  }

  /**
   * A rule calendar answers from the rule alone, over the three years around the date: on a weekend
   * nothing, else the first closure if there is one, else the first early close.
   */
  lemma EntryIsFirstRow(rule: HolidayRule, date: IsoDate)
    ensures EntryOf(rule, date)
         == if IsWeekend(date) then None
            else if FirstRow(Rows(rule, date.year), date, ClosedDay).Some?
            then FirstRow(Rows(rule, date.year), date, ClosedDay)
            else FirstRow(Rows(rule, date.year), date, EarlyClose)
  {
    var rows := Rows(rule, date.year);
    var closed, early := Bucket(rows, date.year, ClosedDay), Bucket(rows, date.year, EarlyClose);
    BucketLookup(rows, date.year, ClosedDay, date);
    BucketLookup(rows, date.year, EarlyClose, date);
    WithoutLookup(early, closed, date);
    LookupConcat(closed, Without(early, closed), date);
  }

  /** The index never lists a weekend, a day of another year, or one day twice. */
  lemma IndexIsClean(rule: HolidayRule, year: int)
    ensures DistinctDays(Index(rule, year))
    ensures forall h :: h in Index(rule, year) ==> Belongs(h, year) && h in Rows(rule, year)
  {
    var rows := Rows(rule, year);
    var closed, early := Bucket(rows, year, ClosedDay), Bucket(rows, year, EarlyClose);
    BucketDistinct(rows, year, ClosedDay);
    BucketDistinct(rows, year, EarlyClose);
    WithoutDistinct(early, closed);
    var rest := Without(early, closed);
    forall i, j | 0 <= i < j < |closed + rest|
      ensures (closed + rest)[i].day != (closed + rest)[j].day
    {
      if i < |closed| <= j {
        assert rest[j - |closed|] in rest && closed[i] in closed;
      }
    }
  }

  // ---------------------------------------------------------------- listings

  function InsertBy(key: Holiday -> int, rows: seq<Holiday>, h: Holiday): (r: seq<Holiday>)
    ensures multiset(r) == multiset(rows) + multiset{h}
  {
    if rows == [] || key(rows[|rows| - 1]) <= key(h) then rows + [h]
    else
      var n := |rows| - 1;
      assert rows == rows[..n] + [rows[n]];
      InsertBy(key, rows[..n], h) + [rows[n]]
  }

  /** The stable ascending sort. */
  function SortBy(key: Holiday -> int, rows: seq<Holiday>): (r: seq<Holiday>)
    ensures multiset(r) == multiset(rows)
  {
    if rows == [] then []
    else
      var n := |rows| - 1;
      assert rows == rows[..n] + [rows[n]];
      InsertBy(key, SortBy(key, rows[..n]), rows[n])
  }

  function DayKey(): Holiday -> int {
    (h: Holiday) => ToEpochDay(h.day)
  }

  function SortByDay(rows: seq<Holiday>): seq<Holiday> {
    SortBy(DayKey(), rows)
  }

  predicate Ascending(key: Holiday -> int, rows: seq<Holiday>) {
    forall i, j :: 0 <= i < j < |rows| ==> key(rows[i]) <= key(rows[j])
  }

  lemma InsertHasRow(key: Holiday -> int, rows: seq<Holiday>, h: Holiday, x: Holiday)
    ensures x in InsertBy(key, rows, h) <==> x == h || x in rows
  {
    assert x in InsertBy(key, rows, h) <==> x in multiset(InsertBy(key, rows, h));
  }

  lemma {:induction false} InsertKeepsAscending(key: Holiday -> int, rows: seq<Holiday>, h: Holiday)
    requires Ascending(key, rows)
    ensures Ascending(key, InsertBy(key, rows, h))
  {
    if rows != [] && key(rows[|rows| - 1]) > key(h) {
      var n := |rows| - 1;
      InsertKeepsAscending(key, rows[..n], h);
      var front := InsertBy(key, rows[..n], h);
      forall k | 0 <= k < |front|
        ensures key(front[k]) <= key(rows[n])
      {
        InsertHasRow(key, rows[..n], h, front[k]);
      }
    }
  }

  lemma {:induction false} SortAscends(key: Holiday -> int, rows: seq<Holiday>)
    ensures Ascending(key, SortBy(key, rows))
  {
    if rows != [] {
      SortAscends(key, rows[..|rows| - 1]);
      InsertKeepsAscending(key, SortBy(key, rows[..|rows| - 1]), rows[|rows| - 1]);
    }
  }

  /** Listings are in the order of their days. */
  lemma SortIsAscending(rows: seq<Holiday>)
    ensures var r := SortByDay(rows); forall i, j :: 0 <= i < j < |r| ==> ToEpochDay(r[i].day) <= ToEpochDay(r[j].day)
  {
    SortAscends(DayKey(), rows);
    var r := SortByDay(rows);
    forall i, j | 0 <= i < j < |r|
      ensures ToEpochDay(r[i].day) <= ToEpochDay(r[j].day)
    {
      assert DayKey()(r[i]) <= DayKey()(r[j]);
    }
  }

  lemma SortKeepsRows(rows: seq<Holiday>)
    ensures forall h :: h in SortByDay(rows) <==> h in rows
  {
    forall h
      ensures h in SortByDay(rows) <==> h in rows
    {
      assert h in rows <==> h in multiset(rows);
      assert h in SortByDay(rows) <==> h in multiset(SortByDay(rows));
    }
  }

  /** The indexes of `lo..hi`, one after another. */
  function IndexesOf(rule: HolidayRule, lo: int, hi: int): seq<Holiday>
    decreases hi - lo
  {
    if hi < lo then [] else IndexesOf(rule, lo, hi - 1) + Index(rule, hi)
  }

  lemma IndexesNext(rule: HolidayRule, lo: int, y: int)
    requires lo <= y
    ensures IndexesOf(rule, lo, y) == IndexesOf(rule, lo, y - 1) + Index(rule, y)
  {
  }

  function HolidaysOf(rule: HolidayRule, fromYear: int, toYear: int): seq<Holiday> {
    SortByDay(IndexesOf(rule, fromYear, toYear))
  }
}
