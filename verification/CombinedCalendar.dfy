/** `combine`: the union of calendars, built row by row, against what it must say about each day. */
module CombinedCalendar {
  import opened Util
  import opened CivilDates
  import opened Calendar

  datatype Member = Member(id: string, rule: HolidayRule)

  /** `Map.set`: a day already there keeps its place. */
  function Put(rows: seq<Holiday>, h: Holiday): seq<Holiday> {
    if rows == [] then [h]
    else
      var n := |rows| - 1;
      if rows[n].day == h.day then rows[..n] + [h] else Put(rows[..n], h) + [rows[n]]
  }

  datatype Union = Union(closed: seq<Holiday>, early: seq<Holiday>)

  function JoinName(prior: Option<Holiday>, h: Holiday, id: string): string {
    (if prior.Some? then prior.value.name + " / " else "") + h.name + " (" + id + ")"
  }

  /** Does a new early close replace the one already there? */
  predicate TakesOver(prior: Option<Holiday>, h: Holiday) {
    || prior.None? || prior.value.closeTime.None?
    || (h.closeTime.Some? && Less(h.closeTime.value, prior.value.closeTime.value))
  }

  function ClosedRow(prior: Option<Holiday>, h: Holiday, id: string): Holiday {
    Holiday(h.day, JoinName(prior, h, id), ClosedDay, None)
  }

  function EarlyRow(h: Holiday, id: string): Holiday {
    Holiday(h.day, JoinName(None, h, id), EarlyClose, h.closeTime)
  }

  function AddRow(u: Union, id: string, h: Holiday): Union {
    if h.kind == ClosedDay then u.(closed := Put(u.closed, ClosedRow(Lookup(u.closed, h.day), h, id)))
    else if TakesOver(Lookup(u.early, h.day), h) then u.(early := Put(u.early, EarlyRow(h, id)))
    else u
  }

  function AddRows(u: Union, id: string, rows: seq<Holiday>): Union {
    if rows == [] then u else AddRow(AddRows(u, id, rows[..|rows| - 1]), id, rows[|rows| - 1])
  }

  function AddMembers(cals: seq<Member>, year: int): Union {
    if cals == [] then Union([], [])
    else
      var last := cals[|cals| - 1];
      AddRows(AddMembers(cals[..|cals| - 1], year), last.id, HolidaysOf(last.rule, year, year))
  }

  /** The combined rule of one year. */
  function CombinedRows(cals: seq<Member>, year: int): seq<Holiday> {
    var u := AddMembers(cals, year);
    SortByDay(u.closed + Without(u.early, u.closed))
  }

  /** Nothing to combine is an error; one calendar under its own name is itself. */
  function Combine(cals: seq<Member>, renamed: bool): Option<HolidayRule> {
    if cals == [] then None
    else if |cals| == 1 && !renamed then Some(cals[0].rule)
    else Some(UnionRule(cals))
  }

  function UnionRule(cals: seq<Member>): HolidayRule {
    year => CombinedRows(cals, year)
  }

  /** The source's two loops over members and their rows. */
  method UnionRows(cals: seq<Member>, year: int) returns (out: seq<Holiday>)
    ensures out == CombinedRows(cals, year)
  {
    var u := Union([], []);
    for i := 0 to |cals|
      invariant u == AddMembers(cals[..i], year)
    {
      assert cals[..i + 1][..i] == cals[..i];
      var member := new RuleCalendar(cals[i].rule);
      var rows := member.Holidays(year, year);
      u := FileMember(u, cals[i].id, rows);
    }
    assert cals[..|cals|] == cals;
    out := AppendEarly(u);
    out := SortByDay(out);
  }

  method FileMember(u0: Union, id: string, rows: seq<Holiday>) returns (u: Union)
    ensures u == AddRows(u0, id, rows)
  {
    var closed, early := u0.closed, u0.early;
    for k := 0 to |rows|
      invariant Union(closed, early) == AddRows(u0, id, rows[..k])
    {
      assert rows[..k + 1][..k] == rows[..k];
      var h := rows[k];
      if h.kind == ClosedDay {
        var prior := Lookup(closed, h.day);
        closed := Put(closed, ClosedRow(prior, h, id));
      } else {
        var prior := Lookup(early, h.day);
        if TakesOver(prior, h) {
          early := Put(early, EarlyRow(h, id));
        }
      }
    }
    assert rows[..|rows|] == rows;
    u := Union(closed, early);
  }

  method AppendEarly(u: Union) returns (out: seq<Holiday>)
    ensures out == u.closed + Without(u.early, u.closed)
  {
    out := u.closed;
    for i := 0 to |u.early|
      invariant out == u.closed + Without(u.early[..i], u.closed)
    {
      assert u.early[..i + 1][..i] == u.early[..i];
      if Lookup(u.closed, u.early[i].day) == None {
        out := out + [u.early[i]];
      }
    }
    assert u.early[..|u.early|] == u.early;
  }

  // ---------------------------------------------------------------- one day at a time

  /** What the members say about one day, folded in order. */
  datatype DayState = DayState(closed: Option<Holiday>, early: Option<Holiday>)

  function DayStep(s: DayState, id: string, entry: Option<Holiday>): DayState {
    match entry
    case None => s
    case Some(h) =>
      if h.kind == ClosedDay then s.(closed := Some(ClosedRow(s.closed, h, id)))
      else if TakesOver(s.early, h) then s.(early := Some(EarlyRow(h, id)))
      else s
  }

  function DayFold(cals: seq<Member>, date: IsoDate): DayState {
    if cals == [] then DayState(None, None)
    else
      var last := cals[|cals| - 1];
      DayStep(DayFold(cals[..|cals| - 1], date), last.id, EntryOf(last.rule, date))
  }

  function OnDay(u: Union, date: IsoDate): DayState {
    DayState(Lookup(u.closed, date), Lookup(u.early, date))
  }

  lemma {:induction false} PutLookup(rows: seq<Holiday>, h: Holiday, date: IsoDate)
    ensures Lookup(Put(rows, h), date) == if h.day == date then Some(h) else Lookup(rows, date)
  {
    if rows == [] {
      assert [h][..0] == [];
    } else {
      var n := |rows| - 1;
      if rows[n].day == h.day {
        LookupNext(rows[..n], h, date);
      } else {
        PutLookup(rows[..n], h, date);
        LookupNext(Put(rows[..n], h), rows[n], date);
      }
    }
  }

  lemma {:induction false} PutDistinct(rows: seq<Holiday>, h: Holiday)
    requires DistinctDays(rows)
    ensures DistinctDays(Put(rows, h))
    ensures forall r :: r in Put(rows, h) ==> r == h || r in rows
  {
    if rows != [] {
      var n := |rows| - 1;
      assert rows == rows[..n] + [rows[n]];
      if rows[n].day != h.day {
        PutDistinct(rows[..n], h);
        var front := Put(rows[..n], h);
        forall i | 0 <= i < |front|
          ensures front[i].day != rows[n].day
        {
          assert front[i] == h || front[i] in rows[..n];
        }
      } else {
        assert forall i :: 0 <= i < n ==> rows[i].day != h.day;
      }
    }
  }

  lemma AddRowOnDay(u: Union, id: string, h: Holiday, date: IsoDate)
    ensures OnDay(AddRow(u, id, h), date) == DayStep(OnDay(u, date), id, if h.day == date then Some(h) else None)
  {
    if h.kind == ClosedDay {
      PutLookup(u.closed, ClosedRow(Lookup(u.closed, h.day), h, id), date);
    } else if TakesOver(Lookup(u.early, h.day), h) {
      PutLookup(u.early, EarlyRow(h, id), date);
    }
  }

  lemma {:induction false} AddRowsOnDay(u: Union, id: string, rows: seq<Holiday>, date: IsoDate)
    requires DistinctDays(rows)
    ensures OnDay(AddRows(u, id, rows), date) == DayStep(OnDay(u, date), id, Lookup(rows, date))
  {
    if rows != [] {
      var n := |rows| - 1;
      AddRowsOnDay(u, id, rows[..n], date);
      AddRowOnDay(AddRows(u, id, rows[..n]), id, rows[n], date);
      assert forall h :: h in rows[..n] ==> h.day != rows[n].day;
    }
  }

  /** A member's sorted listing of a year says of each day what its index says. */
  lemma ListingLookup(rule: HolidayRule, year: int, date: IsoDate)
    ensures DistinctDays(HolidaysOf(rule, year, year))
    ensures Lookup(HolidaysOf(rule, year, year), date) == if date.year == year then EntryOf(rule, date) else None
  {
    var index, listing := Index(rule, year), HolidaysOf(rule, year, year);
    assert IndexesOf(rule, year, year) == IndexesOf(rule, year, year - 1) + index == index;
    IndexIsClean(rule, year);
    SortKeepsRows(index);
    SortDistinct(index);
    SameRowsSameLookup(index, listing, date);
  }

  lemma SameRowsSameLookup(a: seq<Holiday>, b: seq<Holiday>, date: IsoDate)
    requires DistinctDays(a) && DistinctDays(b) && forall h :: h in a <==> h in b
    ensures Lookup(a, date) == Lookup(b, date)
  {
    if Lookup(a, date).Some? {
      LookupOne(b, Lookup(a, date).value);
    }
  }

  lemma SortDistinct(rows: seq<Holiday>)
    requires DistinctDays(rows)
    ensures DistinctDays(SortByDay(rows))
  {
    SortKeepsDistinct(DayKey(), rows);
  }

  lemma {:induction false} SortKeepsDistinct(key: Holiday -> int, rows: seq<Holiday>)
    requires DistinctDays(rows)
    ensures DistinctDays(SortBy(key, rows))
  {
    if rows != [] {
      var n := |rows| - 1;
      SortKeepsDistinct(key, rows[..n]);
      forall h | h in SortBy(key, rows[..n])
        ensures h.day != rows[n].day
      {
        assert h in multiset(SortBy(key, rows[..n]));
        var i :| 0 <= i < n && rows[..n][i] == h;
        assert rows[i].day != rows[n].day;
      }
      InsertDistinct(key, SortBy(key, rows[..n]), rows[n]);
    }
  }

  lemma {:induction false} InsertDistinct(key: Holiday -> int, rows: seq<Holiday>, h: Holiday)
    requires DistinctDays(rows) && forall r :: r in rows ==> r.day != h.day
    ensures DistinctDays(InsertBy(key, rows, h))
  {
    if rows != [] && key(rows[|rows| - 1]) > key(h) {
      var n := |rows| - 1;
      assert forall r :: r in rows[..n] ==> r in rows;
      InsertDistinct(key, rows[..n], h);
      var front := InsertBy(key, rows[..n], h);
      forall k | 0 <= k < |front|
        ensures front[k].day != rows[n].day
      {
        InsertHasRow(key, rows[..n], h, front[k]);
        assert rows[n] in rows;
      }
    }
  }

  lemma {:induction false} MembersOnDay(cals: seq<Member>, year: int, date: IsoDate)
    ensures OnDay(AddMembers(cals, year), date) == if date.year == year then DayFold(cals, date)
        else DayState(None, None)
  {
    if cals != [] {
      var n := |cals| - 1;
      MembersOnDay(cals[..n], year, date);
      ListingLookup(cals[n].rule, year, date);
      AddRowsOnDay(AddMembers(cals[..n], year), cals[n].id, HolidaysOf(cals[n].rule, year, year), date);
    }
  }

  /** The union's buckets hold closures and early closes, one a day. */
  predicate Tidy(u: Union) {
    && DistinctDays(u.closed) && DistinctDays(u.early)
    && (forall h :: h in u.closed ==> h.kind == ClosedDay)
    && (forall h :: h in u.early ==> h.kind == EarlyClose)
  }

  lemma {:induction false} AddRowsTidy(u: Union, id: string, rows: seq<Holiday>)
    requires Tidy(u)
    ensures Tidy(AddRows(u, id, rows))
  {
    if rows != [] {
      var n := |rows| - 1;
      AddRowsTidy(u, id, rows[..n]);
      var front := AddRows(u, id, rows[..n]);
      PutDistinct(front.closed, ClosedRow(Lookup(front.closed, rows[n].day), rows[n], id));
      PutDistinct(front.early, EarlyRow(rows[n], id));
    }
  }

  lemma {:induction false} AddMembersTidy(cals: seq<Member>, year: int)
    ensures Tidy(AddMembers(cals, year))
  {
    if cals != [] {
      var n := |cals| - 1;
      AddMembersTidy(cals[..n], year);
      AddRowsTidy(AddMembers(cals[..n], year), cals[n].id, HolidaysOf(cals[n].rule, year, year));
    }
  }

  /** The closure of a day, or else its early close. */
  function Verdict(s: DayState): Option<Holiday> {
    if s.closed.Some? then s.closed else s.early
  }

  lemma CombinedRowsOnDay(cals: seq<Member>, year: int, date: IsoDate)
    ensures DistinctDays(CombinedRows(cals, year))
    ensures Lookup(CombinedRows(cals, year), date) == if date.year == year then Verdict(DayFold(cals, date)) else None
  {
    var u := AddMembers(cals, year);
    var rest := Without(u.early, u.closed);
    AddMembersTidy(cals, year);
    WithoutDistinct(u.early, u.closed);
    MembersOnDay(cals, year, date);
    WithoutLookup(u.early, u.closed, date);
    LookupConcat(u.closed, rest, date);
    var all := u.closed + rest;
    forall i, j | 0 <= i < j < |all|
      ensures all[i].day != all[j].day
    {
      if i < |u.closed| <= j {
        assert all[j] in rest && all[i] in u.closed;
      }
    }
    SortDistinct(all);
    SortKeepsRows(all);
    SameRowsSameLookup(all, SortByDay(all), date);
  }

  lemma {:induction false} FirstRowConcat(a: seq<Holiday>, b: seq<Holiday>, date: IsoDate, kind: HolidayKind)
    ensures FirstRow(a + b, date, kind) == if FirstRow(a, date, kind).Some? then FirstRow(a, date, kind)
        else FirstRow(b, date, kind)
  {
    if b == [] {
      assert a + b == a;
    } else {
      var n := |b| - 1;
      FirstRowConcat(a, b[..n], date, kind);
      assert (a + b)[..|a + b| - 1] == a + b[..n];
    }
  }

  lemma FirstRowOfDistinct(rows: seq<Holiday>, date: IsoDate, kind: HolidayKind)
    requires DistinctDays(rows)
    ensures FirstRow(rows, date, kind)
         == if Lookup(rows, date).Some? && Lookup(rows, date).value.kind == kind then Lookup(rows, date) else None
  {
    var r := FirstRow(rows, date, kind);
    if r.Some? {
      LookupOne(rows, r.value);
    }
  }

  /** Only the year's own rows can name the date. */
  lemma OnlyOneYearNames(cals: seq<Member>, year: int, date: IsoDate, kind: HolidayKind)
    ensures var v := Verdict(DayFold(cals, date));
            FirstRow(CombinedRows(cals, year), date, kind)
            == if date.year == year && v.Some? && v.value.kind == kind then v else None
  {
    CombinedRowsOnDay(cals, year, date);
    FirstRowOfDistinct(CombinedRows(cals, year), date, kind);
  }

  lemma CombinedFirstRow(cals: seq<Member>, date: IsoDate, kind: HolidayKind)
    ensures var v := Verdict(DayFold(cals, date));
            FirstRow(Rows(UnionRule(cals), date.year), date, kind) == if v.Some? && v.value.kind == kind then v
                else None
  {
    var y := date.year;
    OnlyOneYearNames(cals, y - 1, date, kind);
    OnlyOneYearNames(cals, y, date, kind);
    OnlyOneYearNames(cals, y + 1, date, kind);
    ThreeYears(UnionRule(cals), y, date, kind);
  }

  lemma ThreeYears(rule: HolidayRule, y: int, date: IsoDate, kind: HolidayKind)
    ensures FirstRow(Rows(rule, y), date, kind)
         == if FirstRow(rule(y - 1), date, kind).Some? then FirstRow(rule(y - 1), date, kind)
            else if FirstRow(rule(y), date, kind).Some? then FirstRow(rule(y), date, kind)
            else FirstRow(rule(y + 1), date, kind)
  {
    FirstRowConcat(rule(y - 1) + rule(y), rule(y + 1), date, kind);
    FirstRowConcat(rule(y - 1), rule(y), date, kind);
  }

  /** The combined calendar's entry is the fold of its members' entries. */
  lemma CombinedEntry(cals: seq<Member>, date: IsoDate)
    ensures EntryOf(UnionRule(cals), date) == if IsWeekend(date) then None else Verdict(DayFold(cals, date))
  {
    EntryIsFirstRow(UnionRule(cals), date);
    CombinedFirstRow(cals, date, ClosedDay);
    CombinedFirstRow(cals, date, EarlyClose);
    if !IsWeekend(date) {
      FoldMeans(cals, date);
    }
  }

  // ---------------------------------------------------------------- what the fold says

  predicate ClosesEarly(m: Member, date: IsoDate) {
    EarlyCloseOf(m.rule, date).Some?
  }

  predicate States(m: Member, date: IsoDate, time: string) {
    EarlyCloseOf(m.rule, date).Some? && EarlyCloseOf(m.rule, date).value.closeTime == Some(time)
  }

  ghost predicate SomeCloses(cals: seq<Member>, date: IsoDate) {
    exists m :: m in cals && IsClosed(m.rule, date)
  }

  ghost predicate SomeClosesEarly(cals: seq<Member>, date: IsoDate) {
    exists m :: m in cals && ClosesEarly(m, date)
  }

  lemma SomeNext(cals: seq<Member>, m: Member, date: IsoDate)
    ensures SomeCloses(cals + [m], date) <==> SomeCloses(cals, date) || IsClosed(m.rule, date)
    ensures SomeClosesEarly(cals + [m], date) <==> SomeClosesEarly(cals, date) || ClosesEarly(m, date)
  {
    assert forall x :: x in cals + [m] <==> x in cals || x == m;
  }

  lemma StepMeans(s: DayState, m: Member, date: IsoDate)
    requires !IsWeekend(date)
    ensures var t := DayStep(s, m.id, EntryOf(m.rule, date));
            && (t.closed.Some? <==> s.closed.Some? || IsClosed(m.rule, date))
            && (t.early.Some? <==> s.early.Some? || ClosesEarly(m, date))
            && ((s.closed.Some? ==> s.closed.value.kind == ClosedDay) ==> t.closed.Some? ==>
                  t.closed.value.kind == ClosedDay)
            && ((s.early.Some? ==> s.early.value.kind == EarlyClose) ==> t.early.Some? ==>
                  t.early.value.kind == EarlyClose)
  {
  }

  lemma {:induction false} FoldMeans(cals: seq<Member>, date: IsoDate)
    requires !IsWeekend(date)
    ensures var s := DayFold(cals, date);
            && (s.closed.Some? <==> SomeCloses(cals, date))
            && (s.early.Some? <==> SomeClosesEarly(cals, date))
            && (s.closed.Some? ==> s.closed.value.kind == ClosedDay)
            && (s.early.Some? ==> s.early.value.kind == EarlyClose)
  {
    if cals != [] {
      var n := |cals| - 1;
      FoldMeans(cals[..n], date);
      StepMeans(DayFold(cals[..n], date), cals[n], date);
      SomeNext(cals[..n], cals[n], date);
      assert cals == cals[..n] + [cals[n]];
    }
  }

  /** What each member that is closed calls the day, in their order. */
  function ClosingNames(cals: seq<Member>, date: IsoDate): seq<string> {
    if cals == [] then []
    else
      var last := cals[|cals| - 1];
      ClosingNames(cals[..|cals| - 1], date)
      + match EntryOf(last.rule, date)
        case None => []
        case Some(h) => if h.kind == ClosedDay then [h.name + " (" + last.id + ")"] else []
  }

  /** Names with a slash between any two. */
  function Slashed(names: seq<string>): string {
    if names == [] then ""
    else if |names| == 1 then names[0]
    else names[0] + " / " + Slashed(names[1..])
  }

  lemma {:induction false} SlashedMore(names: seq<string>, x: string)
    ensures Slashed(names + [x]) == if names == [] then x else Slashed(names) + " / " + x
  {
    if |names| > 1 {
      assert (names + [x])[1..] == names[1..] + [x];
      SlashedMore(names[1..], x);
    } else if |names| == 1 {
      assert (names + [x])[1..] == [x];
    }
  }

  /** A closure of the union is called what every closed member calls it. */
  lemma {:induction false} NamesInOrder(cals: seq<Member>, date: IsoDate)
    ensures var closed, names := DayFold(cals, date).closed, ClosingNames(cals, date);
            && (closed.Some? <==> names != [])
            && (closed.Some? ==> closed.value.name == Slashed(names) && closed.value.closeTime == None)
  {
    if cals != [] {
      var n := |cals| - 1;
      NamesInOrder(cals[..n], date);
      var entry := EntryOf(cals[n].rule, date);
      var front := ClosingNames(cals[..n], date);
      assert front + [] == front;
      if entry.Some? && entry.value.kind == ClosedDay {
        var name := entry.value.name + " (" + cals[n].id + ")";
        assert ClosingNames(cals, date) == front + [name];
        SlashedMore(front, name);
        JoinedOnce(DayFold(cals[..n], date).closed, entry.value, cals[n].id, name);
      }
    }
  }

  lemma JoinedOnce(prior: Option<Holiday>, h: Holiday, id: string, name: string)
    requires name == h.name + " (" + id + ")"
    ensures JoinName(prior, h, id) == if prior.None? then name else prior.value.name + " / " + name
  {
    assert "" + h.name == h.name;
    if prior.Some? {
      var p, open := prior.value.name + " / ", " (";
      assert (p + h.name) + open + id + ")" == p + (h.name + open + id + ")");
    }
  }

  /** The earliest time any of the members states, if one does. */
  ghost predicate IsEarliest(cals: seq<Member>, date: IsoDate, time: Option<string>) {
    match time
    case None => forall m, t :: m in cals ==> !States(m, date, t)
    case Some(first) =>
      && (exists m :: m in cals && States(m, date, first))
      && (forall m, t :: m in cals && States(m, date, t) ==> !Less(t, first))
  }

  lemma EarliestStays(cals: seq<Member>, m: Member, date: IsoDate, time: Option<string>)
    requires IsEarliest(cals, date, time)
    requires forall t :: States(m, date, t) ==> time.Some? && !Less(t, time.value)
    ensures IsEarliest(cals + [m], date, time)
  {
  }

  lemma EarliestMoves(cals: seq<Member>, m: Member, date: IsoDate, time: Option<string>, sooner: string)
    requires IsEarliest(cals, date, time) && States(m, date, sooner)
    requires time.Some? ==> !Less(time.value, sooner)
    ensures IsEarliest(cals + [m], date, Some(sooner))
  {
    assert m in cals + [m] && States(m, date, sooner);
    forall x, t | x in cals + [m] && States(x, date, t)
      ensures !Less(t, sooner)
    {
      LessIsTotal(t, sooner);
      if x in cals {
        LessIsTotal(sooner, time.value);
        LessIsTransitive(t, sooner, time.value);
      }
    }
  }

  function CloseTime(h: Option<Holiday>): Option<string> {
    if h.Some? then h.value.closeTime else None
  }

  /** The time kept is the earliest one any member states, and there is none only when no member states one. */
  lemma {:induction false} FoldKeepsEarliest(cals: seq<Member>, date: IsoDate)
    requires !IsWeekend(date)
    ensures IsEarliest(cals, date, CloseTime(DayFold(cals, date).early))
  {
    if cals != [] {
      var n := |cals| - 1;
      var s, m := DayFold(cals[..n], date), cals[n];
      FoldKeepsEarliest(cals[..n], date);
      StepKeepsEarliest(cals[..n], m, date, s);
      assert cals == cals[..n] + [m];
    }
  }

  lemma StepKeepsEarliest(cals: seq<Member>, m: Member, date: IsoDate, s: DayState)
    requires !IsWeekend(date) && IsEarliest(cals, date, CloseTime(s.early))
    ensures IsEarliest(cals + [m], date, CloseTime(DayStep(s, m.id, EntryOf(m.rule, date)).early))
  {
    var now, stated := CloseTime(s.early), CloseTime(EarlyCloseOf(m.rule, date));
    assert forall t :: States(m, date, t) <==> stated == Some(t);
    if stated.Some? {
      if now.Some? {
        LessIsTotal(now.value, stated.value);
      }
      if now.None? || Less(stated.value, now.value) {
        EarliestMoves(cals, m, date, now, stated.value);
      } else {
        EarliestStays(cals, m, date, now);
      }
    } else {
      EarliestStays(cals, m, date, now);
    }
  }

  /**
   * The union: a day is a business day exactly when every member says so; a closure anywhere beats an
   * early close; otherwise it closes early exactly when some member does.
   */
  lemma CombineIsUnion(cals: seq<Member>, renamed: bool, date: IsoDate)
    requires cals != []
    ensures Combine(cals, renamed).Some?
    ensures var rule := Combine(cals, renamed).value;
            && (IsBusiness(rule, date) <==> forall m :: m in cals ==> IsBusiness(m.rule, date))
            && (EarlyCloseOf(rule, date).Some?
                <==> (forall m :: m in cals ==> IsBusiness(m.rule, date))
                     && exists m :: m in cals && ClosesEarly(m, date))
  {
    if |cals| == 1 && !renamed {
      assert forall m :: m in cals <==> m == cals[0];
      assert cals[0] in cals && (ClosesEarly(cals[0], date) <==> EarlyCloseOf(cals[0].rule, date).Some?);
    } else {
      UnionIsUnion(cals, date);
    }
  }

  lemma UnionIsUnion(cals: seq<Member>, date: IsoDate)
    requires cals != []
    ensures IsBusiness(UnionRule(cals), date) <==> forall m :: m in cals ==> IsBusiness(m.rule, date)
    ensures EarlyCloseOf(UnionRule(cals), date).Some?
       <==> (forall m :: m in cals ==> IsBusiness(m.rule, date)) && exists m :: m in cals && ClosesEarly(m, date)
  {
    if IsWeekend(date) {
      assert cals[0] in cals && !IsBusiness(cals[0].rule, date);
    } else {
      WeekdayVerdict(cals, date);
      assert (forall m :: m in cals ==> IsBusiness(m.rule, date))
        <==> !exists m :: m in cals && IsClosed(m.rule, date);
    }
  }

  lemma WeekdayVerdict(cals: seq<Member>, date: IsoDate)
    requires !IsWeekend(date)
    ensures IsClosed(UnionRule(cals), date) <==> exists m :: m in cals && IsClosed(m.rule, date)
    ensures EarlyCloseOf(UnionRule(cals), date).Some?
       <==> !(exists m :: m in cals && IsClosed(m.rule, date)) && exists m :: m in cals && ClosesEarly(m, date)
  {
    CombinedEntry(cals, date);
    FoldMeans(cals, date);
  }

  /** The union's early close is at the earliest time any member states. */
  lemma CombineKeepsEarliestClose(cals: seq<Member>, renamed: bool, date: IsoDate)
    requires cals != [] && EarlyCloseOf(Combine(cals, renamed).value, date).Some?
    ensures IsEarliest(cals, date, CloseTime(EarlyCloseOf(Combine(cals, renamed).value, date)))
  {
    if |cals| == 1 && !renamed {
      assert forall m :: m in cals <==> m == cals[0];
      var close := EarlyCloseOf(cals[0].rule, date).value.closeTime;
      if close.Some? {
        assert States(cals[0], date, close.value);
        LessIsTotal(close.value, close.value);
      }
    } else {
      CombinedEntry(cals, date);
      FoldMeans(cals, date);
      FoldKeepsEarliest(cals, date);
    }
  }
}
