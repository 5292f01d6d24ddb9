/** The most-recently-used list of the command line, against a least-recently-used specification over whole runs. */
module Mru {
  import opened Util
  import opened Sorting
  import opened UniverseEntries

  const MRU_MAX: nat := 50

  /** A candidate's identity; the text is what the source uses as its key. */
  datatype Key = Key(kind: Kind, id: string)

  datatype Record = Record(key: Key, lastUsed: real, count: int)

  datatype Rank = Rank(rank: nat, count: int)

  function KindName(kind: Kind): string {
    match kind
    case Instrument => "instrument"
    case FunctionCode => "function"
    case Person => "person"
    case Topic => "topic"
  }

  function MruKey(key: Key): string {
    KindName(key.kind) + ":" + key.id
  }

  /** Two candidates share a key text only when they are the same candidate. */
  lemma KeysAreFaithful(a: Key, b: Key)
    requires MruKey(a) == MruKey(b)
    ensures a == b
  {
    var key := MruKey(a);
    assert key[0] == KindName(a.kind)[0] == KindName(b.kind)[0];
    var n := |KindName(a.kind)| + 1;
    assert key[n..] == a.id && key[n..] == b.id;
  }

  /** The key texts: the kind's name, a colon and the identity. */
  lemma KeyTexts(id: string)
    ensures MruKey(Key(Instrument, id)) == "instrument:" + id && MruKey(Key(FunctionCode, id)) == "function:" + id
    ensures MruKey(Key(Person, id)) == "person:" + id && MruKey(Key(Topic, id)) == "topic:" + id
  {
    assert "instrument" + ":" == "instrument:" && "function" + ":" == "function:";
    assert "person" + ":" == "person:" && "topic" + ":" == "topic:";
  }

  /** Latest first, then by key text. */
  predicate LaterUsed(a: Record, b: Record) {
    a.lastUsed > b.lastUsed || (a.lastUsed == b.lastUsed && Less(MruKey(a.key), MruKey(b.key)))
  }

  function ByRecency(): (Record, Record) -> bool {
    (a: Record, b: Record) => LaterUsed(a, b)
  }

  function Keys(rs: seq<Record>): (r: seq<Key>)
    ensures |r| == |rs| && forall i :: 0 <= i < |rs| ==> r[i] == rs[i].key
  {
    if rs == [] then [] else Keys(rs[..|rs| - 1]) + [rs[|rs| - 1].key]
  }

  lemma KeysAppend(rs: seq<Record>, x: Record)
    ensures Keys(rs + [x]) == Keys(rs) + [x.key]
  {
  }

  predicate HasKey(rs: seq<Record>, key: Key) {
    exists i :: 0 <= i < |rs| && rs[i].key == key
  }

  lemma HasKeyMore(rs: seq<Record>, x: Record, key: Key)
    ensures HasKey(rs + [x], key) <==> HasKey(rs, key) || x.key == key
  {
    if HasKey(rs, key) {
      var i :| 0 <= i < |rs| && rs[i].key == key;
      assert (rs + [x])[i].key == key;
    }
    if x.key == key {
      assert (rs + [x])[|rs|].key == key;
    }
  }

  /** The first record of each key. */
  function FirstOfEach(rs: seq<Record>): (r: seq<Record>)
    ensures |r| <= |rs|
  {
    if rs == [] then []
    else
      var front, last := FirstOfEach(rs[..|rs| - 1]), rs[|rs| - 1];
      if HasKey(front, last.key) then front else front + [last]
  }

  function Cut<T>(xs: seq<T>): seq<T> {
    if |xs| > MRU_MAX then xs[..MRU_MAX] else xs
  }

  /** What is kept of some rows. */
  function Kept(rows: seq<Record>): seq<Record> {
    Cut(FirstOfEach(Sort(ByRecency(), rows)))
  }

  // ---------------------------------------------------------------- what is kept of any rows

  type Order = (Record, Record) -> bool

  /** No two records come before each other, and not coming before is transitive. */
  ghost predicate WeakOrder(lt: Order) {
    && (forall a, b :: !(lt(a, b) && lt(b, a)))
    && (forall a, b, c :: !lt(b, a) && !lt(c, b) ==> !lt(c, a))
  }

  lemma RecencyIsWeakOrder()
    ensures WeakOrder(ByRecency())
  {
    var lt := ByRecency();
    forall a: Record, b: Record
      ensures !(lt(a, b) && lt(b, a))
    {
      LessIsTotal(MruKey(a.key), MruKey(b.key));
    }
    forall a: Record, b: Record, c: Record | !lt(b, a) && !lt(c, b)
      ensures !lt(c, a)
    {
      NotLessIsTransitive(MruKey(a.key), MruKey(b.key), MruKey(c.key));
    }
  }

  lemma NotLessIsTransitive(a: string, b: string, c: string)
    ensures !Less(b, a) && !Less(c, b) ==> !Less(c, a)
  {
    LessIsTotal(a, b);
    LessIsTotal(b, c);
    LessIsTransitive(c, a, b);
  }

  predicate NoneLater(lt: Order, rs: seq<Record>) {
    forall i, j :: 0 <= i < j < |rs| ==> !lt(rs[j], rs[i])
  }

  lemma {:induction false} InsertNoneLater(lt: Order, rs: seq<Record>, x: Record)
    requires WeakOrder(lt) && NoneLater(lt, rs)
    ensures NoneLater(lt, Insert(lt, rs, x))
  {
    if rs != [] {
      var n := |rs| - 1;
      if !lt(rs[n], x) {
        InsertNoneLater(lt, rs[..n], x);
        var front := Insert(lt, rs[..n], x);
        forall i | 0 <= i < |front|
          ensures !lt(rs[n], front[i])
        {
          InsertHas(lt, rs[..n], x, front[i]);
          assert forall k :: 0 <= k < n ==> rs[..n][k] == rs[k];
        }
      }
    }
  }

  lemma {:induction false} SortNoneLater(lt: Order, rs: seq<Record>)
    requires WeakOrder(lt)
    ensures NoneLater(lt, Sort(lt, rs))
  {
    if rs != [] {
      SortNoneLater(lt, rs[..|rs| - 1]);
      InsertNoneLater(lt, Sort(lt, rs[..|rs| - 1]), rs[|rs| - 1]);
    }
  }

  predicate DistinctKeys(rs: seq<Record>) {
    forall i, j :: 0 <= i < j < |rs| ==> rs[i].key != rs[j].key
  }

  /** No record of `rs` is before a record of `kept` with the same key. */
  ghost predicate Latest(lt: Order, kept: seq<Record>, rs: seq<Record>) {
    forall x, y :: x in kept && y in rs && x.key == y.key ==> !lt(y, x)
  }

  /** One record per key of `rs`, each the first of its key in the order. */
  ghost predicate Firsts(lt: Order, kept: seq<Record>, rs: seq<Record>) {
    && DistinctKeys(kept) && NoneLater(lt, kept) && Latest(lt, kept, rs)
    && (forall x :: x in kept ==> x in rs)
    && (forall x :: x in rs ==> HasKey(kept, x.key))
  }

  lemma FirstsKeep(lt: Order, kept: seq<Record>, rs: seq<Record>, last: Record)
    requires Firsts(lt, kept, rs) && HasKey(kept, last.key)
    requires forall x :: x in rs ==> !lt(last, x)
    ensures Firsts(lt, kept, rs + [last])
  {
  }

  lemma FirstsGrow(lt: Order, kept: seq<Record>, rs: seq<Record>, last: Record)
    requires WeakOrder(lt) && Firsts(lt, kept, rs) && !HasKey(kept, last.key)
    requires forall x :: x in rs ==> !lt(last, x)
    ensures Firsts(lt, kept + [last], rs + [last])
  {
    forall x | x in rs + [last]
      ensures HasKey(kept + [last], x.key)
    {
      HasKeyMore(kept, last, x.key);
    }
    OrderGrows(lt, kept, rs, last);
    LatestGrows(lt, kept, rs, last);
  }

  lemma OrderGrows(lt: Order, kept: seq<Record>, rs: seq<Record>, last: Record)
    requires NoneLater(lt, kept) && DistinctKeys(kept)
    requires forall x :: x in kept ==> x in rs && x.key != last.key
    requires forall x :: x in rs ==> !lt(last, x)
    ensures NoneLater(lt, kept + [last]) && DistinctKeys(kept + [last])
  {
    assert forall k :: 0 <= k < |kept| ==> kept[k] in kept;
  }

  lemma LatestGrows(lt: Order, kept: seq<Record>, rs: seq<Record>, last: Record)
    requires WeakOrder(lt) && Latest(lt, kept, rs)
    requires forall x :: x in rs ==> !lt(last, x) && x.key != last.key
    requires forall x :: x in kept ==> x.key != last.key
    ensures Latest(lt, kept + [last], rs + [last])
  {
    assert !(lt(last, last) && lt(last, last));
  }

  lemma {:induction false} FirstOfEachAre(lt: Order, rs: seq<Record>)
    requires WeakOrder(lt) && NoneLater(lt, rs)
    ensures Firsts(lt, FirstOfEach(rs), rs)
  {
    if rs != [] {
      var n := |rs| - 1;
      FirstOfEachAre(lt, rs[..n]);
      var front, last := FirstOfEach(rs[..n]), rs[n];
      assert rs == rs[..n] + [last];
      forall x | x in rs[..n]
        ensures !lt(last, x)
      {
        var i :| 0 <= i < n && rs[i] == x;
      }
      if HasKey(front, last.key) {
        FirstsKeep(lt, front, rs[..n], last);
      } else {
        FirstsGrow(lt, front, rs[..n], last);
      }
    }
  }

  /**
   * Whatever rows are handed over, in any order and with any repeats: at most fifty are kept, latest first, no key
   * twice, each the latest row of its key; and a key is lost only when fifty others are at least as recent.
   */
  lemma KeptIsLatest(rows: seq<Record>)
    ensures var kept := Kept(rows);
            && |kept| <= 50 && DistinctKeys(kept) && NoneLater(ByRecency(), kept)
            && (forall x :: x in kept ==> x in rows)
            && Latest(ByRecency(), kept, rows)
            && (forall y :: y in rows && !HasKey(kept, y.key) ==>
                  |kept| == 50 && forall x :: x in kept ==> y.lastUsed <= x.lastUsed)
  {
    var lt := ByRecency();
    var sorted := Sort(lt, rows);
    RecencyIsWeakOrder();
    SortNoneLater(lt, rows);
    FirstOfEachAre(lt, sorted);
    forall x: Record
      ensures x in sorted <==> x in rows
    {
      SortHas(lt, rows, x);
    }
    var all, kept := FirstOfEach(sorted), Kept(rows);
    assert forall k :: 0 <= k < |kept| ==> kept[k] == all[k];
    forall y | y in rows && !HasKey(kept, y.key)
      ensures |kept| == MRU_MAX && forall x :: x in kept ==> y.lastUsed <= x.lastUsed
    {
      LostIsOlder(lt, all, kept, sorted, y);
      assert forall x :: x in kept && !lt(y, x) ==> y.lastUsed <= x.lastUsed;
    }
  }

  lemma LostIsOlder(lt: Order, all: seq<Record>, kept: seq<Record>, rows: seq<Record>, y: Record)
    requires WeakOrder(lt) && kept == Cut(all) && NoneLater(lt, all) && Latest(lt, all, rows)
    requires y in rows && HasKey(all, y.key) && !HasKey(kept, y.key)
    ensures |kept| == MRU_MAX && forall x :: x in kept ==> !lt(y, x)
  {
    var j :| 0 <= j < |all| && all[j].key == y.key;
    assert forall k :: 0 <= k < |kept| ==> kept[k] == all[k];
    assert all[j] in all && !lt(y, all[j]);
    forall x | x in kept
      ensures !lt(y, x)
    {
      var i :| 0 <= i < |kept| && kept[i] == x;
      assert all[i] == x;
    }
  }

  // ---------------------------------------------------------------- the class

  function RanksOf(rs: seq<Record>): map<Key, Rank> {
    if rs == [] then map[]
    else RanksOf(rs[..|rs| - 1])[rs[|rs| - 1].key := Rank(|rs| - 1, rs[|rs| - 1].count)]
  }

  /** The rank of a key is its place in the list. */
  lemma {:induction false} RankIsPlace(rs: seq<Record>, key: Key)
    requires DistinctKeys(rs)
    ensures key in RanksOf(rs) <==> HasKey(rs, key)
    ensures forall i :: 0 <= i < |rs| && rs[i].key == key ==>
              key in RanksOf(rs) && RanksOf(rs)[key] == Rank(i, rs[i].count)
  {
    if rs != [] {
      var n := |rs| - 1;
      RankIsPlace(rs[..n], key);
      assert Keys(rs) == Keys(rs[..n]) + [rs[n].key];
      assert forall i :: 0 <= i < n ==> rs[..n][i] == rs[i];
    }
  }

  function Without(rs: seq<Record>, key: Key): (r: seq<Record>)
    ensures |r| <= |rs|
  {
    if rs == [] then []
    else Without(rs[..|rs| - 1], key) + if rs[|rs| - 1].key == key then [] else [rs[|rs| - 1]]
  }

  /** The count of the last record with the key. */
  function CountOf(rs: seq<Record>, key: Key): int {
    if rs == [] then 0
    else if rs[|rs| - 1].key == key then rs[|rs| - 1].count
    else CountOf(rs[..|rs| - 1], key)
  }

  lemma NextRow(rs: seq<Record>, i: nat, key: Key)
    requires i < |rs|
    ensures Without(rs[..i + 1], key) == Without(rs[..i], key) + if rs[i].key == key then [] else [rs[i]]
    ensures CountOf(rs[..i + 1], key) == if rs[i].key == key then rs[i].count else CountOf(rs[..i], key)
  {
    assert rs[..i + 1][..i] == rs[..i];
  }

  /** The list after one more use. */
  function Noted(rs: seq<Record>, key: Key, at: real): seq<Record> {
    Kept(Without(rs, key) + [Record(key, at, CountOf(rs, key) + 1)])
  }

  lemma FirstsOneMore(rs: seq<Record>, x: Record)
    ensures FirstOfEach(rs) <= FirstOfEach(rs + [x])
  {
    assert (rs + [x])[..|rs|] == rs;
  }

  lemma {:induction false} FirstsOfMore(rs: seq<Record>, more: seq<Record>)
    ensures FirstOfEach(rs) <= FirstOfEach(rs + more)
  {
    if more == [] {
      assert rs + more == rs;
    } else {
      var n := |more| - 1;
      FirstsOfMore(rs, more[..n]);
      FirstsOneMore(rs + more[..n], more[n]);
      assert rs + more == (rs + more[..n]) + [more[n]];
    }
  }

  class MruList {
    var records: seq<Record>
    var ranks: map<Key, Rank>

    ghost predicate Valid()
      reads this
    {
      && |records| <= MRU_MAX
      && DistinctKeys(records) && NoneLater(ByRecency(), records)
      && ranks == RanksOf(records)
    }

    constructor ()
      ensures Valid() && records == []
    {
      records, ranks := [], map[];
    }

    /** Replaces the list by the latest fifty of these rows. */
    method SetMru(rows: seq<Record>)
      modifies this
      ensures Valid() && records == Kept(rows)
    {
      records := TakeFirsts(Sort(ByRecency(), rows));
      KeptIsLatest(rows);
      RankAll();
    }

    /** The first record of each key, up to fifty of them. */
    method TakeFirsts(sorted: seq<Record>) returns (kept: seq<Record>)
      ensures kept == Cut(FirstOfEach(sorted))
    {
      kept := [];
      var seen: set<Key> := {};
      assert sorted[..0] == [];
      var k := 0;
      while k < |sorted| && |kept| < MRU_MAX
        invariant k <= |sorted| && |kept| <= MRU_MAX
        invariant kept == FirstOfEach(sorted[..k])
        invariant forall key :: key in seen <==> HasKey(kept, key)
      {
        ghost var more := sorted[..k + 1];
        assert more[..|more| - 1] == sorted[..k];
        var r := sorted[k];
        if r.key !in seen {
          seen := seen + {r.key};
          forall key: Key
            ensures HasKey(kept + [r], key) <==> HasKey(kept, key) || r.key == key
          {
            HasKeyMore(kept, r, key);
          }
          kept := kept + [r];
        }
        k := k + 1;
      }
      FirstsOfMore(sorted[..k], sorted[k..]);
      assert sorted == sorted[..k] + sorted[k..];
      assert k == |sorted| ==> sorted[..k] == sorted;
    }

    /** Every kept record's rank is its place. */
    method RankAll()
      modifies this`ranks
      ensures ranks == RanksOf(records)
    {
      ranks := map[];
      assert records[..0] == [];
      for i := 0 to |records|
        invariant ranks == RanksOf(records[..i])
      {
        assert records[..i + 1][..i] == records[..i];
        ranks := ranks[records[i].key := Rank(i, records[i].count)];
      }
      assert records[..|records|] == records;
    }

    /** Records a use. */
    method NoteUse(key: Key, at: real)
      requires Valid()
      modifies this
      ensures Valid() && records == Noted(old(records), key, at)
    {
      var next: seq<Record> := [];
      var count := 0;
      assert records[..0] == [];
      for i := 0 to |records|
        invariant records == old(records)
        invariant next == Without(records[..i], key) && count == CountOf(records[..i], key)
      {
        NextRow(records, i, key);
        if records[i].key == key {
          count := records[i].count;
        } else {
          next := next + [records[i]];
        }
      }
      assert records[..|records|] == records;
      SetMru(next + [Record(key, at, count + 1)]);
    }
  }

  // ---------------------------------------------------------------- whole runs

  datatype Use = Use(key: Key, at: real)

  /** The list after a run of uses from nothing. */
  function Run(uses: seq<Use>): seq<Record> {
    if uses == [] then []
    else
      var u := uses[|uses| - 1];
      Noted(Run(uses[..|uses| - 1]), u.key, u.at)
  }

  predicate Increasing(uses: seq<Use>) {
    forall i, j :: 0 <= i < j < |uses| ==> uses[i].at < uses[j].at
  }

  function Drop(keys: seq<Key>, key: Key): (r: seq<Key>)
    ensures |r| <= |keys|
  {
    if keys == [] then []
    else Drop(keys[..|keys| - 1], key) + if keys[|keys| - 1] == key then [] else [keys[|keys| - 1]]
  }

  /** Every key ever used, the most recent first. */
  function Recency(uses: seq<Use>): seq<Key> {
    if uses == [] then []
    else
      var key := uses[|uses| - 1].key;
      [key] + Drop(Recency(uses[..|uses| - 1]), key)
  }

  /** The keys used, as a set. */
  function Used(uses: seq<Use>): set<Key> {
    set u | u in uses :: u.key
  }

  lemma {:induction false} SortOfSorted(rs: seq<Record>)
    requires Sorted(ByRecency(), rs)
    ensures Sort(ByRecency(), rs) == rs
  {
    if rs != [] {
      var n := |rs| - 1;
      SortOfSorted(rs[..n]);
      assert rs == rs[..n] + [rs[n]];
    }
  }

  lemma {:induction false} InsertNewest(rs: seq<Record>, x: Record)
    requires forall i :: 0 <= i < |rs| ==> rs[i].lastUsed < x.lastUsed
    ensures Insert(ByRecency(), rs, x) == [x] + rs
  {
    if rs != [] {
      var n := |rs| - 1;
      InsertNewest(rs[..n], x);
      assert rs == rs[..n] + [rs[n]];
    }
  }

  lemma FirstsNext(rs: seq<Record>, x: Record)
    ensures FirstOfEach(rs + [x]) == if HasKey(FirstOfEach(rs), x.key) then FirstOfEach(rs) else FirstOfEach(rs) + [x]
  {
    assert (rs + [x])[..|rs|] == rs;
  }

  lemma {:induction false} FirstsOfDistinct(rs: seq<Record>)
    requires DistinctKeys(rs)
    ensures FirstOfEach(rs) == rs
  {
    if rs != [] {
      var n := |rs| - 1;
      var front, last := rs[..n], rs[n];
      FirstsOfDistinct(front);
      FirstsNext(front, last);
      assert !HasKey(front, last.key);
      assert rs == front + [last];
    }
  }

  /** Times strictly fall along the list, and no key comes twice. */
  predicate Falling(rs: seq<Record>) {
    DistinctKeys(rs) && forall i, j :: 0 <= i < j < |rs| ==> rs[i].lastUsed > rs[j].lastUsed
  }

  lemma {:induction false} WithoutHas(rs: seq<Record>, key: Key, x: Record)
    ensures x in Without(rs, key) <==> x in rs && x.key != key
  {
    if rs != [] {
      WithoutHas(rs[..|rs| - 1], key, x);
      assert rs == rs[..|rs| - 1] + [rs[|rs| - 1]];
    }
  }

  lemma {:induction false} WithoutFalls(rs: seq<Record>, key: Key)
    requires Falling(rs)
    ensures Falling(Without(rs, key))
  {
    if rs != [] {
      var n := |rs| - 1;
      WithoutFalls(rs[..n], key);
      var front, last := Without(rs[..n], key), rs[n];
      forall i | 0 <= i < |front|
        ensures front[i].lastUsed > last.lastUsed && front[i].key != last.key
      {
        WithoutHas(rs[..n], key, front[i]);
        var k :| 0 <= k < n && rs[..n][k] == front[i];
        assert rs[k] == front[i];
      }
    }
  }

  lemma {:induction false} WithoutKeys(rs: seq<Record>, key: Key)
    ensures Keys(Without(rs, key)) == Drop(Keys(rs), key)
  {
    if rs != [] {
      var n := |rs| - 1;
      WithoutKeys(rs[..n], key);
      assert Keys(rs)[..n] == Keys(rs[..n]);
      KeysAppend(Without(rs[..n], key), rs[n]);
    }
  }

  /** A newer row sorts to the front of a falling list of other keys. */
  lemma KeptOfNewest(rest: seq<Record>, x: Record)
    requires Falling(rest) && Older(rest, x)
    ensures Kept(rest + [x]) == Cut([x] + rest) && Falling([x] + rest)
  {
    SortNewest(rest, x);
    FallingGrows(rest, x);
    FirstsOfDistinct([x] + rest);
  }

  lemma SortNewest(rest: seq<Record>, x: Record)
    requires Falling(rest) && Older(rest, x)
    ensures Sort(ByRecency(), rest + [x]) == [x] + rest
  {
    var rows := rest + [x];
    assert rows[..|rows| - 1] == rest && rows[|rows| - 1] == x;
    FallingIsSorted(rest);
    SortOfSorted(rest);
    InsertNewest(rest, x);
  }

  lemma FallingGrows(rest: seq<Record>, x: Record)
    requires Falling(rest) && Older(rest, x)
    ensures Falling([x] + rest)
  {
  }

  lemma FallingIsSorted(rs: seq<Record>)
    requires Falling(rs)
    ensures Sorted(ByRecency(), rs)
  {
  }

  function Newest(rs: seq<Record>, u: Use): Record {
    Record(u.key, u.at, CountOf(rs, u.key) + 1)
  }

  predicate AllBefore(rs: seq<Record>, at: real) {
    forall i :: 0 <= i < |rs| ==> rs[i].lastUsed < at
  }

  /** A use later than all: the new row goes to the front and the list is cut. */
  lemma NotedGoesFirst(rs: seq<Record>, u: Use)
    requires Falling(rs) && AllBefore(rs, u.at)
    ensures Noted(rs, u.key, u.at) == Cut([Newest(rs, u)] + Without(rs, u.key))
    ensures Falling([Newest(rs, u)] + Without(rs, u.key))
  {
    var rest := Without(rs, u.key);
    WithoutFalls(rs, u.key);
    WithoutIsOlder(rs, u);
    KeptOfNewest(rest, Newest(rs, u));
  }

  /** The records are all of other keys and earlier times. */
  predicate Older(rs: seq<Record>, x: Record) {
    forall i :: 0 <= i < |rs| ==> rs[i].lastUsed < x.lastUsed && rs[i].key != x.key
  }

  lemma WithoutIsOlder(rs: seq<Record>, u: Use)
    requires AllBefore(rs, u.at)
    ensures Older(Without(rs, u.key), Newest(rs, u))
  {
    var rest := Without(rs, u.key);
    forall i | 0 <= i < |rest|
      ensures rest[i].lastUsed < u.at && rest[i].key != u.key
    {
      WithoutHas(rs, u.key, rest[i]);
    }
  }

  lemma CutFalls(rs: seq<Record>)
    requires Falling(rs)
    ensures Falling(Cut(rs)) && (rs != [] ==> Cut(rs) != [] && Cut(rs)[0] == rs[0])
  {
  }

  lemma {:induction false} RunFalls(uses: seq<Use>)
    requires Increasing(uses)
    ensures Falling(Run(uses))
    ensures forall i :: 0 <= i < |Run(uses)| ==> uses != [] && Run(uses)[i].lastUsed <= uses[|uses| - 1].at
  {
    if uses != [] {
      var n := |uses| - 1;
      RunFalls(uses[..n]);
      NotedGoesFirst(Run(uses[..n]), uses[n]);
      CutFalls([Newest(Run(uses[..n]), uses[n])] + Without(Run(uses[..n]), uses[n].key));
    }
  }

  lemma RunIsBefore(uses: seq<Use>)
    requires Increasing(uses) && uses != []
    ensures var was := Run(uses[..|uses| - 1]); Falling(was) && AllBefore(was, uses[|uses| - 1].at)
  {
    RunFalls(uses[..|uses| - 1]);
  }

  predicate NoRepeats(keys: seq<Key>) {
    forall i, j :: 0 <= i < j < |keys| ==> keys[i] != keys[j]
  }

  lemma {:induction false} DropIs(keys: seq<Key>, key: Key)
    requires NoRepeats(keys)
    ensures var r := Drop(keys, key); NoRepeats(r) && forall k :: k in r <==> k in keys && k != key
    ensures |Drop(keys, key)| == if key in keys then |keys| - 1 else |keys|
  {
    if keys != [] {
      var n := |keys| - 1;
      DropIs(keys[..n], key);
      assert keys == keys[..n] + [keys[n]];
      var front := Drop(keys[..n], key);
      assert forall i :: 0 <= i < |front| ==> front[i] in front;
    }
  }

  /** Dropping a key and cutting to one fewer commutes with cutting first. */
  lemma DropOfCut(keys: seq<Key>, key: Key, n: nat)
    requires NoRepeats(keys) && n < |keys|
    ensures |Drop(keys, key)| >= n && |Drop(keys[..n + 1], key)| >= n
    ensures Drop(keys[..n + 1], key)[..n] == Drop(keys, key)[..n]
  {
    DropIs(keys, key);
    DropIs(keys[..n + 1], key);
    DropPrefix(keys, key, n + 1);
  }

  lemma {:induction false} DropPrefix(keys: seq<Key>, key: Key, n: nat)
    requires n <= |keys|
    ensures Drop(keys[..n], key) <= Drop(keys, key)
    decreases |keys|
  {
    if n < |keys| {
      assert keys[..|keys| - 1][..n] == keys[..n];
      DropPrefix(keys[..|keys| - 1], key, n);
    } else {
      assert keys[..n] == keys;
    }
  }

  lemma {:induction false} RecencyIs(uses: seq<Use>)
    ensures NoRepeats(Recency(uses)) && forall k :: k in Recency(uses) <==> k in Used(uses)
  {
    if uses != [] {
      var n := |uses| - 1;
      RecencyIs(uses[..n]);
      DropIs(Recency(uses[..n]), uses[n].key);
      assert uses == uses[..n] + [uses[n]];
      assert Used(uses) == Used(uses[..n]) + {uses[n].key};
    }
  }

  lemma KeysOfCut(rs: seq<Record>)
    ensures Keys(Cut(rs)) == Cut(Keys(rs))
  {
  }

  lemma KeysPrepend(x: Record, rs: seq<Record>)
    ensures Keys([x] + rs) == [x.key] + Keys(rs)
  {
  }

  lemma KeysAfterUse(was: seq<Record>, u: Use, keys: seq<Key>)
    requires Keys(was) == Cut(keys) && NoRepeats(keys)
    ensures Keys(Cut([Newest(was, u)] + Without(was, u.key))) == Cut([u.key] + Drop(keys, u.key))
  {
    KeysOfCut([Newest(was, u)] + Without(was, u.key));
    KeysPrepend(Newest(was, u), Without(was, u.key));
    WithoutKeys(was, u.key);
    CutAfterUse(keys, u.key);
  }

  /** The list holds the fifty most recently used keys, the most recent first. */
  lemma {:induction false} RunIsMostRecent(uses: seq<Use>)
    requires Increasing(uses)
    ensures Keys(Run(uses)) == Cut(Recency(uses))
  {
    if uses != [] {
      var n := |uses| - 1;
      RunIsMostRecent(uses[..n]);
      RunIsBefore(uses);
      NotedGoesFirst(Run(uses[..n]), uses[n]);
      RecencyIs(uses[..n]);
      KeysAfterUse(Run(uses[..n]), uses[n], Recency(uses[..n]));
    }
  }

  lemma CutAfterUse(keys: seq<Key>, key: Key)
    requires NoRepeats(keys)
    ensures Cut([key] + Drop(Cut(keys), key)) == Cut([key] + Drop(keys, key))
  {
    if |keys| > MRU_MAX {
      DropAndCut(keys, key);
      CutOfCons(key, Drop(Cut(keys), key));
      CutOfCons(key, Drop(keys, key));
    }
  }

  lemma CutOfCons(key: Key, keys: seq<Key>)
    requires |keys| >= MRU_MAX - 1
    ensures Cut([key] + keys) == [key] + keys[..MRU_MAX - 1]
  {
  }

  lemma DropAndCut(keys: seq<Key>, key: Key)
    requires NoRepeats(keys) && |keys| > MRU_MAX
    ensures |Drop(Cut(keys), key)| >= MRU_MAX - 1 && |Drop(keys, key)| >= MRU_MAX - 1
    ensures Drop(Cut(keys), key)[..MRU_MAX - 1] == Drop(keys, key)[..MRU_MAX - 1]
  {
    DropOfCut(keys, key, MRU_MAX - 1);
  }

  // ---------------------------------------------------------------- what a place and a count mean

  /** How many uses there were up to and including the last of a key: none when there was none. */
  function LastUse(uses: seq<Use>, key: Key): (r: nat)
    ensures r <= |uses|
  {
    if uses == [] then 0
    else if uses[|uses| - 1].key == key then |uses|
    else LastUse(uses[..|uses| - 1], key)
  }

  lemma {:induction false} DropIsSome(keys: seq<Key>, key: Key, i: nat) returns (j: nat)
    requires NoRepeats(keys) && i < |Drop(keys, key)|
    ensures j < |keys| && keys[j] == Drop(keys, key)[i] != key && j == if key in keys[..j] then i + 1 else i
  {
    DropIs(keys, key);
    assert Drop(keys, key)[i] in Drop(keys, key);
    j :| 0 <= j < |keys| && keys[j] == Drop(keys, key)[i];
    DropShifts(keys, key, i, j);
  }

  lemma SinceNext(uses: seq<Use>, key: Key)
    requires uses != [] && uses[|uses| - 1].key != key
    ensures LastUse(uses, key) == LastUse(uses[..|uses| - 1], key)
    ensures Used(uses[LastUse(uses, key)..])
            == Used(uses[..|uses| - 1][LastUse(uses, key)..]) + {uses[|uses| - 1].key}
  {
    var n, at := |uses| - 1, LastUse(uses, key);
    assert uses[at..] == uses[..n][at..] + [uses[n]];
    UsedAppend(uses[..n][at..], uses[n]);
  }

  lemma UsedAppend(uses: seq<Use>, u: Use)
    ensures Used(uses + [u]) == Used(uses) + {u.key}
  {
    assert forall v :: v in uses + [u] <==> v in uses || v == u;
  }

  /** A key's place among all keys is the number of different keys used since its own last use. */
  lemma {:induction false} PlaceCountsKeysSince(uses: seq<Use>, i: nat, key: Key)
    requires i < |Recency(uses)| && Recency(uses)[i] == key
    ensures i == |Used(uses[LastUse(uses, key)..])| && 0 < LastUse(uses, key)
  {
    var n := |uses| - 1;
    if i == 0 {
      assert uses[|uses|..] == [];
    } else {
      var last, before := uses[n].key, Recency(uses[..n]);
      RecencyIs(uses[..n]);
      var j := DropIsSome(before, last, i - 1);
      PlaceCountsKeysSince(uses[..n], j, key);
      SinceNext(uses, key);
      LastIsSince(uses[..n], last, j);
      UnionOne(Used(uses[..n][LastUse(uses, key)..]), last);
    }
  }

  lemma UnionOne(s: set<Key>, x: Key)
    ensures |s + {x}| == if x in s then |s| else |s| + 1
  {
    if x in s {
      assert s + {x} == s;
    }
  }

  lemma {:induction false} DropMisses(keys: seq<Key>, key: Key)
    requires key !in keys
    ensures Drop(keys, key) == keys
  {
    if keys != [] {
      DropMisses(keys[..|keys| - 1], key);
      assert keys == keys[..|keys| - 1] + [keys[|keys| - 1]];
    }
  }

  lemma {:induction false} DropSplits(keys: seq<Key>, p: nat)
    requires NoRepeats(keys) && p < |keys|
    ensures Drop(keys, keys[p]) == keys[..p] + keys[p + 1..]
  {
    var n := |keys| - 1;
    if p == n {
      DropMisses(keys[..n], keys[p]);
    } else {
      DropSplits(keys[..n], p);
      assert keys[..n][..p] == keys[..p];
      assert keys[p + 1..] == keys[..n][p + 1..] + [keys[n]];
    }
  }

  /** Where an element stood before a drop. */
  lemma DropShifts(keys: seq<Key>, key: Key, i: nat, j: nat)
    requires NoRepeats(keys) && i < |Drop(keys, key)| && j < |keys| && Drop(keys, key)[i] == keys[j]
    ensures j == if key in keys[..j] then i + 1 else i
  {
    if key in keys {
      var p :| 0 <= p < |keys| && keys[p] == key;
      DropSplits(keys, p);
      if p < j {
        assert keys[..j][p] == key;
      }
    } else {
      DropMisses(keys, key);
    }
  }

  /** Another key was used since the last use of the key at place `j` if and only if it stands before it. */
  lemma {:induction false} LastIsSince(uses: seq<Use>, other: Key, j: nat)
    requires j < |Recency(uses)|
    ensures other in Used(uses[LastUse(uses, Recency(uses)[j])..]) <==> other in Recency(uses)[..j]
  {
    var n, key := |uses| - 1, Recency(uses)[j];
    var last, before := uses[n].key, Recency(uses[..n]);
    if j == 0 {
      assert uses[|uses|..] == [];
    } else {
      RecencyIs(uses[..n]);
      var i := DropIsSome(before, last, j - 1);
      LastIsSince(uses[..n], other, i);
      SinceNext(uses, key);
      FrontOfDrop(before, last, other, j - 1, i);
      assert Recency(uses)[..j] == [last] + Drop(before, last)[..j - 1];
    }
  }

  lemma FrontOfDrop(keys: seq<Key>, key: Key, other: Key, i: nat, j: nat)
    requires NoRepeats(keys) && i < |Drop(keys, key)| && j < |keys| && Drop(keys, key)[i] == keys[j]
    ensures other != key ==> (other in Drop(keys, key)[..i] <==> other in keys[..j])
  {
    DropPrefix(keys, key, j);
    DropIs(keys[..j], key);
    DropIs(keys, key);
    DropShifts(keys, key, i, j);
    assert |Drop(keys[..j], key)| == i;
    assert Drop(keys, key)[..i] == Drop(keys[..j], key);
  }

  /** A key is on the list exactly when it was used and fewer than fifty other keys have been used since. */
  lemma RemembersRecentKeys(uses: seq<Use>, key: Key)
    requires Increasing(uses)
    ensures HasKey(Run(uses), key) <==> key in Used(uses) && |Used(uses[LastUse(uses, key)..])| < 50
  {
    RunIsMostRecent(uses);
    RecencyIs(uses);
    if key in Used(uses) {
      var i :| 0 <= i < |Recency(uses)| && Recency(uses)[i] == key;
      PlaceCountsKeysSince(uses, i, key);
      PlaceInCut(Recency(uses), i);
    }
  }

  lemma PlaceInCut(keys: seq<Key>, i: nat)
    requires NoRepeats(keys) && i < |keys|
    ensures keys[i] in Cut(keys) <==> i < MRU_MAX
  {
    assert forall k :: 0 <= k < |Cut(keys)| ==> Cut(keys)[k] == keys[k];
  }

  /** The longest front of the run after which the key was not on the list. */
  function LastAbsent(uses: seq<Use>, key: Key): (r: nat)
    ensures r <= |uses|
  {
    if uses == [] || !HasKey(Run(uses), key) then |uses| else LastAbsent(uses[..|uses| - 1], key)
  }

  function Times(uses: seq<Use>, key: Key): nat {
    if uses == [] then 0
    else Times(uses[..|uses| - 1], key) + if uses[|uses| - 1].key == key then 1 else 0
  }

  lemma {:induction false} CountOfIs(rs: seq<Record>, key: Key)
    requires DistinctKeys(rs)
    ensures !HasKey(rs, key) ==> CountOf(rs, key) == 0
    ensures forall r :: r in rs && r.key == key ==> r.count == CountOf(rs, key)
  {
    if rs != [] {
      var n := |rs| - 1;
      CountOfIs(rs[..n], key);
      assert rs == rs[..n] + [rs[n]];
      assert Keys(rs) == Keys(rs[..n]) + [rs[n].key];
    }
  }

  /** The count of a key after one more use. */
  lemma CountAfterUse(rs: seq<Record>, u: Use, key: Key)
    requires Falling(rs) && AllBefore(rs, u.at) && HasKey(Noted(rs, u.key, u.at), key)
    ensures CountOf(Noted(rs, u.key, u.at), key) == CountOf(rs, key) + if key == u.key then 1 else 0
    ensures key != u.key ==> HasKey(rs, key)
  {
    NotedGoesFirst(rs, u);
    CountInCut(rs, u, Cut([Newest(rs, u)] + Without(rs, u.key)), key);
  }

  lemma CountInCut(rs: seq<Record>, u: Use, noted: seq<Record>, key: Key)
    requires Falling(rs) && Falling(noted) && noted <= [Newest(rs, u)] + Without(rs, u.key) && HasKey(noted, key)
    ensures CountOf(noted, key) == CountOf(rs, key) + if key == u.key then 1 else 0
    ensures key != u.key ==> HasKey(rs, key)
  {
    var i :| 0 <= i < |noted| && noted[i].key == key;
    CountOfIs(noted, key);
    assert noted[i] in noted;
    if i > 0 {
      assert noted[i] == Without(rs, u.key)[i - 1];
      WithoutHas(rs, u.key, noted[i]);
      CountOfIs(rs, key);
    }
  }

  lemma TimesNext(uses: seq<Use>, from: nat, key: Key)
    requires from < |uses|
    ensures Times(uses[from..], key)
            == Times(uses[..|uses| - 1][from..], key) + if uses[|uses| - 1].key == key then 1 else 0
  {
    var n := |uses| - 1;
    assert uses[from..][..n - from] == uses[..n][from..];
  }

  /** A key's count is the number of its uses since it was last off the list. */
  lemma {:induction false} CountIsUsesSinceEviction(uses: seq<Use>, key: Key)
    requires Increasing(uses)
    ensures CountOf(Run(uses), key) == Times(uses[LastAbsent(uses, key)..], key)
  {
    if uses == [] || !HasKey(Run(uses), key) {
      RunFalls(uses);
      CountOfIs(Run(uses), key);
    } else {
      var n := |uses| - 1;
      RunIsBefore(uses);
      CountAfterUse(Run(uses[..n]), uses[n], key);
      CountIsUsesSinceEviction(uses[..n], key);
      TimesNext(uses, LastAbsent(uses, key), key);
    }
  }
}
