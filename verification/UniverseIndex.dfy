/** The search index: sorted tickers, word buckets and trigram counters, each lookup equal to a scan of every entry. */
module UniverseIndex {
  import opened Util
  import opened Sorting
  import opened UniverseEntries
  import opened UniverseWords
  import opened UniverseTrigrams
  import opened UniverseSearch
  import opened UniverseHits

  function HasTicker(entries: seq<Entry>): nat -> bool {
    (i: nat) => TickerAt(entries, i) != ""
  }

  function TickerOrder(entries: seq<Entry>): seq<nat> {
    Sort(ByTicker(entries), Filter(UpTo(|entries|), HasTicker(entries)))
  }

  lemma TickerOrderIs(entries: seq<Entry>)
    ensures Sorted(ByTicker(entries), TickerOrder(entries))
    ensures forall i: nat :: i in TickerOrder(entries) <==> i < |entries| && TickerAt(entries, i) != ""
  {
    TickerIsStrict(entries);
    ScanDistinct(|entries|, HasTicker(entries));
    SortSorts(ByTicker(entries), Filter(UpTo(|entries|), HasTicker(entries)));
    forall i: nat
      ensures i in TickerOrder(entries) <==> i < |entries| && TickerAt(entries, i) != ""
    {
      SortHas(ByTicker(entries), Filter(UpTo(|entries|), HasTicker(entries)), i);
      FilterHas(UpTo(|entries|), HasTicker(entries), i);
      assert i < |entries| ==> UpTo(|entries|)[i] == i;
    }
  }

  function KeysOfTickers(entries: seq<Entry>, order: seq<nat>): (r: seq<string>)
    ensures |r| == |order| && forall k :: 0 <= k < |order| ==> r[k] == TickerAt(entries, order[k])
  {
    seq(|order|, k requires 0 <= k < |order| => TickerAt(entries, order[k]))
  }

  lemma TickerKeysSorted(entries: seq<Entry>, order: seq<nat>)
    requires Sorted(ByTicker(entries), order)
    ensures KeysSorted(KeysOfTickers(entries, order))
  {
    var keys := KeysOfTickers(entries, order);
    forall i, j | 0 <= i <= j < |keys|
      ensures !Less(keys[j], keys[i])
    {
      LessIsTotal(keys[i], keys[j]);
      assert i < j ==> ByTicker(entries)(order[i], order[j]);
    }
  }

  /** What the tickers with a prefix are, as a set of indexes in order. */
  lemma TickerScanIs(entries: seq<Entry>, q: string)
    ensures Sorted(ByTicker(entries), TickerScan(entries, q))
    ensures forall i: nat :: i in TickerScan(entries, q) <==>
                             i < |entries| && TickerAt(entries, i) != "" && StartsWith(TickerAt(entries, i), q)
  {
    var p := (i: nat) => TickerAt(entries, i) != "" && StartsWith(TickerAt(entries, i), q);
    TickerIsStrict(entries);
    ScanDistinct(|entries|, p);
    SortSorts(ByTicker(entries), Filter(UpTo(|entries|), p));
    forall i: nat
      ensures i in TickerScan(entries, q) <==>
              i < |entries| && TickerAt(entries, i) != "" && StartsWith(TickerAt(entries, i), q)
    {
      SortHas(ByTicker(entries), Filter(UpTo(|entries|), p), i);
      FilterHas(UpTo(|entries|), p, i);
      assert i < |entries| ==> UpTo(|entries|)[i] == i;
    }
  }

  /** The block of the ticker array whose keys have the prefix is the scan. */
  lemma BlockIsScan(entries: seq<Entry>, q: string, lo: nat, hi: nat)
    requires lo <= hi <= |TickerOrder(entries)|
    requires forall k :: 0 <= k < |TickerOrder(entries)| ==>
               (StartsWith(KeysOfTickers(entries, TickerOrder(entries))[k], q) <==> lo <= k < hi)
    ensures TickerOrder(entries)[lo..hi] == TickerScan(entries, q)
  {
    var order := TickerOrder(entries);
    TickerOrderIs(entries);
    TickerScanIs(entries, q);
    TickerIsStrict(entries);
    forall k | 0 <= k < |order|
      ensures StartsWith(TickerAt(entries, order[k]), q) <==> lo <= k < hi
    {
      assert KeysOfTickers(entries, order)[k] == TickerAt(entries, order[k]);
    }
    forall i: nat
      ensures i in order[lo..hi] <==> i in TickerScan(entries, q)
    {
      InBlock(order, (x: nat) => StartsWith(TickerAt(entries, x), q), lo, hi, i);
    }
    SortedIsUnique(ByTicker(entries), order[lo..hi], TickerScan(entries, q));
  }

  lemma InBlock(order: seq<nat>, p: nat -> bool, lo: nat, hi: nat, i: nat)
    requires lo <= hi <= |order|
    requires forall k :: 0 <= k < |order| ==> (p(order[k]) <==> lo <= k < hi)
    ensures i in order[lo..hi] <==> i in order && p(i)
  {
    if i in order && p(i) {
      var k :| 0 <= k < |order| && order[k] == i;
      assert order[lo..hi][k - lo] == i;
    }
    if i in order[lo..hi] {
      var k :| 0 <= k < hi - lo && order[lo..hi][k] == i;
      assert order[lo + k] == i;
    }
  }

  lemma CutBlock(order: seq<nat>, lo: nat, hi: nat, limit: Option<int>)
    requires lo <= hi <= |order|
    ensures Capped(order[lo..hi], limit)
            == if limit.Some? && limit.value >= 0 && lo + limit.value < hi then order[lo..lo + limit.value]
                else order[lo..hi]
  {
  }

  lemma {:induction false} FilterOfSameSize<T>(xs: seq<T>, p: T -> bool)
    requires |Filter(xs, p)| == |xs|
    ensures Filter(xs, p) == xs
  {
    if xs != [] {
      FilterOfSameSize(xs[..|xs| - 1], p);
    }
  }

  class UniverseIndex {
    const normalizeWords: Normalizer
    const upperQuery: string -> string
    const entries: seq<Entry>
    const tickerKeys: seq<string>
    const tickerEntries: seq<nat>
    const wordIndex: Buckets
    const shortWordIndex: Buckets
    const trigrams: Buckets
    const unitEntry: seq<nat>
    const unitSize: seq<nat>
    const unitCount: array<int>
    const unitStamp: array<int>
    var generation: nat

    ghost function Units(): seq<Unit> {
      UnitsBefore(normalizeWords, entries, |entries|)
    }

    /** The tables are those of the entries, and no stamp is from the future. */
    ghost predicate Valid()
      reads this, unitCount, unitStamp
    {
      && tickerEntries == TickerOrder(entries)
      && tickerKeys == KeysOfTickers(entries, tickerEntries)
      && WordsFrozen()
      && Tables(Units(), unitEntry, unitSize)
      && Holds(trigrams, HasGram(Units()), |Units()|)
      && unitCount != unitStamp
      && unitCount.Length == unitStamp.Length == |Units()|
      && Stamped(unitStamp[..], generation)
    }

    ghost predicate WordsFrozen() {
      && (forall key: string :: FrozenAt(wordIndex, HasWordKey(entries), key))
      && (forall key: string :: FrozenAt(shortWordIndex, HasShortWordKey(entries), key))
    }

    ghost predicate FrozenAt(b: Buckets, has: (nat, string) -> bool, key: string) {
      && Sorted(ByImportance(entries), Get(b, key))
      && forall i: nat :: i in Get(b, key) <==> i < |entries| && has(i, key)
    }

    constructor (normalizeWords: Normalizer, upperQuery: string -> string, entries: seq<Entry>)
      ensures Valid() && fresh(unitCount) && fresh(unitStamp)
      ensures this.entries == entries && this.normalizeWords == normalizeWords && this.upperQuery == upperQuery
    {
      this.normalizeWords, this.upperQuery, this.entries := normalizeWords, upperQuery, entries;
      TickerOrderIs(entries);
      tickerEntries := TickerOrder(entries);
      tickerKeys := KeysOfTickers(entries, TickerOrder(entries));
      var words, shorts := BuildBuckets(entries);
      wordIndex, shortWordIndex := Freeze(words, entries), Freeze(shorts, entries);
      var units, sizes, postings := BuildUnits(normalizeWords, entries);
      unitEntry, unitSize, trigrams := units, sizes, postings;
      unitCount := new int[|units|](_ => 0);
      unitStamp := new int[|units|](_ => 0);
      generation := 0;
      new;
      forall key: string
        ensures FrozenAt(wordIndex, HasWordKey(entries), key)
      {
        assert HoldsKey(words, HasWordKey(entries), |entries|, key);
        FrozenBucket(words, entries, HasWordKey(entries), key);
      }
      forall key: string
        ensures FrozenAt(shortWordIndex, HasShortWordKey(entries), key)
      {
        assert HoldsKey(shorts, HasShortWordKey(entries), |entries|, key);
        FrozenBucket(shorts, entries, HasShortWordKey(entries), key);
      }
    }

    /** Entries whose ticker starts with the query, in ticker order: the scan, cut to the limit. */
    method TickerPrefix(query: string, limit: Option<int>) returns (r: seq<nat>)
      requires Valid()
      ensures r == if upperQuery(query) == "" then [] else Capped(TickerScan(entries, upperQuery(query)), limit)
    {
      var q := upperQuery(query);
      if |q| == 0 { return []; }
      TickerOrderIs(entries);
      TickerKeysSorted(entries, tickerEntries);
      var lo, hi := PrefixRange(tickerKeys, q);
      BlockIsScan(entries, q, lo, hi);
      if lo == hi { return []; }
      var end := hi;
      if limit.Some? && limit.value >= 0 && lo + limit.value < hi {
        end := lo + limit.value;
      }
      CutBlock(tickerEntries, lo, hi, limit);
      r := tickerEntries[lo..end];
    }

    /** Entries with a name word starting with the query, best first: the scan, cut to the limit. */
    method WordPrefix(query: string, limit: Option<int>) returns (r: seq<nat>)
      requires Valid()
      ensures r == if upperQuery(query) == "" then [] else Capped(WordScan(entries, upperQuery(query)), limit)
    {
      var q := upperQuery(query);
      if |q| == 0 { return []; }
      var bucket := if |q| >= WORD_KEY_LENGTH then Get(wordIndex, q[..WORD_KEY_LENGTH]) else Get(shortWordIndex, q);
      assert if |q| >= WORD_KEY_LENGTH then FrozenAt(wordIndex, HasWordKey(entries), q[..WORD_KEY_LENGTH])
             else FrozenAt(shortWordIndex, HasShortWordKey(entries), q);
      BucketAnswers(entries, bucket, q);
      var cap := if limit.Some? && limit.value >= 0 then limit.value else |bucket|;
      if cap == 0 { return []; }
      r := TakeMatching(bucket, q, cap);
    }

    /** The first `cap` entries of the bucket that have a word starting with the query. */
    method TakeMatching(bucket: seq<nat>, q: string, cap: nat) returns (r: seq<nat>)
      requires forall i :: i in bucket ==> i < |entries|
      ensures var all := Filter(bucket, (i: nat) => WordStarts(WordsAt(entries, i), q));
              r == if cap < |all| then all[..cap] else all
    {
      ghost var p := (i: nat) => WordStarts(WordsAt(entries, i), q);
      var out: seq<nat> := [];
      var i := 0;
      assert bucket[..0] == [];
      while i < |bucket| && |out| < cap
        invariant i <= |bucket| && |out| <= cap
        invariant out == Filter(bucket[..i], p)
      {
        var idx := bucket[i];
        assert idx in bucket;
        assert bucket[..i + 1][..i] == bucket[..i];
        var words := entries[idx].nameWords;
        var found := false;
        for k := 0 to |words|
          invariant !found && forall j :: 0 <= j < k ==> !StartsWith(words[j], q)
        {
          if StartsWith(words[k], q) {
            found := true;
            break;
          }
        }
        if found {
          out := out + [idx];
        }
        i := i + 1;
      }
      assert bucket == bucket[..i] + bucket[i..];
      FilterConcat(bucket[..i], bucket[i..], p);
      if |out| == |bucket| && cap >= |bucket| {
        FilterOfSameSize(bucket, p);
        return bucket;
      }
      r := out;
    }

    /**
     * The fuzzy search. Whatever earlier queries left in the counters, the hits are those of the scan, until the
     * query count no longer fits a stamp.
     */
    method TrigramSearch(query: string, minScore: real, limit: int) returns (hits: seq<Hit>)
      requires Valid()
      modifies this`generation, unitCount, unitStamp
      ensures Valid()
      ensures hits == TopHits(ScanHits(entries, Units(), GramSet(normalizeWords(query)), old(generation) < MAX_STAMP,
                                       minScore), limit)
    {
      if limit <= 0 { return []; }
      var qt := TrigramsOf(normalizeWords(query));
      ghost var q := GramSet(normalizeWords(query));
      if |qt| == 0 {
        assert q == Elements(qt) == {};
        EmptyQuery(entries, Units(), generation < MAX_STAMP, minScore);
        return [];
      }
      generation := generation + 1;
      var gen := generation;
      var touched := CountAll(qt, trigrams, gen, unitCount, unitStamp, Units());
      ghost var board := Board(Units(), q, gen <= MAX_STAMP, minScore);
      CountersGiveBoard(qt, touched, minScore, board);
      var keys, best := PickBest(touched, |qt|, unitCount, unitEntry, unitSize, minScore, board);
      var found := HitsOf(keys, best);
      UnitsAreOfEntries();
      assert EntriesOf(Units()) == unitEntry;
      CollectedIsScan(entries, unitEntry, board, touched, keys, best);
      ByScoreIsStrict(entries);
      var sorted := Sort(ByScore(entries), found);
      hits := if |sorted| > limit then sorted[..limit] else sorted;
    }

    lemma UnitsAreOfEntries()
      requires Tables(Units(), unitEntry, unitSize)
      ensures forall u :: 0 <= u < |unitEntry| ==> unitEntry[u] < |entries|
    {
      forall u | 0 <= u < |unitEntry|
        ensures unitEntry[u] < |entries|
      {
        UnitsAre(normalizeWords, entries, |entries|, Units()[u]);
      }
    }

    lemma CountersGiveBoard(qt: seq<string>, touched: seq<nat>, minScore: real, board: seq<Option<real>>)
      requires Tables(Units(), unitEntry, unitSize) && unitCount.Length == unitStamp.Length == |Units()|
      requires Tallied(unitCount[..], unitStamp[..], generation, touched, Met(Units(), qt))
      requires |Elements(qt)| == |qt|
      requires board == Board(Units(), Elements(qt), generation <= MAX_STAMP, minScore)
      ensures forall u :: u in touched ==>
                u < |board| && 0 < unitCount[u] && board[u] == ScoreOf(unitCount[u], |qt|, unitSize[u], minScore)
      ensures forall u :: 0 <= u < |board| && board[u].Some? ==> u in touched
    {
      forall u: nat | u < |board|
        ensures u in touched ==> 0 < unitCount[u] && board[u] == ScoreOf(unitCount[u], |qt|, unitSize[u], minScore)
        ensures board[u].Some? ==> u in touched
      {
        assert TalliedAt(unitCount[..], unitStamp[..], generation, touched, Met(Units(), qt), u);
      }
    }
  }

  /** A query with no trigrams scores nothing. */
  lemma EmptyQuery(entries: seq<Entry>, units: seq<Unit>, exact: bool, minScore: real)
    ensures ScanHits(entries, units, {}, exact, minScore) == []
  {
    var board := Board(units, {}, exact, minScore);
    assert forall u :: 0 <= u < |units| ==> {} * units[u].grams == {};
    assert forall u :: 0 <= u < |units| ==> board[u] == None;
    NoScoreNoHits(EntriesOf(units), board, |entries|);
  }

  lemma {:induction false} NoScoreNoHits(unitEntry: seq<nat>, board: seq<Option<real>>, n: nat)
    requires forall u :: 0 <= u < |board| ==> board[u] == None
    ensures HitsBefore(unitEntry, board, n) == []
  {
    if n > 0 {
      NoScoreNoHits(unitEntry, board, n - 1);
      BestIsBest(unitEntry, board, n - 1, UpTo(|unitEntry|));
    }
  }
}
