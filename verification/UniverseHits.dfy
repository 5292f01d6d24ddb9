/** From counters to hits: each entry's best unit, in order, against a scan of every unit. */
module UniverseHits {
  import opened Util
  import opened Sorting
  import opened UniverseEntries
  import opened UniverseTrigrams
  import opened UniverseSearch

  datatype Hit = Hit(entry: nat, score: real)

  /** Score descending, then importance. */
  predicate HitBefore(entries: seq<Entry>, a: Hit, b: Hit) {
    a.score > b.score || (a.score == b.score && MoreImportant(entries, a.entry, b.entry))
  }

  function ByScore(entries: seq<Entry>): (Hit, Hit) -> bool {
    (a: Hit, b: Hit) => HitBefore(entries, a, b)
  }

  lemma ByScoreIsStrict(entries: seq<Entry>)
    ensures StrictOrder(ByScore(entries))
  {
    var lt := ByScore(entries);
    forall a: Hit, b: Hit
      ensures !lt(a, a) && (a == b || lt(a, b) || lt(b, a))
    {
      ImportanceTotal(entries, a.entry, b.entry);
      ImportanceTotal(entries, a.entry, a.entry);
    }
    forall a: Hit, b: Hit, c: Hit | lt(a, b) && lt(b, c)
      ensures lt(a, c)
    {
      if MoreImportant(entries, a.entry, b.entry) && MoreImportant(entries, b.entry, c.entry) {
        ImportanceTransitive(entries, a.entry, b.entry, c.entry);
      }
    }
  }

  // ---------------------------------------------------------------- scores

  /** The score of a unit with `inter` trigrams in common, when it reaches the floor. */
  function ScoreOf(inter: nat, querySize: nat, size: nat, minScore: real): Option<real> {
    var union := querySize + size - inter;
    if inter == 0 || union <= 0 || inter as real / union as real < minScore then None
    else Some(inter as real / union as real)
  }

  /** Every unit's score for the query. */
  function Board(units: seq<Unit>, q: set<string>, exact: bool, minScore: real): (r: seq<Option<real>>)
    ensures |r| == |units|
  {
    seq(|units|, u requires 0 <= u < |units| =>
      ScoreOf(Counted(Shared(q, units[u]), exact), |q|, StoredSize(|units[u].grams|), minScore))
  }

  function ScoreFor(unitEntry: seq<nat>, board: seq<Option<real>>, e: nat, u: nat): Option<real> {
    if u < |unitEntry| && u < |board| && unitEntry[u] == e then board[u] else None
  }

  function Better(prev: Option<real>, score: Option<real>): Option<real> {
    if score.None? || (prev.Some? && score.value <= prev.value) then prev else score
  }

  /** The best score of entry `e` among some units. */
  function Best(unitEntry: seq<nat>, board: seq<Option<real>>, e: nat, us: seq<nat>): Option<real> {
    if us == [] then None
    else Better(Best(unitEntry, board, e, us[..|us| - 1]), ScoreFor(unitEntry, board, e, us[|us| - 1]))
  }

  /** It is the score of one of them, and none scores higher. */
  ghost predicate IsBest(unitEntry: seq<nat>, board: seq<Option<real>>, e: nat, us: seq<nat>, best: Option<real>) {
    && (best.Some? ==> exists u :: u in us && ScoreFor(unitEntry, board, e, u) == best)
    && forall u :: u in us && ScoreFor(unitEntry, board, e, u).Some? ==>
         best.Some? && ScoreFor(unitEntry, board, e, u).value <= best.value
  }

  lemma {:induction false} BestIsBest(unitEntry: seq<nat>, board: seq<Option<real>>, e: nat, us: seq<nat>)
    ensures IsBest(unitEntry, board, e, us, Best(unitEntry, board, e, us))
  {
    if us != [] {
      var n := |us| - 1;
      BestIsBest(unitEntry, board, e, us[..n]);
      assert us == us[..n] + [us[n]];
      assert forall u :: u in us <==> u in us[..n] || u == us[n];
    }
  }

  /** Units without a score change nothing, nor does the order in which units are met. */
  lemma BestIsOrderless(unitEntry: seq<nat>, board: seq<Option<real>>, e: nat, us: seq<nat>, vs: seq<nat>)
    requires forall u :: ScoreFor(unitEntry, board, e, u).Some? ==> (u in us <==> u in vs)
    ensures Best(unitEntry, board, e, us) == Best(unitEntry, board, e, vs)
  {
    BestIsBest(unitEntry, board, e, us);
    BestIsBest(unitEntry, board, e, vs);
  }

  // ---------------------------------------------------------------- the scan

  function HitsBefore(unitEntry: seq<nat>, board: seq<Option<real>>, n: nat): seq<Hit> {
    if n == 0 then []
    else
      var best := Best(unitEntry, board, n - 1, UpTo(|unitEntry|));
      HitsBefore(unitEntry, board, n - 1) + if best.Some? then [Hit(n - 1, best.value)] else []
  }

  lemma {:induction false} HitsBeforeAre(unitEntry: seq<nat>, board: seq<Option<real>>, n: nat)
    ensures Distinct(HitsBefore(unitEntry, board, n))
    ensures forall h :: h in HitsBefore(unitEntry, board, n) <==>
                        h.entry < n && Best(unitEntry, board, h.entry, UpTo(|unitEntry|)) == Some(h.score)
  {
    if n > 0 {
      HitsBeforeAre(unitEntry, board, n - 1);
      var front := HitsBefore(unitEntry, board, n - 1);
      assert forall k :: 0 <= k < |front| ==> front[k] in front;
    }
  }

  function EntriesOf(units: seq<Unit>): (r: seq<nat>)
    ensures |r| == |units| && forall u :: 0 <= u < |units| ==> r[u] == units[u].entry
  {
    seq(|units|, u requires 0 <= u < |units| => units[u].entry)
  }

  /** Every entry with a scored unit, with its best score, best first. */
  function ScanHits(entries: seq<Entry>, units: seq<Unit>, q: set<string>, exact: bool, minScore: real): seq<Hit> {
    Sort(ByScore(entries), HitsBefore(EntriesOf(units), Board(units, q, exact, minScore), |entries|))
  }

  function TopHits(hits: seq<Hit>, limit: int): seq<Hit> {
    if limit <= 0 then [] else if |hits| > limit then hits[..limit] else hits
  }

  /** `best` as the search fills it: in the order entries are first met. */
  ghost predicate BestSoFar(unitEntry: seq<nat>, board: seq<Option<real>>, us: seq<nat>, keys: seq<nat>, best: map<nat,
                            real>) {
    && Distinct(keys)
    && (forall e :: e in keys <==> e in best)
    && forall e: nat :: BestAt(unitEntry, board, us, best, e)
  }

  ghost predicate BestAt(unitEntry: seq<nat>, board: seq<Option<real>>, us: seq<nat>, best: map<nat, real>, e: nat) {
    (if e in best then Some(best[e]) else None) == Best(unitEntry, board, e, us)
  }

  /** Each touched unit scored; each entry keeps its best. */
  method PickBest(touched: seq<nat>, querySize: nat, unitCount: array<int>, unitEntry: seq<nat>, unitSize: seq<nat>,
                  minScore: real, ghost board: seq<Option<real>>)
    returns (keys: seq<nat>, best: map<nat, real>)
    requires unitCount.Length == |unitEntry| == |unitSize| == |board|
    requires forall u :: u in touched ==>
               u < |board| && 0 < unitCount[u] && board[u] == ScoreOf(unitCount[u], querySize, unitSize[u], minScore)
    ensures BestSoFar(unitEntry, board, touched, keys, best)
  {
    keys, best := [], map[];
    for k := 0 to |touched|
      invariant BestSoFar(unitEntry, board, touched[..k], keys, best)
    {
      var unit := touched[k];
      assert unit in touched;
      ghost var was := best;
      var inter, size := unitCount[unit], unitSize[unit];
      var union := querySize + size - inter;
      if union > 0 {
        var score := inter as real / union as real;
        if score >= minScore {
          var entry := unitEntry[unit];
          assert BestAt(unitEntry, board, touched[..k], best, entry);
          if entry !in best {
            keys, best := keys + [entry], best[entry := score];
          } else if score > best[entry] {
            best := best[entry := score];
          }
        }
      }
      BestStep(unitEntry, board, touched, k, was, best);
    }
    assert touched[..|touched|] == touched;
  }

  lemma BestStep(unitEntry: seq<nat>, board: seq<Option<real>>, touched: seq<nat>, k: nat, was: map<nat, real>,
                 now: map<nat, real>)
    requires k < |touched| && touched[k] < |unitEntry| == |board|
    requires forall e: nat :: BestAt(unitEntry, board, touched[..k], was, e)
    requires var unit := touched[k]; var e := unitEntry[unit];
             now == if board[unit].Some? && (e !in was || board[unit].value > was[e]) then was[e := board[unit].value]
                 else was
    ensures var next := touched[..k + 1]; forall e: nat :: BestAt(unitEntry, board, next, now, e)
  {
    var next := touched[..k + 1];
    assert next[..k] == touched[..k];
    forall e: nat
      ensures BestAt(unitEntry, board, next, now, e)
    {
      assert BestAt(unitEntry, board, touched[..k], was, e);
    }
  }

  function HitsOf(keys: seq<nat>, best: map<nat, real>): (r: seq<Hit>)
    requires forall e :: e in keys ==> e in best
    ensures |r| == |keys| && forall i :: 0 <= i < |keys| ==> r[i] == Hit(keys[i], best[keys[i]])
  {
    seq(|keys|, i requires 0 <= i < |keys| => assert keys[i] in keys; Hit(keys[i], best[keys[i]]))
  }

  /** The hits collected, sorted, are those of the scan. */
  lemma CollectedIsScan(entries: seq<Entry>, unitEntry: seq<nat>, board: seq<Option<real>>, touched: seq<nat>,
                        keys: seq<nat>, best: map<nat, real>)
    requires BestSoFar(unitEntry, board, touched, keys, best) && |unitEntry| == |board|
    requires forall u :: 0 <= u < |unitEntry| ==> unitEntry[u] < |entries|
    requires forall u :: 0 <= u < |board| && board[u].Some? ==> u in touched
    ensures Sort(ByScore(entries), HitsOf(keys, best))
            == Sort(ByScore(entries), HitsBefore(unitEntry, board, |entries|))
  {
    var lt, xs, ys := ByScore(entries), HitsOf(keys, best), HitsBefore(unitEntry, board, |entries|);
    ByScoreIsStrict(entries);
    HitsBeforeAre(unitEntry, board, |entries|);
    assert Distinct(xs);
    SortSorts(lt, xs);
    SortSorts(lt, ys);
    forall h: Hit
      ensures h in Sort(lt, xs) <==> h in Sort(lt, ys)
    {
      SortHas(lt, xs, h);
      SortHas(lt, ys, h);
      CollectedHas(entries, unitEntry, board, touched, keys, best, h);
    }
    SortedIsUnique(lt, Sort(lt, xs), Sort(lt, ys));
  }

  lemma CollectedHas(entries: seq<Entry>, unitEntry: seq<nat>, board: seq<Option<real>>, touched: seq<nat>,
                     keys: seq<nat>, best: map<nat, real>, h: Hit)
    requires BestSoFar(unitEntry, board, touched, keys, best) && |unitEntry| == |board|
    requires forall u :: 0 <= u < |unitEntry| ==> unitEntry[u] < |entries|
    requires forall u :: 0 <= u < |board| && board[u].Some? ==> u in touched
    ensures h in HitsOf(keys, best) <==>
            h.entry < |entries| && Best(unitEntry, board, h.entry, UpTo(|unitEntry|)) == Some(h.score)
  {
    var all := UpTo(|unitEntry|);
    assert forall u: nat :: u < |unitEntry| ==> all[u] == u;
    forall u: nat | ScoreFor(unitEntry, board, h.entry, u).Some?
      ensures u in touched <==> u in all
    {
      assert board[u].Some? && all[u] == u;
    }
    BestIsOrderless(unitEntry, board, h.entry, touched, all);
    BestIsBest(unitEntry, board, h.entry, all);
    assert BestAt(unitEntry, board, touched, best, h.entry);
    var hits := HitsOf(keys, best);
    if h.entry in best && best[h.entry] == h.score {
      var i :| 0 <= i < |keys| && keys[i] == h.entry;
      assert hits[i] == h;
    }
  }

  // ---------------------------------------------------------------- what the scan finds

  /** An exact counter and an unclamped size give the similarity of the two sets of trigrams. */
  lemma ScoreIsSimilarity(q: set<string>, u: Unit, minScore: real)
    requires 0.0 < minScore && |u.grams| <= MAX_SIZE
    ensures ScoreOf(Shared(q, u), |q|, StoredSize(|u.grams|), minScore)
            == Floored(Similarity(q, u.grams), minScore)
  {
    UnionSize(q, u.grams);
    if q != {} && u.grams != {} {
      SimilarityIs(q, u.grams);
    } else {
      assert q * u.grams == {};
    }
  }

  /** The best that any of some texts scores. */
  ghost predicate IsBestText(texts: seq<string>, scoreOf: string -> real, score: real) {
    && (exists t :: t in texts && scoreOf(t) == score)
    && (forall t :: t in texts ==> scoreOf(t) <= score)
  }

  function TextScores(normalize: Normalizer, q: set<string>): string -> real {
    (t: string) => Similarity(q, GramSet(normalize(t)))
  }

  /**
   * With a positive floor and no text of more than 65535 trigrams, the scan finds exactly the notable entries that
   * reach it, each with the similarity of its best text.
   */
  lemma ScanFindsBestText(normalize: Normalizer, entries: seq<Entry>, q: set<string>, minScore: real, i: nat,
                          score: real)
    requires 0.0 < minScore
    requires forall u :: u in UnitsBefore(normalize, entries, |entries|) ==> |u.grams| <= MAX_SIZE
    ensures Hit(i, score) in ScanHits(entries, UnitsBefore(normalize, entries, |entries|), q, true, minScore) <==>
            && i < |entries| && IsNotable(entries[i]) && minScore <= score
            && IsBestText(UnitTexts(entries[i]), TextScores(normalize, q), score)
  {
    var units := UnitsBefore(normalize, entries, |entries|);
    var unitEntry, board := EntriesOf(units), Board(units, q, true, minScore);
    SortHas(ByScore(entries), HitsBefore(unitEntry, board, |entries|), Hit(i, score));
    HitsBeforeAre(unitEntry, board, |entries|);
    if i < |entries| {
      forall u: nat | u < |units|
        ensures board[u] == Floored(Similarity(q, units[u].grams), minScore)
      {
        ScoreIsSimilarity(q, units[u], minScore);
      }
      BestIsBestText(normalize, entries, units, q, minScore, i, board, score);
    }
  }

  lemma BestIsBestText(normalize: Normalizer, entries: seq<Entry>, units: seq<Unit>, q: set<string>, minScore: real,
                       i: nat,
                       board: seq<Option<real>>, score: real)
    requires 0.0 < minScore && i < |entries| && units == UnitsBefore(normalize, entries, |entries|)
        && |board| == |units|
    requires forall u: nat :: u < |units| ==> board[u] == Floored(Similarity(q, units[u].grams), minScore)
    ensures Best(EntriesOf(units), board, i, UpTo(|units|)) == Some(score) <==>
            IsNotable(entries[i]) && minScore <= score && IsBestText(UnitTexts(entries[i]), TextScores(normalize, q),
                score)
  {
    var best := Best(EntriesOf(units), board, i, UpTo(|units|));
    BestIsBest(EntriesOf(units), board, i, UpTo(|units|));
    BestHasText(normalize, entries, units, q, minScore, i, board, best);
    forall t | IsNotable(entries[i]) && t in UnitTexts(entries[i]) && TextScores(normalize, q)(t) >= minScore
      ensures best.Some? && TextScores(normalize, q)(t) <= best.value
    {
      TextIsBeaten(normalize, entries, units, q, minScore, i, board, best, t);
    }
    BestIsUnique(UnitTexts(entries[i]), TextScores(normalize, q), IsNotable(entries[i]), minScore, best, score);
  }

  lemma BestIsUnique(texts: seq<string>, scoreOf: string -> real, notable: bool, minScore: real, best: Option<real>,
                     score: real)
    requires best.Some? ==> notable && minScore <= best.value && exists t :: t in texts && scoreOf(t) == best.value
    requires forall t :: notable && t in texts && scoreOf(t) >= minScore ==> best.Some? && scoreOf(t) <= best.value
    ensures best == Some(score) <==> notable && minScore <= score && IsBestText(texts, scoreOf, score)
  {
  }

  function Floored(score: real, minScore: real): Option<real> {
    if score >= minScore then Some(score) else None
  }

  lemma BestHasText(normalize: Normalizer, entries: seq<Entry>, units: seq<Unit>, q: set<string>, minScore: real,
                    i: nat,
                    board: seq<Option<real>>, best: Option<real>)
    requires i < |entries| && units == UnitsBefore(normalize, entries, |entries|) && |board| == |units|
    requires forall u: nat :: u < |units| ==> board[u] == Floored(Similarity(q, units[u].grams), minScore)
    requires IsBest(EntriesOf(units), board, i, UpTo(|units|), best)
    ensures best.Some? ==> && IsNotable(entries[i]) && minScore <= best.value
                           && exists t :: t in UnitTexts(entries[i]) && TextScores(normalize, q)(t) == best.value
  {
    if best.Some? {
      var u :| u in UpTo(|units|) && ScoreFor(EntriesOf(units), board, i, u) == best;
      UnitsAre(normalize, entries, |entries|, units[u]);
      UnitHasText(normalize, UnitTexts(entries[i]), units[u], q);
    }
  }

  lemma UnitHasText(normalize: Normalizer, texts: seq<string>, u: Unit, q: set<string>)
    requires OfSomeText(normalize, texts, u)
    ensures exists t :: t in texts && TextScores(normalize, q)(t) == Similarity(q, u.grams)
  {
    var k :| 0 <= k < |texts| && u.grams == GramSet(normalize(texts[k]));
    assert texts[k] in texts && TextScores(normalize, q)(texts[k]) == Similarity(q, u.grams);
  }

  lemma TextIsBeaten(normalize: Normalizer, entries: seq<Entry>, units: seq<Unit>, q: set<string>, minScore: real,
                     i: nat,
                     board: seq<Option<real>>, best: Option<real>, t: string)
    requires i < |entries| && units == UnitsBefore(normalize, entries, |entries|) && |board| == |units|
    requires forall u: nat :: u < |units| ==> board[u] == Floored(Similarity(q, units[u].grams), minScore)
    requires IsBest(EntriesOf(units), board, i, UpTo(|units|), best)
    requires IsNotable(entries[i]) && t in UnitTexts(entries[i])
    requires 0.0 < minScore <= TextScores(normalize, q)(t)
    ensures best.Some? && TextScores(normalize, q)(t) <= best.value
  {
    var unit := Unit(i, GramSet(normalize(t)));
    assert unit.grams != {};
    UnitsAre(normalize, entries, |entries|, unit);
    var u :| 0 <= u < |units| && units[u] == unit;
    assert UpTo(|units|)[u] == u;
    assert ScoreFor(EntriesOf(units), board, i, u) == board[u] == Some(TextScores(normalize, q)(t));
  }

  /** When the stamp no longer fits 32 bits a unit that shares two trigrams or more scores too low. */
  lemma StaleStampsScoreLower(shared: nat, querySize: nat, size: nat)
    requires 2 <= shared <= querySize && shared <= size
    ensures ScoreOf(Counted(shared, true), querySize, size, 0.0).Some?
    ensures ScoreOf(Counted(shared, false), querySize, size, 0.0).Some?
    ensures ScoreOf(Counted(shared, false), querySize, size, 0.0).value
            < ScoreOf(Counted(shared, true), querySize, size, 0.0).value
  {
    var total := (querySize + size) as real;
    var s := shared as real;
    assert 1.0 / (total - 1.0) < s / (total - s) by {
      assert 1.0 * (total - s) < s * (total - 1.0);
      CrossLess(1.0, total - 1.0, s, total - s);
    }
  }

  lemma CrossLess(a: real, b: real, c: real, d: real)
    requires 0.0 < b && 0.0 < d && a * d < c * b
    ensures a / b < c / d
  {
    var x, y := a / b, c / d;
    assert a == x * b && c == y * d;
    assert x * (b * d) < y * (b * d);
  }
}
