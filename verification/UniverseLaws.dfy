/**
 * What the lookups of the index answer, said of the entries' own fields: which entries, in what order, on which
 * texts and trigrams.
 */
module UniverseLaws {
  import opened Util
  import opened Sorting
  import opened UniverseEntries
  import opened UniverseTrigrams
  import opened UniverseWords
  import opened UniverseSearch
  import opened UniverseHits
  import opened UniverseIndex

  // ---------------------------------------------------------------- the order of answers

  /** The heavier entry first; of equal weights the one whose primary text is less; of equal texts the earlier. */
  lemma ImportanceIs(entries: seq<Entry>, a: nat, b: nat)
    requires a < |entries| && b < |entries|
    ensures entries[a].weight > entries[b].weight ==> MoreImportant(entries, a, b)
    ensures entries[a].weight == entries[b].weight && Less(entries[a].primary, entries[b].primary)
        ==> MoreImportant(entries, a, b)
    ensures entries[a].weight == entries[b].weight && entries[a].primary == entries[b].primary && a < b
        ==> MoreImportant(entries, a, b)
    ensures MoreImportant(entries, a, b) ==> !MoreImportant(entries, b, a)
  {
    ImportanceTotal(entries, a, b);
    if MoreImportant(entries, a, b) && MoreImportant(entries, b, a) {
      ImportanceTransitive(entries, a, b, a);
      ImportanceTotal(entries, a, a);
    }
  }

  /** An entry is notable when it is no instrument, or weighs at least two. */
  predicate Counts(e: Entry) {
    e.kind in {FunctionCode, Person, Topic} || e.weight >= 2.0
  }

  /** The tickers that begin with a text: those entries, each once, by ticker and then by importance. */
  lemma TickersAnswered(entries: seq<Entry>, q: string)
    requires q != ""
    ensures var r := TickerScan(entries, q);
            && Distinct(r)
            && (forall i: nat :: i in r <==> i < |entries| && q <= entries[i].upperTicker)
            && forall m, n :: 0 <= m < n < |r| ==>
                 && r[m] < |entries| && r[n] < |entries|
                 && !Less(entries[r[n]].upperTicker, entries[r[m]].upperTicker)
                 && (entries[r[m]].upperTicker == entries[r[n]].upperTicker ==> MoreImportant(entries, r[m], r[n]))
  {
    var r := TickerScan(entries, q);
    TickerScanIs(entries, q);
    TickerIsStrict(entries);
    forall m, n | 0 <= m < n < |r|
      ensures r[m] != r[n] && r[m] in r && r[n] in r
      ensures !Less(TickerAt(entries, r[n]), TickerAt(entries, r[m]))
      ensures TickerAt(entries, r[m]) == TickerAt(entries, r[n]) ==> MoreImportant(entries, r[m], r[n])
    {
      assert ByTicker(entries)(r[m], r[n]);
      LessIsTotal(TickerAt(entries, r[m]), TickerAt(entries, r[n]));
    }
  }

  /** The entries with a name word that begins with a text, the notable ones alone below three characters. */
  lemma WordsAnswered(entries: seq<Entry>, q: string)
    ensures var r := WordScan(entries, q);
            && Distinct(r) && Sorted(ByImportance(entries), r)
            && forall i: nat :: i in r <==>
                 && i < |entries| && (|q| >= 3 || Counts(entries[i]))
                 && exists k :: 0 <= k < |entries[i].nameWords| && q <= entries[i].nameWords[k]
  {
    var p := (i: nat) => AnswersWord(entries, i, q);
    var all := Filter(UpTo(|entries|), p);
    ScanDistinct(|entries|, p);
    ImportanceIsStrict(entries);
    SortSorts(ByImportance(entries), all);
    SortedIsDistinct(ByImportance(entries), WordScan(entries, q));
    forall i: nat
      ensures i in WordScan(entries, q) <==> i < |entries| && p(i)
    {
      SortHas(ByImportance(entries), all, i);
      FilterHas(UpTo(|entries|), p, i);
      assert i < |entries| ==> UpTo(|entries|)[i] == i;
    }
  }

  /** A cap takes the first answers, and a negative one or none takes all. */
  lemma CappedIs<T>(xs: seq<T>, limit: int)
    ensures Capped(xs, None) == xs
    ensures Capped(xs, Some(limit)) <= xs
    ensures |Capped(xs, Some(limit))| == if 0 <= limit < |xs| then limit else |xs|
  {
  }

  // ---------------------------------------------------------------- trigrams and texts

  /** `t` is a slice of three characters of the word with two blanks before it and one behind. */
  ghost predicate IsSlice(w: string, t: string) {
    exists front: string, back: string :: |t| == 3 && Around(w, front, t, back)
  }

  predicate Around(w: string, front: string, t: string, back: string) {
    "  " + w + " " == front + t + back
  }

  lemma GramsAre(w: string, t: string)
    ensures t in WordGrams(w) <==> IsSlice(w, t)
  {
    var padded := "  " + w + " ";
    if t in WordGrams(w) {
      var i :| 0 <= i <= |w| && t == GramAt(w, i);
      assert padded == padded[..i] + t + padded[i + 3..];
      assert Around(w, padded[..i], t, padded[i + 3..]);
    }
    if front: string, back: string :| |t| == 3 && Around(w, front, t, back) {
      assert padded[|front|..|front| + 3] == t;
      assert t == GramAt(w, |front|);
    }
  }

  lemma {:induction false} GramsOfWords(words: seq<string>, t: string)
    ensures t in GramSet(words) <==> exists k :: 0 <= k < |words| && IsSlice(words[k], t)
  {
    if words != [] {
      var n := |words| - 1;
      GramsOfWords(words[..n], t);
      GramsAre(words[n], t);
      assert forall k :: 0 <= k < n ==> words[..n][k] == words[k];
    }
  }

  /** Words joined by one space each. */
  lemma {:induction false} JoinedWith(words: seq<string>, more: seq<string>)
    requires words != [] && more != []
    ensures Joined([words[0]]) == words[0]
    ensures Joined(words + more) == Joined(words) + " " + Joined(more)
  {
    var n := |more| - 1;
    assert (words + more)[..|words + more| - 1] == words + more[..n];
    if n == 0 {
      assert words + more[..n] == words;
    } else {
      JoinedWith(words, more[..n]);
    }
  }

  /** The texts that are offered for an entry. */
  lemma OfferedAre(e: Entry, t: string)
    ensures t in Candidates(e) <==>
              || t == e.upperTicker || t == e.upperCode || t in e.upperAliases
              || (e.nameWords != [] && t == Joined(e.nameWords))
              || (|e.nameWords| > 1 && t in e.nameWords && |t| >= 3)
    ensures |Candidates(e)| > 1 && Candidates(e)[..2] == [e.upperTicker, e.upperCode]
  {
    FilterHas(e.nameWords, (w: string) => |w| >= WORD_KEY_LENGTH, t);
  }

  /** The texts as offered, without empty ones and repetitions. */
  function NoRepeats(offered: seq<string>): seq<string> {
    if offered == [] then []
    else
      var front, last := NoRepeats(offered[..|offered| - 1]), offered[|offered| - 1];
      if last == "" || last in offered[..|offered| - 1] then front else front + [last]
  }

  lemma {:induction false} NoRepeatsHas(offered: seq<string>, t: string)
    ensures t in NoRepeats(offered) <==> t in offered && t != ""
  {
    if offered != [] {
      var n := |offered| - 1;
      NoRepeatsHas(offered[..n], t);
      assert offered == offered[..n] + [offered[n]];
    }
  }

  /** An entry is matched on the first eight different texts offered. */
  lemma {:induction false} FirstEight(offered: seq<string>)
    ensures var all := NoRepeats(offered); AddAll([], offered) == if |all| <= 8 then all else all[..8]
  {
    if offered != [] {
      var n := |offered| - 1;
      FirstEight(offered[..n]);
      NoRepeatsHas(offered[..n], offered[n]);
    }
  }

  // ---------------------------------------------------------------- widths

  /** A stamp is stored in 32 bits with a sign, congruent to what was written; a size in 16, at its greatest at most. */
  lemma StoredWidths(x: nat)
    ensures -0x8000_0000 <= ToInt32(x) < 0x8000_0000 && (ToInt32(x) - x) % 0x1_0000_0000 == 0
    ensures StoredSize(x) == if x < 0x1_0000 then x else 0xffff
  {
    var low, q := x % 0x1_0000_0000, x / 0x1_0000_0000;
    assert x == low + 0x1_0000_0000 * q;
    WholeTurns(ToInt32(x) - x, if low < 0x8000_0000 then -q else -q - 1);
  }

  lemma WholeTurns(x: int, q: int)
    requires x == 0x1_0000_0000 * q
    ensures x % 0x1_0000_0000 == 0
  {
  }

  // ---------------------------------------------------------------- hits

  /** A limit keeps that many of the first hits, and none when it is not positive. */
  lemma TopHitsAre(hits: seq<Hit>, limit: int)
    ensures TopHits(hits, limit) <= hits
    ensures |TopHits(hits, limit)| == if limit < 0 then 0 else if limit < |hits| then limit else |hits|
  {
  }

  /** The higher score first, and of equal scores the more important entry. */
  lemma HitsInOrder(entries: seq<Entry>, hits: seq<Hit>, m: nat, n: nat)
    requires Sorted(ByScore(entries), hits) && m < n < |hits|
    ensures hits[m].score >= hits[n].score
    ensures hits[m].score == hits[n].score ==> MoreImportant(entries, hits[m].entry, hits[n].entry)
  {
    assert ByScore(entries)(hits[m], hits[n]);
  }
}
