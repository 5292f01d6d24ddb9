/** The fuzzy search: postings, stamped counters, best unit of each entry, and the scan it must agree with. */
module UniverseSearch {
  import opened Sorting
  import opened UniverseEntries
  import opened UniverseWords
  import opened UniverseTrigrams

  const MAX_STAMP: int := 0x7fff_ffff
  const MAX_SIZE: nat := 0xffff

  /** What a 32-bit signed array keeps of a number. */
  function ToInt32(n: int): int {
    var low := n % 0x1_0000_0000;
    if low <= MAX_STAMP then low else low - 0x1_0000_0000
  }

  /** What the 16-bit table of sizes keeps. */
  function StoredSize(n: nat): nat {
    if n < MAX_SIZE then n else MAX_SIZE
  }

  // ---------------------------------------------------------------- building the units

  /** Offering a list in two goes. */
  lemma {:induction false} AddAllConcat(texts: seq<string>, xs: seq<string>, ys: seq<string>)
    ensures AddAll(texts, xs + ys) == AddAll(AddAll(texts, xs), ys)
  {
    if ys == [] {
      assert xs + ys == xs;
    } else {
      var n := |ys| - 1;
      AddAllConcat(texts, xs, ys[..n]);
      assert (xs + ys)[..|xs + ys| - 1] == xs + ys[..n];
    }
  }

  lemma AddOne(texts: seq<string>, x: string)
    ensures AddAll(texts, [x]) == AddText(texts, x)
  {
    assert [x][..0] == [];
  }

  method OfferAll(texts0: seq<string>, offered: seq<string>, minLength: nat) returns (texts: seq<string>)
    ensures texts == AddAll(texts0, Filter(offered, (w: string) => |w| >= minLength))
  {
    texts := texts0;
    var long := (w: string) => |w| >= minLength;
    assert offered[..0] == [];
    for k := 0 to |offered|
      invariant texts == AddAll(texts0, Filter(offered[..k], long))
    {
      assert offered[..k + 1][..k] == offered[..k];
      if |offered[k]| >= minLength {
        var kept := Filter(offered[..k], long);
        assert (kept + [offered[k]])[..|kept|] == kept;
        texts := AddText(texts, offered[k]);
      }
    }
    assert offered[..|offered|] == offered;
  }

  method OfferTexts(e: Entry) returns (texts: seq<string>)
    ensures texts == UnitTexts(e)
  {
    texts := AddText([], e.upperTicker);
    texts := AddText(texts, e.upperCode);
    AddOne([], e.upperTicker);
    AddOne(AddAll([], [e.upperTicker]), e.upperCode);
    AddAllConcat([], [e.upperTicker], [e.upperCode]);
    ghost var front := [e.upperTicker] + [e.upperCode];
    assert front == [e.upperTicker, e.upperCode];
    texts := OfferAll(texts, e.upperAliases, 0);
    FilterAll(e.upperAliases, (w: string) => |w| >= 0);
    AddAllConcat([], front, e.upperAliases);
    front := front + e.upperAliases;
    if |e.nameWords| > 0 {
      texts := AddText(texts, Joined(e.nameWords));
      AddOne(AddAll([], front), Joined(e.nameWords));
      AddAllConcat([], front, [Joined(e.nameWords)]);
      front := front + [Joined(e.nameWords)];
      if |e.nameWords| > 1 {
        texts := OfferAll(texts, e.nameWords, WORD_KEY_LENGTH);
        var long := Filter(e.nameWords, (w: string) => |w| >= WORD_KEY_LENGTH);
        AddAllConcat([], front, long);
        assert Candidates(e) == front + long;
      } else {
        assert Candidates(e) == front + [];
        assert front + [] == front;
      }
    } else {
      assert Candidates(e) == front + [] + [];
      assert front + [] + [] == front;
    }
  }

  function HasGram(units: seq<Unit>): (nat, string) -> bool {
    (u: nat, g: string) => u < |units| && g in units[u].grams
  }

  function Push(b: Buckets, key: string, i: nat): Buckets {
    b[key := Get(b, key) + [i]]
  }

  function Among(grams: seq<string>): string -> bool {
    (g: string) => g in grams
  }

  /** A new unit filed under each of its trigrams. */
  method FileUnit(b0: Buckets, ghost units: seq<Unit>, unit: nat, grams: seq<string>) returns (b: Buckets)
    requires unit + 1 == |units| && Distinct(grams) && Elements(grams) == units[unit].grams
    requires Holds(b0, HasGram(units[..unit]), unit)
    ensures Holds(b, HasGram(units), unit + 1)
  {
    b := b0;
    ghost var before := HasGram(units[..unit]);
    FilingStarts(b, before, unit, Among(grams[..0]));
    for k := 0 to |grams|
      invariant HoldsPartly(b, before, unit, Among(grams[..k]))
    {
      assert PartKey(b, before, unit, Among(grams[..k]), grams[k]);
      assert grams[k] !in grams[..k];
      assert grams[..k + 1] == grams[..k] + [grams[k]];
      FileOne(b, before, unit, Among(grams[..k]), Among(grams[..k + 1]), grams[k]);
      assert AddTo(b, grams[k], unit) == Push(b, grams[k], unit);
      b := Push(b, grams[k], unit);
    }
    assert grams[..|grams|] == grams;
    FilingEnds(b, units, unit, grams);
  }

  lemma FilingStarts(b: Buckets, has: (nat, string) -> bool, n: nat, none: string -> bool)
    requires Holds(b, has, n) && forall g: string :: !none(g)
    ensures HoldsPartly(b, has, n, none)
  {
    forall k: string
      ensures PartKey(b, has, n, none, k)
    {
      assert HoldsKey(b, has, n, k);
    }
  }

  lemma FilingEnds(b: Buckets, units: seq<Unit>, unit: nat, grams: seq<string>)
    requires unit + 1 == |units| && Elements(grams) == units[unit].grams
    requires HoldsPartly(b, HasGram(units[..unit]), unit, Among(grams))
    ensures Holds(b, HasGram(units), unit + 1)
  {
    var next := unit + 1;
    forall k: string
      ensures HoldsKey(b, HasGram(units), next, k)
    {
      assert PartKey(b, HasGram(units[..unit]), unit, Among(grams), k);
      assert k in grams <==> k in units[unit].grams;
    }
  }

  /** The parallel tables say, unit by unit, whose it is and how large. */
  ghost predicate Tables(units: seq<Unit>, unitEntry: seq<nat>, unitSize: seq<nat>) {
    && |unitEntry| == |unitSize| == |units|
    && (forall u :: 0 <= u < |units| ==> unitEntry[u] == units[u].entry)
    && (forall u :: 0 <= u < |units| ==> unitSize[u] == StoredSize(|units[u].grams|))
  }

  /** One text of an entry becomes a unit, unless it has no trigrams. */
  method IndexText(normalize: Normalizer, i: nat, text: string, unitEntry0: seq<nat>, unitSize0: seq<nat>,
                   postings0: Buckets, ghost units0: seq<Unit>)
    returns (unitEntry: seq<nat>, unitSize: seq<nat>, postings: Buckets)
    requires Tables(units0, unitEntry0, unitSize0) && Holds(postings0, HasGram(units0), |units0|)
    ensures var units := units0 + UnitOf(normalize, i, text);
            Tables(units, unitEntry, unitSize) && Holds(postings, HasGram(units), |units|)
  {
    unitEntry, unitSize, postings := unitEntry0, unitSize0, postings0;
    var grams := TrigramsOf(normalize(text));
    if |grams| == 0 {
      assert Elements(grams) == {};
      assert units0 + [] == units0;
    } else {
      assert grams[0] in Elements(grams);
      ghost var units := units0 + [Unit(i, GramSet(normalize(text)))];
      assert units[..|units0|] == units0;
      postings := FileUnit(postings, units, |unitEntry|, grams);
      unitEntry, unitSize := unitEntry + [i], unitSize + [StoredSize(|grams|)];
    }
  }

  method IndexEntry(normalize: Normalizer, i: nat, e: Entry, unitEntry0: seq<nat>, unitSize0: seq<nat>,
                    postings0: Buckets, ghost units0: seq<Unit>)
    returns (unitEntry: seq<nat>, unitSize: seq<nat>, postings: Buckets)
    requires Tables(units0, unitEntry0, unitSize0) && Holds(postings0, HasGram(units0), |units0|)
    ensures var units := units0 + UnitsOfTexts(normalize, i, UnitTexts(e));
            Tables(units, unitEntry, unitSize) && Holds(postings, HasGram(units), |units|)
  {
    unitEntry, unitSize, postings := unitEntry0, unitSize0, postings0;
    var texts := OfferTexts(e);
    ghost var units := units0;
    assert texts[..0] == [] && units0 + [] == units0;
    for k := 0 to |texts|
      invariant units == units0 + UnitsOfTexts(normalize, i, texts[..k])
      invariant Tables(units, unitEntry, unitSize) && Holds(postings, HasGram(units), |units|)
    {
      NextText(normalize, i, texts, k, units0);
      unitEntry, unitSize, postings := IndexText(normalize, i, texts[k], unitEntry, unitSize, postings, units);
      units := units + UnitOf(normalize, i, texts[k]);
    }
    assert texts[..|texts|] == texts;
  }

  lemma NextText(normalize: Normalizer, i: nat, texts: seq<string>, k: nat, units: seq<Unit>)
    requires k < |texts|
    ensures units + UnitsOfTexts(normalize, i, texts[..k + 1])
            == units + UnitsOfTexts(normalize, i, texts[..k]) + UnitOf(normalize, i, texts[k])
  {
    assert texts[..k + 1][..k] == texts[..k];
  }

  method BuildUnits(normalize: Normalizer, entries: seq<Entry>)
    returns (unitEntry: seq<nat>, unitSize: seq<nat>, postings: Buckets)
    ensures var units := UnitsBefore(normalize, entries, |entries|);
            Tables(units, unitEntry, unitSize) && Holds(postings, HasGram(units), |units|)
  {
    unitEntry, unitSize, postings := [], [], map[];
    assert forall key: string :: HoldsKey(postings, HasGram([]), 0, key);
    for i := 0 to |entries|
      invariant Tables(UnitsBefore(normalize, entries, i), unitEntry, unitSize)
      invariant Holds(postings, HasGram(UnitsBefore(normalize, entries, i)), |unitEntry|)
    {
      ghost var units := UnitsBefore(normalize, entries, i);
      if IsNotable(entries[i]) {
        unitEntry, unitSize, postings := IndexEntry(normalize, i, entries[i], unitEntry, unitSize, postings, units);
      } else {
        assert units + [] == units;
      }
    }
  }

  // ---------------------------------------------------------------- stamped counters

  /** What a counter says of `shared` trigrams: once the stamp no longer fits 32 bits, never more than one. */
  function Counted(shared: nat, exact: bool): nat {
    if exact || shared == 0 then shared else 1
  }

  predicate Stamped(stamp: seq<int>, gen: int) {
    forall u :: 0 <= u < |stamp| ==> stamp[u] <= MAX_STAMP && stamp[u] <= gen
  }

  ghost predicate Tallied(count: seq<int>, stamp: seq<int>, gen: int, touched: seq<nat>, seen: seq<nat>) {
    && |count| == |stamp| == |seen|
    && Stamped(stamp, gen)
    && (forall u :: u in touched ==> u < |seen|)
    && (forall u: nat :: u < |seen| ==> TalliedAt(count, stamp, gen, touched, seen, u))
  }

  ghost predicate TalliedAt(count: seq<int>, stamp: seq<int>, gen: int, touched: seq<nat>, seen: seq<nat>, u: nat)
    requires |count| == |stamp| == |seen| && u < |seen|
  {
    && (u in touched <==> seen[u] > 0)
    && (gen <= MAX_STAMP ==> (stamp[u] == gen <==> seen[u] > 0))
    && (seen[u] > 0 ==> count[u] == Counted(seen[u], gen <= MAX_STAMP))
  }

  /** How often each unit was met, after the first `k` of a posting. */
  function Bumped(seen: seq<nat>, posting: seq<nat>): (r: seq<nat>)
    ensures |r| == |seen|
  {
    seq(|seen|, u requires 0 <= u < |seen| => if u in posting then seen[u] + 1 else seen[u])
  }

  method CountPosting(posting: seq<nat>, gen: int, unitCount: array<int>, unitStamp: array<int>,
                      touched0: seq<nat>, ghost seen: seq<nat>)
    returns (touched: seq<nat>)
    requires unitCount != unitStamp && 0 < gen
    requires Tallied(unitCount[..], unitStamp[..], gen, touched0, seen)
    requires Distinct(posting) && forall u :: u in posting ==> u < |seen|
    modifies unitCount, unitStamp
    ensures Tallied(unitCount[..], unitStamp[..], gen, touched, Bumped(seen, posting))
  {
    touched := touched0;
    assert Bumped(seen, posting[..0]) == seen;
    for k := 0 to |posting|
      invariant Tallied(unitCount[..], unitStamp[..], gen, touched, Bumped(seen, posting[..k]))
    {
      var unit := posting[k];
      assert unit in posting;
      ghost var count, stamp, was := unitCount[..], unitStamp[..], touched;
      assert posting[..k + 1] == posting[..k] + [unit];
      assert TalliedAt(count, stamp, gen, touched, Bumped(seen, posting[..k]), unit);
      if unitStamp[unit] == gen {
        unitCount[unit] := unitCount[unit] + 1;
      } else {
        unitStamp[unit] := ToInt32(gen);
        unitCount[unit] := 1;
        touched := touched + [unit];
      }
      TallyStep(count, stamp, gen, was, Bumped(seen, posting[..k]), unit,
                unitCount[..], unitStamp[..], touched, Bumped(seen, posting[..k + 1]));
    }
    assert posting[..|posting|] == posting;
  }

  lemma TallyStep(count: seq<int>, stamp: seq<int>, gen: int, touched: seq<nat>, seen: seq<nat>, unit: nat,
                  count1: seq<int>, stamp1: seq<int>, touched1: seq<nat>, seen1: seq<nat>)
    requires Tallied(count, stamp, gen, touched, seen) && unit < |seen| && 0 < gen
    requires seen1 == seen[unit := seen[unit] + 1]
    requires if stamp[unit] == gen then count1 == count[unit := count[unit] + 1] && stamp1 == stamp
        && touched1 == touched
             else count1 == count[unit := 1] && stamp1 == stamp[unit := ToInt32(gen)] && touched1 == touched + [unit]
    ensures Tallied(count1, stamp1, gen, touched1, seen1)
  {
    assert TalliedAt(count, stamp, gen, touched, seen, unit);
    forall u: nat | u < |seen1|
      ensures TalliedAt(count1, stamp1, gen, touched1, seen1, u)
    {
      assert TalliedAt(count, stamp, gen, touched, seen, u);
    }
  }

  /** How many of the query's first trigrams each unit has. */
  function Met(units: seq<Unit>, qt: seq<string>): (r: seq<nat>)
    ensures |r| == |units|
  {
    seq(|units|, u requires 0 <= u < |units| => Shared(Elements(qt), units[u]))
  }

  function Shared(q: set<string>, u: Unit): nat {
    |q * u.grams|
  }

  lemma MetNext(units: seq<Unit>, qt: seq<string>, gram: string, posting: seq<nat>)
    requires gram !in qt
    requires forall u: nat :: u in posting <==> u < |units| && gram in units[u].grams
    ensures Met(units, qt + [gram]) == Bumped(Met(units, qt), posting)
  {
    var q := Elements(qt);
    assert Elements(qt + [gram]) == q + {gram};
    forall u: nat | u < |units|
      ensures Met(units, qt + [gram])[u] == Bumped(Met(units, qt), posting)[u]
    {
      if gram in units[u].grams {
        assert (q + {gram}) * units[u].grams == q * units[u].grams + {gram};
      } else {
        assert (q + {gram}) * units[u].grams == q * units[u].grams;
      }
    }
  }

  /** Every posting of the query's trigrams counted: the counters say how much each unit shares. */
  method CountAll(qt: seq<string>, postings: Buckets, gen: int, unitCount: array<int>, unitStamp: array<int>,
                  ghost units: seq<Unit>)
    returns (touched: seq<nat>)
    requires unitCount != unitStamp && unitCount.Length == unitStamp.Length == |units|
    requires 0 < gen && Stamped(unitStamp[..], gen - 1)
    requires Distinct(qt) && Holds(postings, HasGram(units), |units|)
    modifies unitCount, unitStamp
    ensures Tallied(unitCount[..], unitStamp[..], gen, touched, Met(units, qt))
  {
    touched := [];
    assert Met(units, qt[..0]) == seq(|units|, _ => 0) by {
      assert Elements(qt[..0]) == {};
      assert forall u: nat :: u < |units| ==> {} * units[u].grams == {};
    }
    for k := 0 to |qt|
      invariant Tallied(unitCount[..], unitStamp[..], gen, touched, Met(units, qt[..k]))
    {
      assert HoldsKey(postings, HasGram(units), |units|, qt[k]);
      assert qt[..k + 1] == qt[..k] + [qt[k]];
      MetNext(units, qt[..k], qt[k], Get(postings, qt[k]));
      touched := CountPosting(Get(postings, qt[k]), gen, unitCount, unitStamp, touched, Met(units, qt[..k]));
    }
    assert qt[..|qt|] == qt;
  }
}
