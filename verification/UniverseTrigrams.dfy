/** Trigrams, Jaccard similarity, and the text units a fuzzy query is scored against. */
module UniverseTrigrams {
  import opened Util
  import opened Sorting
  import opened UniverseEntries

  // ---------------------------------------------------------------- trigrams

  /** The word padded with two leading blanks and one trailing blank. */
  function Padded(w: string): (r: string)
    ensures |r| == |w| + 3
  {
    "  " + w + " "
  }

  /** Every three-character slice of a padded word. */
  function WordGrams(w: string): set<string> {
    set i | 0 <= i <= |w| :: GramAt(w, i)
  }

  function GramAt(w: string, i: int): string
    requires 0 <= i <= |w|
  {
    Padded(w)[i..i + 3]
  }

  function GramSet(words: seq<string>): set<string> {
    if words == [] then {} else GramSet(words[..|words| - 1]) + WordGrams(words[|words| - 1])
  }

  function Elements<T(==)>(xs: seq<T>): set<T> {
    set x | x in xs
  }

  function Alphabetic(): (string, string) -> bool {
    (a: string, b: string) => Less(a, b)
  }

  lemma AlphabeticIsStrict()
    ensures StrictOrder(Alphabetic())
  {
    var lt := Alphabetic();
    forall a: string, b: string
      ensures !lt(a, a) && (a == b || lt(a, b) || lt(b, a))
    {
      LessIsTotal(a, b);
      LessIsTotal(a, a);
    }
    forall a: string, b: string, c: string | lt(a, b) && lt(b, c)
      ensures lt(a, c)
    {
      LessIsTransitive(a, b, c);
    }
  }

  lemma {:induction false} DistinctSize<T>(xs: seq<T>)
    requires Distinct(xs)
    ensures |Elements(xs)| == |xs|
  {
    if xs != [] {
      var n := |xs| - 1;
      DistinctSize(xs[..n]);
      assert xs == xs[..n] + [xs[n]];
      assert Elements(xs) == Elements(xs[..n]) + {xs[n]};
    }
  }

  lemma SortedIsDistinct<T(!new)>(lt: (T, T) -> bool, xs: seq<T>)
    requires StrictOrder(lt) && Sorted(lt, xs)
    ensures Distinct(xs)
  {
  }

  /** One word's trigrams joined to those already found. */
  method AddWordGrams(w: string, found0: seq<string>) returns (found: seq<string>)
    requires Distinct(found0)
    ensures Distinct(found) && Elements(found) == Elements(found0) + WordGrams(w)
  {
    found := found0;
    var padded := Padded(w);
    ghost var upTo: set<string> := {};
    for i := 0 to |w| + 1
      invariant Distinct(found) && Elements(found) == Elements(found0) + upTo
      invariant upTo == set k | 0 <= k < i :: GramAt(w, k)
    {
      var gram := padded[i..i + 3];
      if gram !in found {
        assert Elements(found + [gram]) == Elements(found) + {gram};
        found := found + [gram];
      } else {
        assert gram in Elements(found);
      }
      upTo := upTo + {GramAt(w, i)};
    }
    assert upTo == WordGrams(w);
  }

  /** The trigrams of some words: every one of them, once, in order. */
  method TrigramsOf(words: seq<string>) returns (grams: seq<string>)
    ensures Sorted(Alphabetic(), grams) && Distinct(grams)
    ensures Elements(grams) == GramSet(words) && |grams| == |GramSet(words)|
  {
    var found: seq<string> := [];
    for k := 0 to |words|
      invariant Distinct(found) && Elements(found) == GramSet(words[..k])
    {
      assert words[..k + 1][..k] == words[..k];
      found := AddWordGrams(words[k], found);
    }
    assert words[..|words|] == words;
    AlphabeticIsStrict();
    SortSorts(Alphabetic(), found);
    grams := Sort(Alphabetic(), found);
    SortedIsDistinct(Alphabetic(), grams);
    forall g: string
      ensures g in Elements(grams) <==> g in Elements(found)
    {
      SortHas(Alphabetic(), found, g);
    }
    DistinctSize(grams);
  }

  // ---------------------------------------------------------------- similarity

  /** The share of two sets that they have in common, nothing when either is empty. */
  function Similarity(a: set<string>, b: set<string>): (r: real)
    ensures 0.0 <= r <= 1.0
  {
    if a == {} || b == {} then 0.0
    else
      var inter, union := a * b, a + b;
      assert a <= union;
      SmallerSubset(inter, union);
      SmallerSubset(a, union);
      Ratio(|inter|, |union|)
  }

  function Ratio(n: nat, d: nat): (r: real)
    requires n <= d && 0 < d
    ensures 0.0 <= r <= 1.0
  {
    n as real / d as real
  }

  lemma {:induction false} SmallerSubset<T>(a: set<T>, b: set<T>)
    requires a <= b
    ensures |a| <= |b|
  {
    assert b == a + (b - a);
  }

  lemma UnionSize(a: set<string>, b: set<string>)
    ensures |a + b| == |a| + |b| - |a * b|
  {
  }

  /** What one pass over two sorted lists counts. */
  function Common(a: seq<string>, b: seq<string>): nat
    decreases |a| + |b|
  {
    if a == [] || b == [] then 0
    else if a[0] == b[0] then 1 + Common(a[1..], b[1..])
    else if Less(a[0], b[0]) then Common(a[1..], b)
    else Common(a, b[1..])
  }

  lemma HeadAndTail<T>(xs: seq<T>)
    requires xs != []
    ensures Elements(xs) == {xs[0]} + Elements(xs[1..])
  {
    assert xs == [xs[0]] + xs[1..];
  }

  lemma BelowAll(x: string, ys: seq<string>)
    requires Sorted(Alphabetic(), ys) && ys != [] && Less(x, ys[0])
    ensures x !in ys
  {
    forall k | 0 <= k < |ys|
      ensures x != ys[k]
    {
      if k > 0 { assert Alphabetic()(ys[0], ys[k]); }
      LessIsTransitive(x, ys[0], ys[k]);
      LessIsTotal(x, ys[k]);
    }
  }

  lemma HeadIsLeast(xs: seq<string>)
    requires Sorted(Alphabetic(), xs) && xs != []
    ensures xs[0] !in xs[1..] && Sorted(Alphabetic(), xs[1..])
  {
    forall k | 0 < k < |xs|
      ensures xs[0] != xs[k]
    {
      assert Alphabetic()(xs[0], xs[k]);
      LessIsTotal(xs[0], xs[k]);
    }
  }

  lemma SharedHeads(x: string, a: set<string>, b: set<string>)
    requires x !in a
    ensures |({x} + a) * ({x} + b)| == 1 + |a * b|
  {
    assert ({x} + a) * ({x} + b) == {x} + a * (b + {x});
    assert a * (b + {x}) == a * b;
  }

  lemma UnsharedHead(x: string, a: set<string>, b: set<string>)
    requires x !in b
    ensures ({x} + a) * b == a * b && b * ({x} + a) == b * a
  {
  }

  /** It counts what the lists share. */
  lemma {:induction false} CommonIsShared(a: seq<string>, b: seq<string>)
    requires Sorted(Alphabetic(), a) && Sorted(Alphabetic(), b)
    ensures Common(a, b) == |Elements(a) * Elements(b)|
    decreases |a| + |b|
  {
    if a == [] || b == [] {
      assert Elements(a) * Elements(b) == {};
    } else {
      HeadAndTail(a);
      HeadAndTail(b);
      HeadIsLeast(a);
      HeadIsLeast(b);
      LessIsTotal(a[0], b[0]);
      if a[0] == b[0] {
        CommonIsShared(a[1..], b[1..]);
        SharedHeads(a[0], Elements(a[1..]), Elements(b[1..]));
      } else if Less(a[0], b[0]) {
        BelowAll(a[0], b);
        CommonIsShared(a[1..], b);
        UnsharedHead(a[0], Elements(a[1..]), Elements(b));
      } else {
        BelowAll(b[0], a);
        CommonIsShared(a, b[1..]);
        UnsharedHead(b[0], Elements(b[1..]), Elements(a));
      }
    }
  }

  lemma CommonStep(a: seq<string>, b: seq<string>, i: nat, j: nat)
    requires i < |a| && j < |b|
    ensures Common(a[i..], b[j..])
            == if a[i] == b[j] then 1 + Common(a[i + 1..], b[j + 1..])
               else if Less(a[i], b[j]) then Common(a[i + 1..], b[j..])
               else Common(a[i..], b[j + 1..])
  {
    assert a[i..][1..] == a[i + 1..] && b[j..][1..] == b[j + 1..];
  }

  lemma SizesOfSorted(a: seq<string>, b: seq<string>, x: set<string>, y: set<string>)
    requires Sorted(Alphabetic(), a) && Sorted(Alphabetic(), b) && x == Elements(a) && y == Elements(b)
    ensures |x| == |a| && |y| == |b|
    ensures |x * y| == Common(a, b) <= |a| && |x + y| == |a| + |b| - Common(a, b)
  {
    AlphabeticIsStrict();
    SortedIsDistinct(Alphabetic(), a);
    SortedIsDistinct(Alphabetic(), b);
    DistinctSize(a);
    DistinctSize(b);
    CommonIsShared(a, b);
    UnionSize(x, y);
    SmallerSubset(x * y, x);
  }

  lemma SimilarityIs(x: set<string>, y: set<string>)
    requires x != {} && y != {}
    ensures |x * y| <= |x + y| && 0 < |x + y| && Similarity(x, y) == Ratio(|x * y|, |x + y|)
  {
    SmallerSubset(x * y, x + y);
    SmallerSubset(x, x + y);
  }

  lemma SimilarityOfSorted(a: seq<string>, b: seq<string>)
    requires Sorted(Alphabetic(), a) && Sorted(Alphabetic(), b) && a != [] && b != []
    ensures Common(a, b) <= |a| + |b| - Common(a, b) && 0 < |a| + |b| - Common(a, b)
    ensures Similarity(Elements(a), Elements(b)) == Ratio(Common(a, b), |a| + |b| - Common(a, b))
  {
    var x, y := Elements(a), Elements(b);
    assert a[0] in x && b[0] in y;
    SizesOfSorted(a, b, x, y);
    SimilarityIs(x, y);
  }

  /** Both lists are sorted, so one pass over them finds what they share. */
  method CountShared(a: seq<string>, b: seq<string>) returns (inter: nat)
    ensures inter == Common(a, b)
  {
    var i, j := 0, 0;
    inter := 0;
    assert a[0..] == a && b[0..] == b;
    while i < |a| && j < |b|
      invariant 0 <= i <= |a| && 0 <= j <= |b|
      invariant inter + Common(a[i..], b[j..]) == Common(a, b)
      decreases |a| - i + |b| - j
    {
      CommonStep(a, b, i, j);
      if a[i] == b[j] {
        inter := inter + 1;
        i := i + 1;
        j := j + 1;
      } else if Less(a[i], b[j]) {
        i := i + 1;
      } else {
        j := j + 1;
      }
    }
  }

  /** The share of two sorted lists that they have in common. */
  method Jaccard(a: seq<string>, b: seq<string>) returns (r: real)
    requires Sorted(Alphabetic(), a) && Sorted(Alphabetic(), b)
    ensures r == Similarity(Elements(a), Elements(b))
  {
    if |a| == 0 || |b| == 0 { return 0.0; }
    var inter := CountShared(a, b);
    SimilarityOfSorted(a, b);
    var union := |a| + |b| - inter;
    r := if union == 0 then 0.0 else Ratio(inter, union);
  }

  // ---------------------------------------------------------------- text units

  /** The texts an entry may be matched on, in the order they are offered. */
  function Candidates(e: Entry): seq<string> {
    [e.upperTicker, e.upperCode] + e.upperAliases
    + (if e.nameWords == [] then [] else [Joined(e.nameWords)])
    + (if |e.nameWords| > 1 then Filter(e.nameWords, (w: string) => |w| >= WORD_KEY_LENGTH) else [])
  }

  function Joined(words: seq<string>): string {
    if words == [] then ""
    else if |words| == 1 then words[0]
    else Joined(words[..|words| - 1]) + " " + words[|words| - 1]
  }

  /** One text offered: refused when empty, when already there, and when the entry has its share. */
  function AddText(texts: seq<string>, t: string): seq<string> {
    if t != "" && t !in texts && |texts| < MAX_UNITS_PER_ENTRY then texts + [t] else texts
  }

  function AddAll(texts: seq<string>, offered: seq<string>): seq<string> {
    if offered == [] then texts
    else AddText(AddAll(texts, offered[..|offered| - 1]), offered[|offered| - 1])
  }

  function UnitTexts(e: Entry): seq<string> {
    AddAll([], Candidates(e))
  }

  /** At most eight different texts, all of them offered; all that was offered when there is room. */
  lemma {:induction false} OfferedTexts(offered: seq<string>)
    ensures var texts := AddAll([], offered);
            && |texts| <= MAX_UNITS_PER_ENTRY && Distinct(texts)
            && (forall t :: t in texts ==> t in offered && t != "")
            && (|texts| < MAX_UNITS_PER_ENTRY ==> forall t :: t in offered && t != "" ==> t in texts)
  {
    if offered != [] {
      var n := |offered| - 1;
      OfferedTexts(offered[..n]);
      assert offered == offered[..n] + [offered[n]];
    }
  }

  /** The entry a unit belongs to and the trigrams of its text. */
  datatype Unit = Unit(entry: nat, grams: set<string>)

  type Normalizer = string -> seq<string>

  /** The unit of one text, unless the text has no trigrams. */
  function UnitOf(normalize: Normalizer, i: nat, text: string): seq<Unit> {
    var grams := GramSet(normalize(text));
    if grams == {} then [] else [Unit(i, grams)]
  }

  function UnitsOfTexts(normalize: Normalizer, i: nat, texts: seq<string>): seq<Unit> {
    if texts == [] then []
    else UnitsOfTexts(normalize, i, texts[..|texts| - 1]) + UnitOf(normalize, i, texts[|texts| - 1])
  }

  function UnitsOfEntry(normalize: Normalizer, i: nat, e: Entry): seq<Unit> {
    if IsNotable(e) then UnitsOfTexts(normalize, i, UnitTexts(e)) else []
  }

  function Gather<T>(parts: nat -> seq<T>, n: nat): seq<T> {
    if n == 0 then [] else Gather(parts, n - 1) + parts(n - 1)
  }

  lemma {:induction false} GatherHas<T>(parts: nat -> seq<T>, n: nat, x: T)
    ensures x in Gather(parts, n) <==> exists i :: 0 <= i < n && x in parts(i)
  {
    if n > 0 {
      GatherHas(parts, n - 1, x);
    }
  }

  function EntryUnits(normalize: Normalizer, entries: seq<Entry>): nat -> seq<Unit> {
    (i: nat) => if i < |entries| then UnitsOfEntry(normalize, i, entries[i]) else []
  }

  /** The units of the first `n` entries: the notable ones only. */
  function UnitsBefore(normalize: Normalizer, entries: seq<Entry>, n: nat): seq<Unit> {
    Gather(EntryUnits(normalize, entries), n)
  }

  /** The unit has the trigrams of one of the texts, and has some. */
  predicate OfSomeText(normalize: Normalizer, texts: seq<string>, u: Unit) {
    u.grams != {} && exists k :: 0 <= k < |texts| && u.grams == GramSet(normalize(texts[k]))
  }

  lemma {:induction false} UnitsOfTextsAre(normalize: Normalizer, i: nat, texts: seq<string>, u: Unit)
    ensures u in UnitsOfTexts(normalize, i, texts) <==> u.entry == i && OfSomeText(normalize, texts, u)
  {
    if texts != [] {
      var n := |texts| - 1;
      UnitsOfTextsAre(normalize, i, texts[..n], u);
      assert u in UnitOf(normalize, i, texts[n]) <==>
             u.entry == i && u.grams != {} && u.grams == GramSet(normalize(texts[n]));
      assert forall k :: 0 <= k < n ==> texts[..n][k] == texts[k];
    }
  }

  /** The unit belongs to a notable entry and has the trigrams of one of its texts. */
  predicate FitsEntry(normalize: Normalizer, e: Entry, u: Unit) {
    IsNotable(e) && OfSomeText(normalize, UnitTexts(e), u)
  }

  lemma UnitsOfEntryAre(normalize: Normalizer, i: nat, e: Entry, u: Unit)
    ensures u in UnitsOfEntry(normalize, i, e) <==> u.entry == i && FitsEntry(normalize, e, u)
  {
    UnitsOfTextsAre(normalize, i, UnitTexts(e), u);
  }

  /** The units are those of the notable entries' texts and no others. */
  lemma UnitsAre(normalize: Normalizer, entries: seq<Entry>, n: nat, u: Unit)
    requires n <= |entries|
    ensures u in UnitsBefore(normalize, entries, n) <==> u.entry < n && FitsEntry(normalize, entries[u.entry], u)
  {
    GatherHas(EntryUnits(normalize, entries), n, u);
    forall i: nat | i < n
      ensures u in EntryUnits(normalize, entries)(i) <==> u.entry == i && FitsEntry(normalize, entries[i], u)
    {
      UnitsOfEntryAre(normalize, i, entries[i], u);
    }
  }
}
