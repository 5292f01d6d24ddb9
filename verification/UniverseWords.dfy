/** The word buckets: how they are filled, frozen, and that filtering one is scanning every entry. */
module UniverseWords {
  import opened Sorting
  import opened UniverseEntries

  type Buckets = map<string, seq<nat>>

  function Get(b: Buckets, key: string): seq<nat> {
    if key in b then b[key] else []
  }

  function WordKey(w: string): string {
    if |w| <= WORD_KEY_LENGTH then w else w[..WORD_KEY_LENGTH]
  }

  /** `Set.add` on a bucket. */
  function AddTo(b: Buckets, key: string, i: nat): Buckets {
    if i in Get(b, key) then b else b[key := Get(b, key) + [i]]
  }

  /** Is `key` the three-character key of one of these words? */
  predicate HasKey(words: seq<string>, key: string) {
    exists k :: 0 <= k < |words| && WordKey(words[k]) == key
  }

  /** Is `key` a front of one or two characters of one of these words? */
  predicate HasShortKey(words: seq<string>, key: string) {
    1 <= |key| < WORD_KEY_LENGTH && WordStarts(words, key)
  }

  /** The buckets hold, for every key, exactly the indexes below `n` that `has` it, each once. */
  ghost predicate Holds(b: Buckets, has: (nat, string) -> bool, n: nat) {
    forall key: string :: HoldsKey(b, has, n, key)
  }

  ghost predicate HoldsKey(b: Buckets, has: (nat, string) -> bool, n: nat, key: string) {
    && Distinct(Get(b, key))
    && forall i: nat :: i in Get(b, key) <==> i < n && has(i, key)
  }

  /** Adding index `n` to the buckets of its own keys. */
  lemma AddToHolds(b: Buckets, key: string, i: nat)
    ensures forall k: string :: Get(AddTo(b, key, i), k)
                                == if k == key && i !in Get(b, key) then Get(b, key) + [i] else Get(b, k)
  {
  }

  function WordsAt(entries: seq<Entry>, i: nat): seq<string> {
    if i < |entries| then entries[i].nameWords else []
  }

  function HasWordKey(entries: seq<Entry>): (nat, string) -> bool {
    (i: nat, key: string) => HasKey(WordsAt(entries, i), key)
  }

  function HasShortWordKey(entries: seq<Entry>): (nat, string) -> bool {
    (i: nat, key: string) => i < |entries| && IsNotable(entries[i]) && HasShortKey(entries[i].nameWords, key)
  }

  /** The buckets with the entry's first words filed as well. */
  ghost predicate HoldsPartly(b: Buckets, has: (nat, string) -> bool, n: nat, hasSoFar: string -> bool) {
    forall key: string :: PartKey(b, has, n, hasSoFar, key)
  }

  ghost predicate PartKey(b: Buckets, has: (nat, string) -> bool, n: nat, hasSoFar: string -> bool, key: string) {
    && Distinct(Get(b, key))
    && forall i: nat :: i in Get(b, key) <==> (i < n && has(i, key)) || (i == n && hasSoFar(key))
  }

  lemma FileOne(b: Buckets, has: (nat, string) -> bool, n: nat, before: string -> bool, after: string -> bool,
                key: string)
    requires HoldsPartly(b, has, n, before)
    requires forall k: string :: after(k) <==> before(k) || k == key
    ensures HoldsPartly(AddTo(b, key, n), has, n, after)
  {
    AddToHolds(b, key, n);
    forall k: string
      ensures PartKey(AddTo(b, key, n), has, n, after, k)
    {
      assert PartKey(b, has, n, before, k);
    }
  }

  function KeysOf(words: seq<string>): string -> bool {
    (key: string) => HasKey(words, key)
  }

  function ShortKeysOf(words: seq<string>): string -> bool {
    (key: string) => HasShortKey(words, key)
  }

  method FileWords(b0: Buckets, entries: seq<Entry>, n: nat) returns (b: Buckets)
    requires n < |entries| && Holds(b0, HasWordKey(entries), n)
    ensures Holds(b, HasWordKey(entries), n + 1)
  {
    b := b0;
    var words, next := entries[n].nameWords, n + 1;
    forall k: string
      ensures PartKey(b, HasWordKey(entries), n, KeysOf(words[..0]), k)
    {
      assert HoldsKey(b, HasWordKey(entries), n, k);
    }
    for j := 0 to |words|
      invariant HoldsPartly(b, HasWordKey(entries), n, KeysOf(words[..j]))
    {
      forall k: string
        ensures HasKey(words[..j + 1], k) <==> HasKey(words[..j], k) || k == WordKey(words[j])
      {
        HasKeyNext(words, j, k);
      }
      FileOne(b, HasWordKey(entries), n, KeysOf(words[..j]),
              KeysOf(words[..j + 1]), WordKey(words[j]));
      b := AddTo(b, WordKey(words[j]), n);
    }
    assert words[..|words|] == words;
    forall k: string
      ensures HoldsKey(b, HasWordKey(entries), next, k)
    {
      assert PartKey(b, HasWordKey(entries), n, KeysOf(words[..|words|]), k);
    }
  }

  lemma HasKeyNext(words: seq<string>, j: nat, key: string)
    requires j < |words|
    ensures HasKey(words[..j + 1], key) <==> HasKey(words[..j], key) || key == WordKey(words[j])
  {
    if HasKey(words[..j], key) {
      var k :| 0 <= k < j && WordKey(words[..j][k]) == key;
      assert WordKey(words[..j + 1][k]) == key;
    }
    if key == WordKey(words[j]) {
      assert words[..j + 1][j] == words[j];
    }
    if HasKey(words[..j + 1], key) && key != WordKey(words[j]) {
      var k :| 0 <= k < j + 1 && WordKey(words[..j + 1][k]) == key;
      assert words[..j][k] == words[..j + 1][k];
    }
  }

  method FileShortWords(b0: Buckets, entries: seq<Entry>, n: nat) returns (b: Buckets)
    requires n < |entries| && Holds(b0, HasShortWordKey(entries), n)
    ensures Holds(b, HasShortWordKey(entries), n + 1)
  {
    b := b0;
    var words, next := entries[n].nameWords, n + 1;
    if !IsNotable(entries[n]) {
      forall k: string
        ensures HoldsKey(b, HasShortWordKey(entries), next, k)
      {
        assert HoldsKey(b, HasShortWordKey(entries), n, k);
      }
      return;
    }
    forall k: string
      ensures PartKey(b, HasShortWordKey(entries), n, ShortKeysOf(words[..0]), k)
    {
      assert HoldsKey(b, HasShortWordKey(entries), n, k);
    }
    for j := 0 to |words|
      invariant HoldsPartly(b, HasShortWordKey(entries), n, ShortKeysOf(words[..j]))
    {
      b := FileFronts(b, entries, n, words, j);
    }
    assert words[..|words|] == words;
    forall k: string
      ensures HoldsKey(b, HasShortWordKey(entries), next, k)
    {
      assert PartKey(b, HasShortWordKey(entries), n, ShortKeysOf(words[..|words|]), k);
    }
  }

  /** Keys of the words before `j`, or fronts shorter than `k` of word `j`. */
  predicate HasFront(words: seq<string>, j: nat, k: nat, key: string)
    requires j < |words|
  {
    HasShortKey(words[..j], key) || (1 <= |key| < k && StartsWith(words[j], key))
  }

  function FrontsOf(words: seq<string>, j: nat, k: nat): string -> bool
    requires j < |words|
  {
    (key: string) => HasFront(words, j, k, key)
  }

  /** The one- and two-character fronts of one word. */
  method FileFronts(b0: Buckets, entries: seq<Entry>, n: nat, words: seq<string>, j: nat) returns (b: Buckets)
    requires j < |words|
    requires HoldsPartly(b0, HasShortWordKey(entries), n, ShortKeysOf(words[..j]))
    ensures HoldsPartly(b, HasShortWordKey(entries), n, ShortKeysOf(words[..j + 1]))
  {
    b := b0;
    var word := words[j];
    var k := 1;
    forall key: string
      ensures PartKey(b, HasShortWordKey(entries), n, FrontsOf(words, j, 1), key)
    {
      assert PartKey(b, HasShortWordKey(entries), n, ShortKeysOf(words[..j]), key);
    }
    while k < WORD_KEY_LENGTH && k <= |word|
      invariant 1 <= k <= WORD_KEY_LENGTH && k <= |word| + 1
      invariant HoldsPartly(b, HasShortWordKey(entries), n, FrontsOf(words, j, k))
    {
      assert forall key: string :: |key| == k && StartsWith(word, key) <==> key == word[..k];
      FileOne(b, HasShortWordKey(entries), n, FrontsOf(words, j, k),
              FrontsOf(words, j, k + 1), word[..k]);
      b := AddTo(b, word[..k], n);
      k := k + 1;
    }
    var filed := ShortKeysOf(words[..j + 1]);
    forall key: string
      ensures PartKey(b, HasShortWordKey(entries), n, filed, key)
    {
      assert PartKey(b, HasShortWordKey(entries), n, FrontsOf(words, j, k), key);
      WordStartsNext(words, j, key);
    }
  }

  lemma WordStartsNext(words: seq<string>, j: nat, q: string)
    requires j < |words|
    ensures WordStarts(words[..j + 1], q) <==> WordStarts(words[..j], q) || StartsWith(words[j], q)
  {
    if WordStarts(words[..j], q) {
      var k :| 0 <= k < j && StartsWith(words[..j][k], q);
      assert StartsWith(words[..j + 1][k], q);
    }
    if StartsWith(words[j], q) {
      assert words[..j + 1][j] == words[j];
    }
    if WordStarts(words[..j + 1], q) && !StartsWith(words[j], q) {
      var k :| 0 <= k < j + 1 && StartsWith(words[..j + 1][k], q);
      assert words[..j][k] == words[..j + 1][k];
    }
  }

  method BuildBuckets(entries: seq<Entry>) returns (words: Buckets, shorts: Buckets)
    ensures Holds(words, HasWordKey(entries), |entries|)
    ensures Holds(shorts, HasShortWordKey(entries), |entries|)
  {
    words, shorts := map[], map[];
    assert forall key: string :: HoldsKey(words, HasWordKey(entries), 0, key);
    assert forall key: string :: HoldsKey(shorts, HasShortWordKey(entries), 0, key);
    for i := 0 to |entries|
      invariant Holds(words, HasWordKey(entries), i)
      invariant Holds(shorts, HasShortWordKey(entries), i)
    {
      words := FileWords(words, entries, i);
      shorts := FileShortWords(shorts, entries, i);
    }
  }

  /** Every bucket sorted, best first. */
  function Freeze(b: Buckets, entries: seq<Entry>): Buckets {
    map key | key in b :: Sort(ByImportance(entries), b[key])
  }

  /** A frozen bucket is the sorted scan of its predicate. */
  lemma FrozenBucket(b: Buckets, entries: seq<Entry>, has: (nat, string) -> bool, key: string)
    requires HoldsKey(b, has, |entries|, key)
    ensures Sorted(ByImportance(entries), Get(Freeze(b, entries), key))
    ensures forall i: nat :: i in Get(Freeze(b, entries), key) <==> i < |entries| && has(i, key)
  {
    ImportanceIsStrict(entries);
    SortSorts(ByImportance(entries), Get(b, key));
    assert Get(Freeze(b, entries), key) == Sort(ByImportance(entries), Get(b, key));
    forall i: nat
      ensures i in Get(Freeze(b, entries), key) <==> i < |entries| && has(i, key)
    {
      SortHas(ByImportance(entries), Get(b, key), i);
    }
  }

  lemma WordScanIs(entries: seq<Entry>, q: string)
    ensures Sorted(ByImportance(entries), WordScan(entries, q))
    ensures forall i: nat :: i in WordScan(entries, q) <==> AnswersWord(entries, i, q)
  {
    ImportanceIsStrict(entries);
    var p := (i: nat) => AnswersWord(entries, i, q);
    ScanDistinct(|entries|, p);
    SortSorts(ByImportance(entries), Filter(UpTo(|entries|), p));
    forall i: nat
      ensures i in WordScan(entries, q) <==> AnswersWord(entries, i, q)
    {
      SortHas(ByImportance(entries), Filter(UpTo(|entries|), p), i);
      FilterHas(UpTo(|entries|), p, i);
      assert i < |entries| ==> UpTo(|entries|)[i] == i;
    }
  }

  lemma ScanDistinct(n: nat, p: nat -> bool)
    ensures Distinct(Filter(UpTo(n), p))
  {
    var lt := (a: nat, b: nat) => a < b;
    FilterSorted(lt, UpTo(n), p);
  }

  /** Filtering the bucket of the query's key is the scan of every entry. */
  lemma BucketAnswers(entries: seq<Entry>, bucket: seq<nat>, q: string)
    requires Sorted(ByImportance(entries), bucket) && q != ""
    requires forall i: nat :: i in bucket <==>
               i < |entries| && (if |q| >= WORD_KEY_LENGTH then HasKey(WordsAt(entries, i), q[..WORD_KEY_LENGTH])
                                 else HasShortWordKey(entries)(i, q))
    ensures Filter(bucket, (i: nat) => WordStarts(WordsAt(entries, i), q)) == WordScan(entries, q)
  {
    var p := (i: nat) => WordStarts(WordsAt(entries, i), q);
    ImportanceIsStrict(entries);
    FilterSorted(ByImportance(entries), bucket, p);
    WordScanIs(entries, q);
    forall i: nat
      ensures i in Filter(bucket, p) <==> i in WordScan(entries, q)
    {
      FilterHas(bucket, p, i);
      if i < |entries| {
        KeyOfQuery(entries[i].nameWords, q);
      }
    }
    SortedIsUnique(ByImportance(entries), Filter(bucket, p), WordScan(entries, q));
  }

  /** A word that starts with a query of three characters or more has the query's key. */
  lemma KeyOfQuery(words: seq<string>, q: string)
    ensures |q| >= WORD_KEY_LENGTH && WordStarts(words, q) ==> HasKey(words, q[..WORD_KEY_LENGTH])
  {
    if |q| >= WORD_KEY_LENGTH && WordStarts(words, q) {
      var k :| 0 <= k < |words| && StartsWith(words[k], q);
      assert words[k][..WORD_KEY_LENGTH] == q[..WORD_KEY_LENGTH];
      assert WordKey(words[k]) == q[..WORD_KEY_LENGTH];
    }
  }
}
