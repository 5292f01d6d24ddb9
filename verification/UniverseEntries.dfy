/** The rows the index searches, their orders, and what each lookup must return: a scan of all of them. */
module UniverseEntries {
  import opened Util
  import opened Sorting

  datatype Kind = Instrument | FunctionCode | Person | Topic

  datatype Entry = Entry(
    kind: Kind, primary: string, upperTicker: string, upperCode: string, upperAliases: seq<string>,
    nameWords: seq<string>, weight: real)

  const WORD_KEY_LENGTH: nat := 3
  const NOTABLE_MIN_WEIGHT := 2.0
  const MAX_UNITS_PER_ENTRY: nat := 8

  predicate IsNotable(e: Entry) {
    e.kind != Instrument || e.weight >= NOTABLE_MIN_WEIGHT
  }

  predicate StartsWith(s: string, prefix: string) {
    prefix <= s
  }

  function UpTo(n: nat): (r: seq<nat>)
    ensures |r| == n && forall i :: 0 <= i < n ==> r[i] == i
  {
    seq(n, i => i)
  }

  function Capped<T>(xs: seq<T>, limit: Option<int>): seq<T> {
    if limit.Some? && 0 <= limit.value < |xs| then xs[..limit.value] else xs
  }

  // ---------------------------------------------------------------- orders

  function WeightAt(entries: seq<Entry>, i: nat): real {
    if i < |entries| then entries[i].weight else 0.0
  }

  function PrimaryAt(entries: seq<Entry>, i: nat): string {
    if i < |entries| then entries[i].primary else ""
  }

  function TickerAt(entries: seq<Entry>, i: nat): string {
    if i < |entries| then entries[i].upperTicker else ""
  }

  /** Weight descending, then the primary text, then the index. */
  predicate MoreImportant(entries: seq<Entry>, a: nat, b: nat) {
    var wa, wb, pa, pb := WeightAt(entries, a), WeightAt(entries, b), PrimaryAt(entries, a), PrimaryAt(entries, b);
    wa > wb || (wa == wb && (Less(pa, pb) || (pa == pb && a < b)))
  }

  function ByImportance(entries: seq<Entry>): (nat, nat) -> bool {
    (a: nat, b: nat) => MoreImportant(entries, a, b)
  }

  /** The ticker, then importance. */
  predicate TickerBefore(entries: seq<Entry>, a: nat, b: nat) {
    var ta, tb := TickerAt(entries, a), TickerAt(entries, b);
    Less(ta, tb) || (ta == tb && MoreImportant(entries, a, b))
  }

  function ByTicker(entries: seq<Entry>): (nat, nat) -> bool {
    (a: nat, b: nat) => TickerBefore(entries, a, b)
  }

  lemma ImportanceTransitive(entries: seq<Entry>, a: nat, b: nat, c: nat)
    requires MoreImportant(entries, a, b) && MoreImportant(entries, b, c)
    ensures MoreImportant(entries, a, c)
  {
    LessIsTransitive(PrimaryAt(entries, a), PrimaryAt(entries, b), PrimaryAt(entries, c));
  }

  lemma ImportanceTotal(entries: seq<Entry>, a: nat, b: nat)
    ensures a == b || MoreImportant(entries, a, b) || MoreImportant(entries, b, a)
    ensures !MoreImportant(entries, a, a)
  {
    LessIsTotal(PrimaryAt(entries, a), PrimaryAt(entries, b));
    LessIsTotal(PrimaryAt(entries, a), PrimaryAt(entries, a));
  }

  lemma ImportanceIsStrict(entries: seq<Entry>)
    ensures StrictOrder(ByImportance(entries))
  {
    var lt := ByImportance(entries);
    forall a: nat, b: nat
      ensures !lt(a, a) && (a == b || lt(a, b) || lt(b, a))
    {
      ImportanceTotal(entries, a, b);
    }
    forall a: nat, b: nat, c: nat | lt(a, b) && lt(b, c)
      ensures lt(a, c)
    {
      ImportanceTransitive(entries, a, b, c);
    }
  }

  lemma TickerTransitive(entries: seq<Entry>, a: nat, b: nat, c: nat)
    requires TickerBefore(entries, a, b) && TickerBefore(entries, b, c)
    ensures TickerBefore(entries, a, c)
  {
    LessIsTransitive(TickerAt(entries, a), TickerAt(entries, b), TickerAt(entries, c));
    if TickerAt(entries, a) == TickerAt(entries, b) == TickerAt(entries, c) {
      LessIsTotal(TickerAt(entries, a), TickerAt(entries, b));
      ImportanceTransitive(entries, a, b, c);
    }
  }

  lemma TickerIsStrict(entries: seq<Entry>)
    ensures StrictOrder(ByTicker(entries))
  {
    var lt := ByTicker(entries);
    forall a: nat, b: nat
      ensures !lt(a, a) && (a == b || lt(a, b) || lt(b, a))
    {
      LessIsTotal(TickerAt(entries, a), TickerAt(entries, b));
      LessIsTotal(TickerAt(entries, a), TickerAt(entries, a));
      ImportanceTotal(entries, a, b);
    }
    forall a: nat, b: nat, c: nat | lt(a, b) && lt(b, c)
      ensures lt(a, c)
    {
      TickerTransitive(entries, a, b, c);
    }
  }

  // ---------------------------------------------------------------- the scans

  /** Every entry whose ticker has the prefix, in ticker order. */
  function TickerScan(entries: seq<Entry>, q: string): seq<nat> {
    Sort(ByTicker(entries), Filter(UpTo(|entries|), i => TickerAt(entries, i) != ""
        && StartsWith(TickerAt(entries, i), q)))
  }

  predicate WordStarts(words: seq<string>, q: string) {
    exists k :: 0 <= k < |words| && StartsWith(words[k], q)
  }

  /** Does the entry answer a word query? Below three characters only notable entries do. */
  predicate AnswersWord(entries: seq<Entry>, i: nat, q: string) {
    i < |entries| && WordStarts(entries[i].nameWords, q) && (|q| >= WORD_KEY_LENGTH || IsNotable(entries[i]))
  }

  /** Every entry that answers, best first. */
  function WordScan(entries: seq<Entry>, q: string): seq<nat> {
    Sort(ByImportance(entries), Filter(UpTo(|entries|), i => AnswersWord(entries, i, q)))
  }

  // ---------------------------------------------------------------- sorted keys and prefixes

  predicate KeysSorted(keys: seq<string>) {
    forall i, j :: 0 <= i <= j < |keys| ==> !Less(keys[j], keys[i])
  }

  lemma {:induction false} PrefixNotLess(k: string, q: string)
    requires StartsWith(k, q)
    ensures !Less(k, q)
    decreases |q|
  {
    if q != "" {
      assert k[0] == q[0] && q[1..] <= k[1..];
      PrefixNotLess(k[1..], q[1..]);
    }
  }

  /** Past the block of keys with a prefix, no key has it: strings with a prefix are contiguous in order. */
  lemma {:induction false} PrefixBlock(a: string, b: string, q: string)
    requires !Less(a, q) && !StartsWith(a, q) && !Less(b, a)
    ensures !StartsWith(b, q)
    decreases |q|
  {
    if q != "" && StartsWith(b, q) {
      assert a != "" && b[0] == q[0];
      if a[0] == q[0] {
        assert q == [q[0]] + q[1..] && a == [a[0]] + a[1..];
        PrefixBlock(a[1..], b[1..], q[1..]);
      }
    }
  }

  /** First index whose key is at least the prefix. */
  method LowerBound(keys: seq<string>, prefix: string) returns (lo: nat)
    requires KeysSorted(keys)
    ensures lo <= |keys|
    ensures forall k :: 0 <= k < lo ==> Less(keys[k], prefix)
    ensures forall k :: lo <= k < |keys| ==> !Less(keys[k], prefix)
  {
    lo := 0;
    var hi := |keys|;
    while lo < hi
      invariant lo <= hi <= |keys|
      invariant forall k :: 0 <= k < lo ==> Less(keys[k], prefix)
      invariant forall k :: hi <= k < |keys| ==> !Less(keys[k], prefix)
    {
      var mid := (lo + hi) / 2;
      if Less(keys[mid], prefix) {
        forall k | 0 <= k < mid + 1
          ensures Less(keys[k], prefix)
        {
          LessIsTotal(keys[k], prefix);
          LessIsTotal(keys[k], keys[mid]);
          LessIsTransitive(keys[k], keys[mid], prefix);
        }
        lo := mid + 1;
      } else {
        forall k | mid <= k < |keys|
          ensures !Less(keys[k], prefix)
        {
          LessIsTotal(keys[k], keys[mid]);
          LessIsTransitive(keys[mid], keys[k], prefix);
        }
        hi := mid;
      }
    }
  }

  /** First index from `from` on whose key does not have the prefix. */
  method PrefixUpperBound(keys: seq<string>, prefix: string, from: nat) returns (lo: nat)
    requires KeysSorted(keys) && from <= |keys|
    requires forall k :: from <= k < |keys| ==> !Less(keys[k], prefix)
    ensures from <= lo <= |keys|
    ensures forall k :: from <= k < |keys| ==> (StartsWith(keys[k], prefix) <==> k < lo)
  {
    lo := from;
    var hi := |keys|;
    while lo < hi
      invariant from <= lo <= hi <= |keys|
      invariant forall k :: from <= k < lo ==> StartsWith(keys[k], prefix)
      invariant forall k :: hi <= k < |keys| ==> !StartsWith(keys[k], prefix)
    {
      var mid := (lo + hi) / 2;
      if StartsWith(keys[mid], prefix) {
        forall k | from <= k < mid + 1
          ensures StartsWith(keys[k], prefix)
        {
          if !StartsWith(keys[k], prefix) {
            PrefixBlock(keys[k], keys[mid], prefix);
          }
        }
        lo := mid + 1;
      } else {
        forall k | mid <= k < |keys|
          ensures !StartsWith(keys[k], prefix)
        {
          PrefixBlock(keys[mid], keys[k], prefix);
        }
        hi := mid;
      }
    }
  }

  /** The block of keys that have the prefix. */
  method PrefixRange(keys: seq<string>, prefix: string) returns (lo: nat, hi: nat)
    requires KeysSorted(keys)
    ensures lo <= hi <= |keys|
    ensures forall k :: 0 <= k < |keys| ==> (StartsWith(keys[k], prefix) <==> lo <= k < hi)
  {
    lo := LowerBound(keys, prefix);
    forall k | 0 <= k < lo
      ensures !StartsWith(keys[k], prefix)
    {
      if StartsWith(keys[k], prefix) { PrefixNotLess(keys[k], prefix); }
    }
    if lo >= |keys| || !StartsWith(keys[lo], prefix) {
      forall k | lo <= k < |keys|
        ensures !StartsWith(keys[k], prefix)
      {
        PrefixBlock(keys[lo], keys[k], prefix);
      }
      return lo, lo;
    }
    hi := PrefixUpperBound(keys, prefix, lo);
  }
}
