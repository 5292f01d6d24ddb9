/** Shared vocabulary: optional values and the character-by-character order of strings. */
module Util {

  datatype Option<+T> = None | Some(value: T)

  function Max(a: int, b: int): int {
    if a < b then b else a
  }

  /** `a < b` on strings, as JavaScript compares them. */
  predicate Less(a: string, b: string) {
    if b == "" then false
    else if a == "" then true
    else a[0] < b[0] || (a[0] == b[0] && Less(a[1..], b[1..]))
  }

  /** `a` ends at `k`, or is less there, and up to there they are the same. */
  predicate LessAt(a: string, b: string, k: nat) {
    k <= |a| && k < |b| && a[..k] == b[..k] && (k == |a| || a[k] < b[k])
  }

  /** The first character that differs decides, or the end of the shorter text. */
  lemma {:induction false} LessExactly(a: string, b: string)
    ensures Less(a, b) <==> exists k :: LessAt(a, b, k)
    decreases |a|
  {
    if a == "" || b == "" || a[0] != b[0] {
      OnlyAtFront(a, b);
      assert a == "" && b != "" ==> LessAt(a, b, 0);
      assert a != "" && b != "" && a[0] < b[0] ==> LessAt(a, b, 0);
    } else {
      LessExactly(a[1..], b[1..]);
      LessShifts(a, b);
    }
  }

  lemma SameStart(a: string, b: string, k: nat)
    ensures LessAt(a, b, k) && k > 0 ==> a != "" && b != "" && a[0] == b[0]
  {
    if LessAt(a, b, k) && k > 0 {
      assert a[..k][0] == b[..k][0];
    }
  }

  lemma OnlyAtFront(a: string, b: string)
    requires a == "" || b == "" || a[0] != b[0]
    ensures forall k :: LessAt(a, b, k) ==> k == 0
  {
    forall k: nat
      ensures LessAt(a, b, k) ==> k == 0
    {
      SameStart(a, b, k);
    }
  }

  lemma LessShifts(a: string, b: string)
    requires a != "" && b != "" && a[0] == b[0]
    ensures (exists k :: LessAt(a, b, k)) <==> exists k :: LessAt(a[1..], b[1..], k)
  {
    if k: nat :| LessAt(a, b, k) {
      assert k > 0 && a[1..][..k - 1] == a[..k][1..] && b[1..][..k - 1] == b[..k][1..];
      assert LessAt(a[1..], b[1..], k - 1);
    }
    if k: nat :| LessAt(a[1..], b[1..], k) {
      assert a[..k + 1] == [a[0]] + a[1..][..k] && b[..k + 1] == [b[0]] + b[1..][..k];
      assert LessAt(a, b, k + 1);
    }
  }

  lemma {:induction false} LessIsTransitive(a: string, b: string, c: string)
    ensures Less(a, b) && Less(b, c) ==> Less(a, c)
    decreases |a|
  {
    if a != "" && b != "" && c != "" && a[0] == b[0] == c[0] {
      LessIsTransitive(a[1..], b[1..], c[1..]);
    }
  }

  lemma {:induction false} LessIsTotal(a: string, b: string)
    ensures a == b || Less(a, b) || Less(b, a)
    ensures !(Less(a, b) && Less(b, a))
    ensures a == b ==> !Less(a, b)
    decreases |a|
  {
    if a != "" && b != "" {
      LessIsTotal(a[1..], b[1..]);
      if a[0] == b[0] && a[1..] == b[1..] {
        assert a == [a[0]] + a[1..] == b;
      }
    }
  }

  /** The text lies in `raw` at `i`. */
  predicate LiesAt(raw: string, i: nat, text: string) {
    i + |text| <= |raw| && raw[i..i + |text|] == text
  }

  lemma LiesApart(raw: string, i: nat, a: string, b: string)
    requires LiesAt(raw, i, a + b)
    ensures LiesAt(raw, i, a) && LiesAt(raw, i + |a|, b)
  {
    var t := raw[i..i + |a + b|];
    assert raw[i..i + |a|] == t[..|a|] == a;
    assert raw[i + |a|..i + |a| + |b|] == t[|a|..] == b;
  }
}
