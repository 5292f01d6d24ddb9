/** Sequences sorted by a strict order: there is only one way to sort distinct elements. */
module Sorting {

  /** `lt` is a strict total order. */
  ghost predicate StrictOrder<T(!new)>(lt: (T, T) -> bool) {
    && (forall a :: !lt(a, a))
    && (forall a, b, c :: lt(a, b) && lt(b, c) ==> lt(a, c))
    && (forall a, b :: a == b || lt(a, b) || lt(b, a))
  }

  predicate Sorted<T>(lt: (T, T) -> bool, xs: seq<T>) {
    forall i, j :: 0 <= i < j < |xs| ==> lt(xs[i], xs[j])
  }

  predicate Distinct<T(==)>(xs: seq<T>) {
    forall i, j :: 0 <= i < j < |xs| ==> xs[i] != xs[j]
  }

  /** `Array.prototype.sort`, for a comparator that never says two elements are equal. */
  function Insert<T>(lt: (T, T) -> bool, xs: seq<T>, x: T): seq<T> {
    if xs == [] || lt(xs[|xs| - 1], x) then xs + [x]
    else Insert(lt, xs[..|xs| - 1], x) + [xs[|xs| - 1]]
  }

  function Sort<T>(lt: (T, T) -> bool, xs: seq<T>): seq<T> {
    if xs == [] then [] else Insert(lt, Sort(lt, xs[..|xs| - 1]), xs[|xs| - 1])
  }

  lemma {:induction false} InsertHas<T>(lt: (T, T) -> bool, xs: seq<T>, x: T, y: T)
    ensures |Insert(lt, xs, x)| == |xs| + 1
    ensures y in Insert(lt, xs, x) <==> y == x || y in xs
  {
    if xs != [] {
      var n := |xs| - 1;
      assert xs == xs[..n] + [xs[n]];
      if !lt(xs[n], x) {
        InsertHas(lt, xs[..n], x, y);
      }
    }
  }

  lemma {:induction false} SortHas<T>(lt: (T, T) -> bool, xs: seq<T>, y: T)
    ensures |Sort(lt, xs)| == |xs|
    ensures y in Sort(lt, xs) <==> y in xs
  {
    if xs != [] {
      var n := |xs| - 1;
      assert xs == xs[..n] + [xs[n]];
      SortHas(lt, xs[..n], y);
      InsertHas(lt, Sort(lt, xs[..n]), xs[n], y);
    }
  }

  lemma {:induction false} InsertSorted<T(!new)>(lt: (T, T) -> bool, xs: seq<T>, x: T)
    requires StrictOrder(lt) && Sorted(lt, xs) && x !in xs
    ensures Sorted(lt, Insert(lt, xs, x))
  {
    if xs != [] {
      var n := |xs| - 1;
      if lt(xs[n], x) {
        assert forall i :: 0 <= i < n ==> lt(xs[i], xs[n]);
      } else {
        InsertSorted(lt, xs[..n], x);
        var front := Insert(lt, xs[..n], x);
        forall k | 0 <= k < |front|
          ensures lt(front[k], xs[n])
        {
          InsertHas(lt, xs[..n], x, front[k]);
        }
      }
    }
  }

  lemma {:induction false} SortSorts<T(!new)>(lt: (T, T) -> bool, xs: seq<T>)
    requires StrictOrder(lt) && Distinct(xs)
    ensures Sorted(lt, Sort(lt, xs))
  {
    if xs != [] {
      var n := |xs| - 1;
      SortSorts(lt, xs[..n]);
      SortHas(lt, xs[..n], xs[n]);
      InsertSorted(lt, Sort(lt, xs[..n]), xs[n]);
    }
  }

  /** Two sorted sequences of the same elements are the same sequence. */
  lemma {:induction false} SortedIsUnique<T(!new)>(lt: (T, T) -> bool, xs: seq<T>, ys: seq<T>)
    requires StrictOrder(lt) && Sorted(lt, xs) && Sorted(lt, ys)
    requires forall x :: x in xs <==> x in ys
    ensures xs == ys
    decreases |xs|
  {
    if xs == [] {
      assert forall k :: 0 <= k < |ys| ==> ys[k] in xs;
    } else {
      var n := |xs| - 1;
      assert xs[n] in ys;
      var m := |ys| - 1;
      assert ys[m] in xs;
      var i :| 0 <= i < |xs| && xs[i] == ys[m];
      var j :| 0 <= j < |ys| && ys[j] == xs[n];
      assert xs[n] == ys[m];
      forall x
        ensures x in xs[..n] <==> x in ys[..m]
      {
        assert x in xs[..n] <==> x in xs && x != xs[n];
        assert x in ys[..m] <==> x in ys && x != ys[m];
      }
      SortedIsUnique(lt, xs[..n], ys[..m]);
      assert xs == xs[..n] + [xs[n]] && ys == ys[..m] + [ys[m]];
    }
  }

  function Filter<T>(xs: seq<T>, p: T -> bool): (r: seq<T>)
    ensures |r| <= |xs|
  {
    if xs == [] then []
    else if p(xs[|xs| - 1]) then Filter(xs[..|xs| - 1], p) + [xs[|xs| - 1]]
    else Filter(xs[..|xs| - 1], p)
  }

  lemma {:induction false} FilterHas<T>(xs: seq<T>, p: T -> bool, y: T)
    ensures y in Filter(xs, p) <==> y in xs && p(y)
  {
    if xs != [] {
      var n := |xs| - 1;
      assert xs == xs[..n] + [xs[n]];
      FilterHas(xs[..n], p, y);
    }
  }

  lemma {:induction false} FilterSorted<T(!new)>(lt: (T, T) -> bool, xs: seq<T>, p: T -> bool)
    requires Sorted(lt, xs)
    ensures Sorted(lt, Filter(xs, p))
  {
    if xs != [] {
      var n := |xs| - 1;
      FilterSorted(lt, xs[..n], p);
      var front := Filter(xs[..n], p);
      forall k | 0 <= k < |front|
        ensures lt(front[k], xs[n])
      {
        FilterHas(xs[..n], p, front[k]);
        var i :| 0 <= i < n && xs[..n][i] == front[k];
        assert xs[i] == front[k];
      }
    }
  }

  lemma {:induction false} FilterConcat<T>(xs: seq<T>, ys: seq<T>, p: T -> bool)
    ensures Filter(xs + ys, p) == Filter(xs, p) + Filter(ys, p)
  {
    if ys == [] {
      assert xs + ys == xs;
    } else {
      var n := |ys| - 1;
      FilterConcat(xs, ys[..n], p);
      assert (xs + ys)[..|xs + ys| - 1] == xs + ys[..n];
    }
  }

  lemma {:induction false} FilterAll<T>(xs: seq<T>, p: T -> bool)
    ensures (forall i :: 0 <= i < |xs| ==> p(xs[i])) ==> Filter(xs, p) == xs
    ensures (forall i :: 0 <= i < |xs| ==> !p(xs[i])) ==> Filter(xs, p) == []
  {
    if xs != [] {
      var n := |xs| - 1;
      FilterAll(xs[..n], p);
      assert xs == xs[..n] + [xs[n]];
    }
  }
}
