/** Array.prototype.sort: a stable sort by a comparator. The host's algorithm is not part of the
    source, so the stand-in is insertion sort, and `SortUnique` shows that any other algorithm with
    the same guarantee gives the same result when only equal elements tie. */
module Sorting {

  /** `x` goes behind the last element that is not greater than it. */
  function Insert<T>(sorted: seq<T>, x: T, less: (T, T) -> bool): (r: seq<T>)
    ensures |r| == |sorted| + 1
  {
    if |sorted| > 0 && less(x, sorted[|sorted| - 1]) then
      Insert(sorted[..|sorted| - 1], x, less) + [sorted[|sorted| - 1]]
    else
      sorted + [x]
  }

  function Sort<T>(xs: seq<T>, less: (T, T) -> bool): (r: seq<T>)
    ensures |r| == |xs|
  {
    if |xs| == 0 then [] else Insert(Sort(xs[..|xs| - 1], less), xs[|xs| - 1], less)
  }

  lemma {:induction false} InsertPermutes<T>(sorted: seq<T>, x: T, less: (T, T) -> bool)
    ensures multiset(Insert(sorted, x, less)) == multiset(sorted) + multiset{x}
  {
    var n := |sorted|;
    if n > 0 && less(x, sorted[n - 1]) {
      InsertPermutes(sorted[..n - 1], x, less);
      assert sorted == sorted[..n - 1] + [sorted[n - 1]];
    }
  }

  lemma SortUnfold<T>(xs: seq<T>, less: (T, T) -> bool)
    ensures Sort(xs, less) == if |xs| == 0 then [] else Insert(Sort(xs[..|xs| - 1], less), xs[|xs| - 1], less)
  {
  }

  /** The result is a permutation of the argument. */
  lemma {:induction false} SortPermutes<T>(xs: seq<T>, less: (T, T) -> bool)
    ensures multiset(Sort(xs, less)) == multiset(xs)
  {
    hide Sort, Insert;
    var n := |xs|;
    SortUnfold(xs, less);
    if n > 0 {
      SortPermutes(xs[..n - 1], less);
      InsertPermutes(Sort(xs[..n - 1], less), xs[n - 1], less);
      assert xs == xs[..n - 1] + [xs[n - 1]];
    }
  }

  /** A strict weak order: what a consistent comparator provides. */
  ghost predicate StrictWeakOrder<T(!new)>(less: (T, T) -> bool) {
    && (forall x, y :: less(x, y) ==> !less(y, x))
    && (forall x, y, z :: less(x, y) && less(y, z) ==> less(x, z))
    && (forall x, y, z :: !less(x, y) && !less(y, z) ==> !less(x, z))
  }

  /** No element is smaller than one before it. */
  ghost predicate Sorted<T>(xs: seq<T>, less: (T, T) -> bool) {
    forall i, j :: 0 <= i < j < |xs| ==> !less(xs[j], xs[i])
  }

  /** No two different positions tie. */
  ghost predicate Strict<T>(xs: seq<T>, less: (T, T) -> bool) {
    forall i, j :: 0 <= i < |xs| && 0 <= j < |xs| && i != j ==> less(xs[i], xs[j]) || less(xs[j], xs[i])
  }

  /** Elements that tie are equal. */
  ghost predicate TiesEqual<T>(xs: seq<T>, less: (T, T) -> bool) {
    forall i, j :: 0 <= i < |xs| && 0 <= j < |xs| ==> xs[i] == xs[j] || less(xs[i], xs[j]) || less(xs[j], xs[i])
  }

  lemma {:induction false} InsertSorted<T(!new)>(sorted: seq<T>, x: T, less: (T, T) -> bool)
    requires StrictWeakOrder(less) && Sorted(sorted, less)
    ensures Sorted(Insert(sorted, x, less), less)
    ensures forall i :: 0 <= i < |sorted| + 1 ==>
              Insert(sorted, x, less)[i] == x || Insert(sorted, x, less)[i] in sorted
  {
    var n := |sorted|;
    if n > 0 && less(x, sorted[n - 1]) {
      InsertSorted(sorted[..n - 1], x, less);
      var r := Insert(sorted[..n - 1], x, less);
      forall i | 0 <= i < |r|
        ensures !less(sorted[n - 1], r[i])
      {
        if r[i] != x {
          var j :| 0 <= j < n - 1 && sorted[j] == r[i];
        }
      }
    }
  }

  lemma {:induction false} SortSorted<T(!new)>(xs: seq<T>, less: (T, T) -> bool)
    requires StrictWeakOrder(less)
    ensures Sorted(Sort(xs, less), less)
  {
    if |xs| > 0 {
      SortSorted(xs[..|xs| - 1], less);
      InsertSorted(Sort(xs[..|xs| - 1], less), xs[|xs| - 1], less);
    }
  }

  /** Sorting a sorted array changes nothing. */
  lemma {:induction false} SortIdempotent<T>(xs: seq<T>, less: (T, T) -> bool)
    requires Sorted(xs, less)
    ensures Sort(xs, less) == xs
  {
    var n := |xs|;
    if n > 0 {
      SortIdempotent(xs[..n - 1], less);
      assert xs == xs[..n - 1] + [xs[n - 1]];
    }
  }

  lemma RemoveAt<T>(xs: seq<T>, j: nat)
    requires j < |xs|
    ensures multiset(xs) == multiset(xs[..j] + xs[j + 1..]) + multiset{xs[j]}
  {
    assert xs == xs[..j] + [xs[j]] + xs[j + 1..];
  }

  lemma Cancel<T>(a: multiset<T>, b: multiset<T>, x: T)
    requires a + multiset{x} == b + multiset{x}
    ensures a == b
  {
    assert a + multiset{x} - multiset{x} == a && b + multiset{x} - multiset{x} == b;
  }

  lemma SameHead<T(!new)>(xs: seq<T>, ys: seq<T>, less: (T, T) -> bool)
    requires StrictWeakOrder(less)
    requires multiset(xs) == multiset(ys) && |xs| > 0 && |ys| > 0
    requires Sorted(xs, less) && Sorted(ys, less) && TiesEqual(xs, less)
    ensures xs[0] == ys[0]
  {
    assert xs[0] in multiset(ys) && ys[0] in multiset(xs);
    var i :| 0 <= i < |xs| && xs[i] == ys[0];
    var j :| 0 <= j < |ys| && ys[j] == xs[0];
  }

  /** Sorted permutations are equal, whatever algorithm made them, if only equal elements tie. */
  lemma {:induction false} SortUnique<T(!new)>(xs: seq<T>, ys: seq<T>, less: (T, T) -> bool)
    requires StrictWeakOrder(less)
    requires multiset(xs) == multiset(ys)
    requires Sorted(xs, less) && Sorted(ys, less) && TiesEqual(xs, less)
    ensures xs == ys
  {
    hide StrictWeakOrder, Sorted, TiesEqual;
    SameSize(xs, ys);
    if |xs| > 0 {
      SameHead(xs, ys, less);
      SameTail(xs, ys);
      TailFacts(xs, less);
      TailFacts(ys, less);
      SortUnique(xs[1..], ys[1..], less);
    }
  }

  lemma SameTail<T>(xs: seq<T>, ys: seq<T>)
    requires multiset(xs) == multiset(ys) && |xs| > 0 && |ys| > 0 && xs[0] == ys[0]
    ensures multiset(xs[1..]) == multiset(ys[1..])
    ensures xs[1..] == ys[1..] ==> xs == ys
  {
    assert xs == [xs[0]] + xs[1..] && ys == [ys[0]] + ys[1..];
    assert multiset(xs) == multiset(xs[1..]) + multiset{xs[0]};
    assert multiset(ys) == multiset(ys[1..]) + multiset{ys[0]};
    Cancel(multiset(xs[1..]), multiset(ys[1..]), xs[0]);
  }

  lemma TailFacts<T>(xs: seq<T>, less: (T, T) -> bool)
    requires |xs| > 0
    ensures Sorted(xs, less) ==> Sorted(xs[1..], less)
    ensures TiesEqual(xs, less) ==> TiesEqual(xs[1..], less)
  {
  }

  lemma SameSize<T>(xs: seq<T>, ys: seq<T>)
    requires multiset(xs) == multiset(ys)
    ensures |xs| == |ys|
  {
    assert |multiset(xs)| == |xs| && |multiset(ys)| == |ys|;
  }

  /** Strictness survives a permutation. */
  lemma StrictPermuted<T>(xs: seq<T>, ys: seq<T>, less: (T, T) -> bool)
    requires multiset(xs) == multiset(ys) && Strict(xs, less)
    requires forall x :: !less(x, x)
    ensures Strict(ys, less)
  {
    forall i, j | 0 <= i < |ys| && 0 <= j < |ys| && i != j
      ensures less(ys[i], ys[j]) || less(ys[j], ys[i])
    {
      assert ys[i] in multiset(xs) && ys[j] in multiset(xs);
      var p :| 0 <= p < |xs| && xs[p] == ys[i];
      if ys[i] == ys[j] {
        TwoOccurrences(ys, i, j);
        OneOccurrence(xs, p, less);
      } else {
        var q :| 0 <= q < |xs| && xs[q] == ys[j];
      }
    }
  }

  lemma TwoOccurrences<T>(ys: seq<T>, i: nat, j: nat)
    requires i < |ys| && j < |ys| && i != j && ys[i] == ys[j]
    ensures multiset(ys)[ys[i]] >= 2
  {
    var a, b := if i < j then i else j, if i < j then j else i;
    assert ys == ys[..a] + [ys[a]] + ys[a + 1..b] + [ys[b]] + ys[b + 1..];
  }

  lemma OneOccurrence<T>(xs: seq<T>, p: nat, less: (T, T) -> bool)
    requires p < |xs| && Strict(xs, less) && !less(xs[p], xs[p])
    ensures multiset(xs)[xs[p]] == 1
  {
    assert xs == xs[..p] + [xs[p]] + xs[p + 1..];
    assert xs[p] !in xs[..p] && xs[p] !in xs[p + 1..];
  }

  lemma TiesEqualPermuted<T>(xs: seq<T>, ys: seq<T>, less: (T, T) -> bool)
    requires multiset(xs) == multiset(ys) && TiesEqual(xs, less)
    ensures TiesEqual(ys, less)
  {
    forall i, j | 0 <= i < |ys| && 0 <= j < |ys|
      ensures ys[i] == ys[j] || less(ys[i], ys[j]) || less(ys[j], ys[i])
    {
      assert ys[i] in multiset(xs) && ys[j] in multiset(xs);
      var p :| 0 <= p < |xs| && xs[p] == ys[i];
      var q :| 0 <= q < |xs| && xs[q] == ys[j];
    }
  }

  /** Sorting two permutations gives one result, if only equal elements tie. */
  lemma SortPermuted<T(!new)>(xs: seq<T>, ys: seq<T>, less: (T, T) -> bool)
    requires StrictWeakOrder(less)
    requires multiset(xs) == multiset(ys) && TiesEqual(xs, less)
    ensures Sort(xs, less) == Sort(ys, less)
  {
    hide StrictWeakOrder, Sorted, TiesEqual;
    SortSorted(xs, less);
    SortSorted(ys, less);
    SortPermutes(xs, less);
    SortPermutes(ys, less);
    TiesEqualPermuted(xs, Sort(xs, less), less);
    SortUnique(Sort(xs, less), Sort(ys, less), less);
  }

  // ---------------------------------------------------------------- mapped sequences

  function Map<T, U>(f: T -> U, xs: seq<T>): (r: seq<U>)
    ensures |r| == |xs| && forall i :: 0 <= i < |xs| ==> r[i] == f(xs[i])
  {
    seq(|xs|, i requires 0 <= i < |xs| => f(xs[i]))
  }

  lemma {:induction false} MapMultiset<T, U>(f: T -> U, xs: seq<T>, ys: seq<T>)
    requires multiset(xs) == multiset(ys)
    ensures multiset(Map(f, xs)) == multiset(Map(f, ys))
  {
    hide Map;
    SameSize(xs, ys);
    if |xs| == 0 {
      assert xs == ys;
    } else {
      var j := Occurrence(xs, ys);
      var xr, yr := xs[..0] + xs[1..], ys[..j] + ys[j + 1..];
      RemoveAt(xs, 0);
      RemoveAt(ys, j);
      Cancel(multiset(xr), multiset(yr), xs[0]);
      MapMultiset(f, xr, yr);
      MapRemoveAt(f, xs, 0);
      MapRemoveAt(f, ys, j);
    }
  }

  lemma Occurrence<T>(xs: seq<T>, ys: seq<T>) returns (j: nat)
    requires multiset(xs) == multiset(ys) && |xs| > 0
    ensures j < |ys| && ys[j] == xs[0]
  {
    assert xs[0] in multiset(ys);
    j :| 0 <= j < |ys| && ys[j] == xs[0];
  }

  lemma MapRemoveAt<T, U>(f: T -> U, xs: seq<T>, j: nat)
    requires j < |xs|
    ensures multiset(Map(f, xs)) == multiset(Map(f, xs[..j] + xs[j + 1..])) + multiset{f(xs[j])}
  {
    var m := Map(f, xs);
    assert m == m[..j] + [m[j]] + m[j + 1..];
    assert Map(f, xs[..j] + xs[j + 1..]) == m[..j] + m[j + 1..];
  }

  /** A map that respects the order commutes with sorting. */
  lemma {:induction false} SortMap<T, U>(f: T -> U, xs: seq<T>, less: (T, T) -> bool, lessU: (U, U) -> bool)
    requires forall x, y :: x in xs && y in xs ==> less(x, y) == lessU(f(x), f(y))
    ensures Map(f, Sort(xs, less)) == Sort(Map(f, xs), lessU)
  {
    hide Insert, Map, Sort;
    SortUnfold(xs, less);
    SortUnfold(Map(f, xs), lessU);
    var n := |xs|;
    if n == 0 {
      assert Map(f, []) == [];
    } else {
      var init, x := xs[..n - 1], xs[n - 1];
      assert x in xs;
      SortMap(f, init, less, lessU);
      MapLast(f, xs);
      forall y | y in Sort(init, less)
        ensures less(x, y) == lessU(f(x), f(y))
      {
        SortMember(init, less, y);
        assert y in xs;
      }
      InsertMap(f, Sort(init, less), x, less, lessU);
    }
  }

  lemma MapLast<T, U>(f: T -> U, xs: seq<T>)
    requires |xs| > 0
    ensures Map(f, xs)[..|xs| - 1] == Map(f, xs[..|xs| - 1])
    ensures Map(f, xs)[|xs| - 1] == f(xs[|xs| - 1])
  {
  }

  lemma SortMember<T>(xs: seq<T>, less: (T, T) -> bool, y: T)
    ensures y in Sort(xs, less) <==> y in xs
  {
    SortPermutes(xs, less);
    assert y in Sort(xs, less) <==> y in multiset(Sort(xs, less));
    assert y in xs <==> y in multiset(xs);
  }

  lemma {:induction false} InsertMap<T, U>(f: T -> U, s: seq<T>, x: T, less: (T, T) -> bool, lessU: (U, U) -> bool)
    requires forall y :: y in s ==> less(x, y) == lessU(f(x), f(y))
    ensures Map(f, Insert(s, x, less)) == Insert(Map(f, s), f(x), lessU)
  {
    var n := |s|;
    if n > 0 && less(x, s[n - 1]) {
      InsertMap(f, s[..n - 1], x, less, lessU);
      assert Map(f, s)[..n - 1] == Map(f, s[..n - 1]);
      assert Map(f, Insert(s, x, less)) == Map(f, Insert(s[..n - 1], x, less)) + [f(s[n - 1])];
    } else {
      assert Map(f, s + [x]) == Map(f, s) + [f(x)];
    }
  }

  // ---------------------------------------------------------------- in place

  /** `values.sort(comparator)`: the elements of the array are rearranged in place. */
  method SortInPlace<T>(values: array<T>, less: (T, T) -> bool)
    modifies values
    ensures values[..] == Sort(old(values[..]), less)
  {
    hide Insert;
    ghost var xs := values[..];
    for n := 0 to values.Length
      invariant values[..n] == Sort(xs[..n], less)
      invariant values[n..] == xs[n..]
    {
      ghost var prefix := xs[..n + 1];
      assert prefix[..n] == xs[..n] && prefix[n] == xs[n];
      assert values[n] == xs[n] by { assert values[n..][0] == xs[n..][0]; }
      InsertInPlace(values, n, less);
      assert values[n + 1..] == xs[n..][1..] == xs[n + 1..];
    }
    assert values[..] == values[..values.Length] && xs == xs[..values.Length];
  }

  method InsertInPlace<T>(values: array<T>, n: nat, less: (T, T) -> bool)
    requires n < values.Length
    modifies values
    ensures values[..n + 1] == Insert(old(values[..n]), old(values[n]), less)
    ensures values[n + 1..] == old(values[n + 1..])
  {
    hide Insert;
    var x := values[n];
    ghost var s := values[..n];
    var k := n;
    while k > 0 && less(x, values[k - 1])
      invariant k <= n
      invariant forall i :: 0 <= i < k ==> values[i] == s[i]
      invariant forall i :: k <= i < n ==> values[i + 1] == s[i] && less(x, s[i])
      invariant forall i :: n < i < values.Length ==> values[i] == old(values[i])
    {
      values[k] := values[k - 1];
      k := k - 1;
    }
    InsertAt(s, x, k, less);
    values[k] := x;
    InsertedAt(values[..n + 1], s, x, k);
  }

  lemma InsertedAt<T>(r: seq<T>, s: seq<T>, x: T, k: nat)
    requires k <= |s| && |r| == |s| + 1 && r[k] == x
    requires forall i :: 0 <= i < k ==> r[i] == s[i]
    requires forall i :: k <= i < |s| ==> r[i + 1] == s[i]
    ensures r == s[..k] + [x] + s[k..]
  {
    var t := s[..k] + [x] + s[k..];
    forall j | 0 <= j < |r|
      ensures r[j] == t[j]
    {
      if j > k {
        assert r[(j - 1) + 1] == s[j - 1];
      }
    }
  }

  lemma {:induction false} InsertAt<T>(s: seq<T>, x: T, k: nat, less: (T, T) -> bool)
    requires k <= |s| && (k == 0 || !less(x, s[k - 1]))
    requires forall i :: k <= i < |s| ==> less(x, s[i])
    ensures Insert(s, x, less) == s[..k] + [x] + s[k..]
  {
    var n := |s|;
    if k == n {
      assert s[..k] == s && s[k..] == [];
    } else {
      var init, last := s[..n - 1], [s[n - 1]];
      InsertAt(init, x, k, less);
      assert Insert(s, x, less) == Insert(init, x, less) + last;
      assert init[..k] == s[..k] && init[k..] + last == s[k..];
      assert (init[..k] + [x] + init[k..]) + last == init[..k] + [x] + (init[k..] + last);
    }
  }
}
