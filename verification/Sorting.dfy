/** What the kernel relies on when it calls the library sorts: `sort.Slice` gives
    some permutation without inversions, and under an ordering that separates all
    the elements there is only one such permutation. */
module Sorting {

  /** A strict weak order: what the comparison given to the library must be. */
  ghost predicate WeakOrder<T(!new)>(less: (T, T) -> bool) {
    && (forall a, b :: less(a, b) ==> !less(b, a))
    && (forall a, b, c :: less(a, c) ==> less(a, b) || less(b, c))
  }

  /** No later element is smaller than an earlier one. */
  ghost predicate Sorted<T>(less: (T, T) -> bool, xs: seq<T>) {
    forall i, j :: 0 <= i < j < |xs| ==> !less(xs[j], xs[i])
  }

  /** Every earlier element is smaller than every later one, so none repeats. */
  ghost predicate StrictlySorted<T>(less: (T, T) -> bool, xs: seq<T>) {
    forall i, j :: 0 <= i < j < |xs| ==> less(xs[i], xs[j])
  }

  ghost predicate Distinct<T>(xs: seq<T>) {
    forall i, j :: 0 <= i < j < |xs| ==> xs[i] != xs[j]
  }

  /** `sort.Slice`, as an insertion sort. */
  method SortSlice<T(!new)>(xs: seq<T>, less: (T, T) -> bool) returns (ys: seq<T>)
    requires WeakOrder(less)
    ensures multiset(ys) == multiset(xs)
    ensures Sorted(less, ys)
  {
    ys := [];
    for i := 0 to |xs|
      invariant multiset(ys) == multiset(xs[..i])
      invariant Sorted(less, ys)
    {
      assert xs[..i + 1] == xs[..i] + [xs[i]];
      ys := Insert(ys, xs[i], less);
    }
    assert xs[..|xs|] == xs;
  }

  method Insert<T(!new)>(ys: seq<T>, x: T, less: (T, T) -> bool) returns (zs: seq<T>)
    requires WeakOrder(less) && Sorted(less, ys)
    ensures multiset(zs) == multiset(ys) + multiset{x}
    ensures Sorted(less, zs)
  {
    var k := |ys|;
    while k > 0 && less(x, ys[k - 1])
      invariant 0 <= k <= |ys|
      invariant forall j :: k <= j < |ys| ==> less(x, ys[j])
    {
      k := k - 1;
    }
    zs := ys[..k] + [x] + ys[k..];
    assert ys == ys[..k] + ys[k..];
    InsertKeepsSorted(ys, x, k, less);
  }

  lemma InsertKeepsSorted<T(!new)>(ys: seq<T>, x: T, k: nat, less: (T, T) -> bool)
    requires WeakOrder(less) && Sorted(less, ys) && k <= |ys|
    requires forall j :: k <= j < |ys| ==> less(x, ys[j])
    requires k > 0 ==> !less(x, ys[k - 1])
    ensures Sorted(less, ys[..k] + [x] + ys[k..])
  {
    var zs := ys[..k] + [x] + ys[k..];
    forall i, j | 0 <= i < j < |zs|
      ensures !less(zs[j], zs[i])
    {
      if i == k {
        assert less(x, ys[j - 1]);
      } else if j == k {
        assert !less(ys[k - 1], ys[i]) || i == k - 1;
      } else {
        assert !less(ys[if j < k then j else j - 1], ys[if i < k then i else i - 1]);
      }
    }
  }

  /** `ys` is `xs` reordered by `perm`: sorted, and elements that tie keep their order. */
  ghost predicate StableSort<T>(less: (T, T) -> bool, xs: seq<T>, ys: seq<T>, perm: seq<nat>) {
    && |ys| == |perm| == |xs|
    && (forall i :: 0 <= i < |perm| ==> perm[i] < |xs| && ys[i] == xs[perm[i]])
    && (forall i, j :: 0 <= i < j < |perm| ==> InOrder(less, ys[i], perm[i], ys[j], perm[j]))
    && (forall k :: 0 <= k < |xs| ==> k in perm)
  }

  ghost predicate IsStableSort<T>(less: (T, T) -> bool, xs: seq<T>, ys: seq<T>) {
    exists perm :: StableSort(less, xs, ys, perm)
  }

  /** `x` from position `i` comes before `y` from position `j`. */
  predicate InOrder<T>(less: (T, T) -> bool, x: T, i: nat, y: T, j: nat) {
    less(x, y) || (!less(y, x) && i < j)
  }

  /** `sort.SliceStable`. */
  method SortStable<T(!new)>(xs: seq<T>, less: (T, T) -> bool) returns (ys: seq<T>, ghost perm: seq<nat>)
    requires WeakOrder(less)
    ensures StableSort(less, xs, ys, perm)
    ensures IsStableSort(less, xs, ys)
  {
    ys, perm := [], [];
    for i := 0 to |xs|
      invariant StableSort(less, xs[..i], ys, perm)
    {
      assert xs[..i + 1] == xs[..i] + [xs[i]];
      ys, perm := InsertStable(xs[..i], ys, perm, xs[i], less);
    }
    assert xs[..|xs|] == xs;
  }

  method InsertStable<T(!new)>(ghost xs: seq<T>, ys: seq<T>, ghost perm: seq<nat>, x: T, less: (T, T) -> bool)
    returns (zs: seq<T>, ghost places: seq<nat>)
    requires WeakOrder(less) && StableSort(less, xs, ys, perm)
    ensures StableSort(less, xs + [x], zs, places)
  {
    var k := |ys|;
    while k > 0 && less(x, ys[k - 1])
      invariant 0 <= k <= |ys|
      invariant forall j :: k <= j < |ys| ==> less(x, ys[j])
    {
      k := k - 1;
    }
    zs := ys[..k] + [x] + ys[k..];
    places := perm[..k] + [|xs|] + perm[k..];
    InsertKeepsStable(xs, ys, perm, x, k, less);
  }

  lemma InsertKeepsStable<T(!new)>(xs: seq<T>, ys: seq<T>, perm: seq<nat>, x: T, k: nat, less: (T, T) -> bool)
    requires WeakOrder(less) && StableSort(less, xs, ys, perm) && k <= |ys|
    requires forall j :: k <= j < |ys| ==> less(x, ys[j])
    requires k > 0 ==> !less(x, ys[k - 1])
    ensures StableSort(less, xs + [x], ys[..k] + [x] + ys[k..], perm[..k] + [|xs|] + perm[k..])
  {
    var zs, places := ys[..k] + [x] + ys[k..], perm[..k] + [|xs|] + perm[k..];
    forall i, j | 0 <= i < j < |zs|
      ensures InOrder(less, zs[i], places[i], zs[j], places[j])
    {
      InsertedInOrder(xs, ys, perm, x, k, less, i, j);
    }
    InsertedPlaces(perm, |xs|, k);
  }

  lemma InsertedInOrder<T(!new)>(xs: seq<T>, ys: seq<T>, perm: seq<nat>, x: T, k: nat, less: (T, T) -> bool, i: nat, j: nat)
    requires WeakOrder(less) && StableSort(less, xs, ys, perm) && k <= |ys| && i < j <= |ys|
    requires forall j :: k <= j < |ys| ==> less(x, ys[j])
    requires k > 0 ==> !less(x, ys[k - 1])
    ensures var zs, places := ys[..k] + [x] + ys[k..], perm[..k] + [|xs|] + perm[k..];
            InOrder(less, zs[i], places[i], zs[j], places[j])
  {
    if i == k {
      assert less(x, ys[j - 1]);
    } else if j == k {
      BeforeInserted(xs, ys, perm, x, k, less, i);
    } else {
      var a, b := if i < k then i else i - 1, if j < k then j else j - 1;
      assert InOrder(less, ys[a], perm[a], ys[b], perm[b]);
    }
  }

  lemma BeforeInserted<T(!new)>(xs: seq<T>, ys: seq<T>, perm: seq<nat>, x: T, k: nat, less: (T, T) -> bool, i: nat)
    requires WeakOrder(less) && StableSort(less, xs, ys, perm) && i < k <= |ys| && !less(x, ys[k - 1])
    ensures InOrder(less, ys[i], perm[i], x, |xs|)
  {
    assert i == k - 1 || InOrder(less, ys[i], perm[i], ys[k - 1], perm[k - 1]);
  }

  lemma InsertedPlaces(perm: seq<nat>, n: nat, k: nat)
    requires k <= |perm| && forall i :: 0 <= i < n ==> i in perm
    ensures forall i :: 0 <= i < n + 1 ==> i in perm[..k] + [n] + perm[k..]
  {
    assert perm == perm[..k] + perm[k..];
    forall i | 0 <= i < n + 1 ensures i in perm[..k] + [n] + perm[k..] {
      if i < n {
        assert i in perm;
      }
    }
  }

  lemma PermutationMembers<T>(xs: seq<T>, ys: seq<T>)
    requires multiset(xs) == multiset(ys)
    ensures |xs| == |ys|
    ensures forall x :: x in xs <==> x in ys
  {
    assert |multiset(xs)| == |xs| && |multiset(ys)| == |ys|;
    forall x ensures x in xs <==> x in ys {
      assert x in xs <==> x in multiset(xs);
      assert x in ys <==> x in multiset(ys);
    }
  }

  lemma DistinctCount<T>(xs: seq<T>, x: T)
    requires Distinct(xs)
    ensures multiset(xs)[x] == if x in xs then 1 else 0
  {
    if xs != [] {
      var rest := xs[1..];
      assert xs == [xs[0]] + rest;
      assert forall i, j :: 0 <= i < j < |rest| ==> rest[i] == xs[i + 1] && rest[j] == xs[j + 1];
      DistinctCount(rest, x);
      assert xs[0] !in rest;
    }
  }

  lemma DistinctPermutation<T>(xs: seq<T>, ys: seq<T>)
    requires Distinct(xs) && multiset(xs) == multiset(ys)
    ensures Distinct(ys)
  {
    forall i, j | 0 <= i < j < |ys|
      ensures ys[i] != ys[j]
    {
      if ys[i] == ys[j] {
        assert ys == ys[..j] + [ys[j]] + ys[j + 1..];
        assert ys[i] in ys[..j];
        assert multiset(ys)[ys[i]] >= 2;
        DistinctCount(xs, ys[i]);
        assert false;
      }
    }
  }

  /** Without inversions and without repeats, an order that separates the elements is strict. */
  lemma SortedDistinctIsStrict<T>(less: (T, T) -> bool, xs: seq<T>)
    requires Sorted(less, xs) && Distinct(xs)
    requires forall i, j :: 0 <= i < j < |xs| ==> less(xs[i], xs[j]) || less(xs[j], xs[i])
    ensures StrictlySorted(less, xs)
  {
  }

  /** Two strictly sorted listings of the same elements are the same listing. */
  lemma {:induction false} StrictlySortedUnique<T(!new)>(less: (T, T) -> bool, xs: seq<T>, ys: seq<T>)
    requires forall a, b :: less(a, b) ==> !less(b, a)
    requires StrictlySorted(less, xs) && StrictlySorted(less, ys)
    requires forall x :: x in xs <==> x in ys
    ensures xs == ys
    decreases |xs|
  {
    assert ys != [] ==> ys[0] in xs;
    if xs == [] {
    } else {
      assert xs[0] in ys;
      var k :| 0 <= k < |ys| && ys[k] == xs[0];
      assert ys[0] in xs;
      var m :| 0 <= m < |xs| && xs[m] == ys[0];
      assert xs[0] == ys[0];
      forall x ensures x in xs[1..] <==> x in ys[1..] {
        TailMembers(less, xs, x);
        TailMembers(less, ys, x);
      }
      StrictlySortedUnique(less, xs[1..], ys[1..]);
      assert xs == [xs[0]] + xs[1..] && ys == [ys[0]] + ys[1..];
    }
  }

  lemma TailMembers<T(!new)>(less: (T, T) -> bool, xs: seq<T>, x: T)
    requires forall a, b :: less(a, b) ==> !less(b, a)
    requires StrictlySorted(less, xs) && xs != []
    ensures x in xs[1..] <==> x in xs && x != xs[0]
  {
    if x in xs && x != xs[0] {
      var i :| 0 <= i < |xs| && xs[i] == x;
      assert xs[1..][i - 1] == x;
    }
    if x in xs[1..] {
      var i :| 0 <= i < |xs[1..]| && xs[1..][i] == x;
      assert xs[i + 1] == x && less(xs[0], xs[i + 1]);
    }
  }

  /** Under a total order the sorted arrangement of given elements, repeats included, is unique. */
  lemma {:induction false} SortedPermutationUnique<T(!new)>(less: (T, T) -> bool, xs: seq<T>, ys: seq<T>)
    requires forall a, b :: a != b ==> less(a, b) || less(b, a)
    requires Sorted(less, xs) && Sorted(less, ys)
    requires multiset(xs) == multiset(ys)
    ensures xs == ys
  {
    PermutationMembers(xs, ys);
    if xs == [] {
    } else {
      SortedFirstAgree(less, xs, ys);
      TailMultiset(xs);
      TailMultiset(ys);
      SortedPermutationUnique(less, xs[1..], ys[1..]);
    }
  }

  lemma TailMultiset<T>(xs: seq<T>)
    requires xs != []
    ensures multiset(xs[1..]) == multiset(xs) - multiset{xs[0]} && xs == [xs[0]] + xs[1..]
  {
    assert xs == [xs[0]] + xs[1..];
  }

  lemma SortedFirstAgree<T(!new)>(less: (T, T) -> bool, xs: seq<T>, ys: seq<T>)
    requires forall a, b :: a != b ==> less(a, b) || less(b, a)
    requires Sorted(less, xs) && Sorted(less, ys)
    requires xs != [] && ys != [] && xs[0] in ys && ys[0] in xs
    ensures xs[0] == ys[0]
  {
    var k :| 0 <= k < |ys| && ys[k] == xs[0];
    var m :| 0 <= m < |xs| && xs[m] == ys[0];
  }
}
