/** The sort.Slice / sort.SliceStable calls of the source: insertion sort over any comparator. */
module Sorting {
  /** Put x into s, walking left past every element that x is less than. */
  function Insert<T>(s: seq<T>, x: T, less: (T, T) -> bool): seq<T> {
    if s == [] || !less(x, s[|s| - 1]) then s + [x]
    else Insert(s[..|s| - 1], x, less) + [s[|s| - 1]]
  }

  function StableSort<T>(s: seq<T>, less: (T, T) -> bool): seq<T> {
    if s == [] then [] else Insert(StableSort(s[..|s| - 1], less), s[|s| - 1], less)
  }

  ghost predicate StrictWeakOrder<T(!new)>(less: (T, T) -> bool) {
    && (forall x, y :: less(x, y) ==> !less(y, x))
    && (forall x, y, z :: less(x, z) ==> less(x, y) || less(y, z))
  }

  /** The same, among the elements of s only. */
  ghost predicate StrictWeakOn<T>(less: (T, T) -> bool, s: seq<T>) {
    && (forall x, y :: x in s && y in s && less(x, y) ==> !less(y, x))
    && (forall x, y, z :: x in s && y in s && z in s && less(x, z) ==> less(x, y) || less(y, z))
  }

  ghost predicate Sorted<T>(s: seq<T>, less: (T, T) -> bool) {
    forall i, j :: 0 <= i < j < |s| ==> !less(s[j], s[i])
  }

  function Pick<T>(s: seq<T>, p: T -> bool): seq<T> {
    if s == [] then [] else Pick(s[..|s| - 1], p) + if p(s[|s| - 1]) then [s[|s| - 1]] else []
  }

  /** The inner loop: swap a[i] leftwards to its place in the sorted part a[..i]. */
  method SinkLeft<T>(a: array<T>, i: nat, less: (T, T) -> bool)
    requires i < a.Length
    modifies a
    ensures a[..i + 1] == Insert(old(a[..i]), old(a[i]), less)
    ensures a[i + 1..] == old(a[i + 1..])
  {
    ghost var sorted, tail := a[..i], a[i + 1..];
    var x, j := a[i], i;
    while 0 < j && less(x, a[j - 1])
      invariant 0 <= j <= i && a[j] == x
      invariant a[..j] == sorted[..j]
      invariant a[j + 1..i + 1] == sorted[j..]
      invariant a[i + 1..] == tail
      invariant Insert(sorted, x, less) == Insert(sorted[..j], x, less) + sorted[j..]
    {
      Unfold(sorted, j, x, a[..j], less);
      SwapShifts(a[..], j, i, sorted);
      a[j], a[j - 1] := a[j - 1], a[j];
      j := j - 1;
    }
    Placed(a[..], j, i, x);
    assert 0 < j ==> sorted[..j][j - 1] == a[..j][j - 1];
  }

  lemma Placed<T>(s: seq<T>, j: nat, i: nat, x: T)
    requires j <= i < |s| && s[j] == x
    ensures s[..i + 1] == s[..j] + [x] + s[j + 1..i + 1]
  {
  }

  lemma Unfold<T>(sorted: seq<T>, j: nat, x: T, front: seq<T>, less: (T, T) -> bool)
    requires 0 < j <= |sorted| && front == sorted[..j] && less(x, front[j - 1])
    ensures Insert(sorted[..j], x, less) + sorted[j..] == Insert(sorted[..j - 1], x, less) + sorted[j - 1..]
  {
    assert sorted[..j][..j - 1] == sorted[..j - 1];
    assert sorted[j - 1..] == [sorted[j - 1]] + sorted[j..];
  }

  lemma SwapShifts<T>(s: seq<T>, j: nat, i: nat, sorted: seq<T>)
    requires 0 < j <= i < |s| && |sorted| == i
    requires s[..j] == sorted[..j] && s[j + 1..i + 1] == sorted[j..]
    ensures s[j := s[j - 1]][j - 1 := s[j]][j..i + 1] == sorted[j - 1..]
  {
    var r := s[j := s[j - 1]][j - 1 := s[j]];
    assert r[j] == sorted[..j][j - 1];
    assert r[j..i + 1] == [r[j]] + s[j + 1..i + 1];
  }

  method SortSlice<T>(a: array<T>, less: (T, T) -> bool)
    modifies a
    ensures a[..] == StableSort(old(a[..]), less)
  {
    ghost var was := a[..];
    var i := 0;
    while i < a.Length
      invariant 0 <= i <= a.Length
      invariant a[..i] == StableSort(was[..i], less)
      invariant a[i..] == was[i..]
    {
      assert a[i] == a[i..][0] == was[i..][0] == was[i];
      assert a[i + 1..] == a[i..][1..];
      SinkLeft(a, i, less);
      assert was[..i + 1][..i] == was[..i];
      i := i + 1;
    }
    assert a[..i] == a[..] && was[..i] == was;
  }

  lemma {:induction false} InsertKeepsElements<T>(s: seq<T>, x: T, less: (T, T) -> bool)
    ensures multiset(Insert(s, x, less)) == multiset(s) + multiset{x}
  {
    if s != [] && less(x, s[|s| - 1]) {
      InsertKeepsElements(s[..|s| - 1], x, less);
      assert s == s[..|s| - 1] + [s[|s| - 1]];
    }
  }

  lemma {:induction false} SortKeepsElements<T>(s: seq<T>, less: (T, T) -> bool)
    ensures multiset(StableSort(s, less)) == multiset(s)
  {
    if s != [] {
      SortKeepsElements(s[..|s| - 1], less);
      InsertKeepsElements(StableSort(s[..|s| - 1], less), s[|s| - 1], less);
      assert s == s[..|s| - 1] + [s[|s| - 1]];
    }
  }

  lemma SortKeepsMembers<T>(s: seq<T>, less: (T, T) -> bool)
    ensures forall x :: x in StableSort(s, less) <==> x in s
  {
    SortKeepsElements(s, less);
    forall x ensures x in StableSort(s, less) <==> x in s {
      assert x in multiset(StableSort(s, less)) <==> x in multiset(s);
    }
  }

  ghost predicate Distinct<T>(s: seq<T>) {
    forall i, j :: 0 <= i < j < |s| ==> s[i] != s[j]
  }

  lemma {:induction false} InsertKeepsDistinct<T>(s: seq<T>, x: T, less: (T, T) -> bool)
    requires Distinct(s) && x !in s
    ensures Distinct(Insert(s, x, less))
    ensures forall y :: y in Insert(s, x, less) <==> y in s || y == x
  {
    if s != [] && less(x, s[|s| - 1]) {
      InsertKeepsDistinct(s[..|s| - 1], x, less);
      assert s == s[..|s| - 1] + [s[|s| - 1]];
      assert s[|s| - 1] !in Insert(s[..|s| - 1], x, less);
    }
  }

  lemma {:induction false} SortKeepsDistinct<T>(s: seq<T>, less: (T, T) -> bool)
    requires Distinct(s)
    ensures Distinct(StableSort(s, less))
  {
    if s != [] {
      SortKeepsDistinct(s[..|s| - 1], less);
      SortKeepsMembers(s[..|s| - 1], less);
      InsertKeepsDistinct(StableSort(s[..|s| - 1], less), s[|s| - 1], less);
    }
  }

  lemma {:induction false} InsertKeepsOrder<T>(s: seq<T>, x: T, less: (T, T) -> bool)
    requires StrictWeakOn(less, s + [x]) && Sorted(s, less)
    ensures Sorted(Insert(s, x, less), less)
  {
    if s != [] && less(x, s[|s| - 1]) {
      var init, last := s[..|s| - 1], s[|s| - 1];
      assert last in s + [x] && x in s + [x] && forall y :: y in init + [x] ==> y in s + [x];
      InsertKeepsOrder(init, x, less);
      InsertKeepsElements(init, x, less);
      var r := Insert(init, x, less);
      forall i | 0 <= i < |r| ensures !less(last, r[i]) {
        assert r[i] in multiset(r);
        assert r[i] == x || r[i] in init;
      }
    } else {
      AppendKeepsOrder(s, x, less);
    }
  }

  lemma AppendKeepsOrder<T>(s: seq<T>, x: T, less: (T, T) -> bool)
    requires StrictWeakOn(less, s + [x]) && Sorted(s, less) && (s == [] || !less(x, s[|s| - 1]))
    ensures Sorted(s + [x], less)
  {
    forall i | 0 <= i < |s| ensures !less(x, s[i]) {
      var last := s[|s| - 1];
      assert s[i] in s + [x] && last in s + [x] && x in s + [x];
      assert i < |s| - 1 ==> !less(last, s[i]);
    }
  }

  lemma {:induction false} SortOrdersOn<T>(s: seq<T>, less: (T, T) -> bool)
    requires StrictWeakOn(less, s)
    ensures Sorted(StableSort(s, less), less)
  {
    if s != [] {
      var init, last := s[..|s| - 1], s[|s| - 1];
      assert s == init + [last];
      SortOrdersOn(init, less);
      SortKeepsElements(init, less);
      forall y | y in StableSort(init, less) + [last] ensures y in s {
        if y in StableSort(init, less) {
          assert y in multiset(StableSort(init, less)) && y in multiset(init);
        }
      }
      InsertKeepsOrder(StableSort(init, less), last, less);
    }
  }

  lemma SortOrders<T(!new)>(s: seq<T>, less: (T, T) -> bool)
    requires StrictWeakOrder(less)
    ensures Sorted(StableSort(s, less), less)
  {
    SortOrdersOn(s, less);
  }

  /** Elements that tie may change places. */
  lemma TiesMaySwap<T(!new)>(s: seq<T>, i: nat, j: nat, less: (T, T) -> bool)
    requires StrictWeakOrder(less) && Sorted(s, less) && i < j < |s| && !less(s[i], s[j])
    ensures Sorted(s[i := s[j]][j := s[i]], less)
  {
    var x, y := s[i], s[j];
    forall k | 0 <= k < |s| ensures less(s[k], x) == less(s[k], y) && less(x, s[k]) == less(y, s[k]) {
      assert !less(y, x);
    }
    var r := s[i := y][j := x];
    forall a, b | 0 <= a < b < |s| ensures !less(r[b], r[a]) {
      assert !less(s[b], s[a]);
      assert i < a < j ==> !less(s[a], x) && !less(y, s[a]);
      assert i < b < j ==> !less(s[b], x) && !less(y, s[b]);
    }
  }

  ghost predicate StrictlySorted<T>(s: seq<T>, less: (T, T) -> bool) {
    forall i, j :: 0 <= i < j < |s| ==> less(s[i], s[j])
  }

  lemma LastIsGreatest<T(!new)>(s: seq<T>, x: T, less: (T, T) -> bool)
    requires StrictWeakOrder(less) && StrictlySorted(s, less) && x in s
    ensures x == s[|s| - 1] || less(x, s[|s| - 1])
    ensures x in s[..|s| - 1] <==> x != s[|s| - 1]
  {
    var i :| 0 <= i < |s| && s[i] == x;
    if i < |s| - 1 {
      assert less(x, s[|s| - 1]) && s[..|s| - 1][i] == x;
    } else {
      assert forall j :: 0 <= j < |s| - 1 ==> less(s[j], x) && s[j] != x;
    }
  }

  ghost predicate SameMembers<T(!new)>(a: seq<T>, b: seq<T>) { forall x :: x in a <==> x in b }

  lemma HasMembers<T>(s: seq<T>)
    ensures s == [] || exists x :: x in s
  {
    if s != [] { assert s[0] in s; }
  }

  /** A strictly sorted list is determined by what it holds. */
  lemma {:induction false} StrictlySortedIsUnique<T(!new)>(a: seq<T>, b: seq<T>, less: (T, T) -> bool)
    requires StrictWeakOrder(less) && StrictlySorted(a, less) && StrictlySorted(b, less) && SameMembers(a, b)
    ensures a == b
  {
    HasMembers(a);
    HasMembers(b);
    if a != [] {
      var x, y := a[|a| - 1], b[|b| - 1];
      assert x in a && y in b;
      LastIsGreatest(a, y, less);
      LastIsGreatest(b, x, less);
      assert x == y;
      SameInits(a, b, less);
      StrictlySortedIsUnique(a[..|a| - 1], b[..|b| - 1], less);
      assert a == a[..|a| - 1] + [x] && b == b[..|b| - 1] + [y];
    }
  }

  lemma SameInits<T(!new)>(a: seq<T>, b: seq<T>, less: (T, T) -> bool)
    requires StrictWeakOrder(less) && StrictlySorted(a, less) && StrictlySorted(b, less)
    requires a != [] && b != [] && a[|a| - 1] == b[|b| - 1] && SameMembers(a, b)
    ensures SameMembers(a[..|a| - 1], b[..|b| - 1])
  {
    var a', b' := a[..|a| - 1], b[..|b| - 1];
    forall x ensures x in a' <==> x in b' {
      if x in a {
        LastIsGreatest(a, x, less);
        LastIsGreatest(b, x, less);
      }
      assert (x in a' ==> x in a) && (x in b' ==> x in b);
    }
  }

  lemma {:induction false} InsertIsStable<T(!new)>(s: seq<T>, x: T, less: (T, T) -> bool, p: T -> bool)
    requires forall a, b :: p(a) && p(b) ==> !less(a, b)
    ensures Pick(Insert(s, x, less), p) == Pick(s, p) + if p(x) then [x] else []
  {
    if s == [] || !less(x, s[|s| - 1]) {
      assert (s + [x])[..|s|] == s;
    } else {
      InsertIsStable(s[..|s| - 1], x, less, p);
      var r := Insert(s[..|s| - 1], x, less);
      assert (r + [s[|s| - 1]])[..|r|] == r;
    }
  }

  /** Elements that tie under less keep the order they came in. */
  lemma {:induction false} SortIsStable<T(!new)>(s: seq<T>, less: (T, T) -> bool, p: T -> bool)
    requires forall a, b :: p(a) && p(b) ==> !less(a, b)
    ensures Pick(StableSort(s, less), p) == Pick(s, p)
  {
    if s != [] {
      SortIsStable(s[..|s| - 1], less, p);
      InsertIsStable(StableSort(s[..|s| - 1], less), s[|s| - 1], less, p);
    }
  }
}
