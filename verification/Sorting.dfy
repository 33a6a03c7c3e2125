/**
 Stable sorting by an arbitrary comparison.  JavaScript's `sort` is stable; here it is insertion
 sort, and every stable sort is proved to give the same result.
 */
module Sorting {
  import opened Sequences

  /** What a comparison must be for sorting to make sense: asymmetric, and ties form classes. */
  ghost predicate IsStrictWeakOrder<T(!new)>(before: (T, T) -> bool) {
    && (forall x, y :: before(x, y) ==> !before(y, x))
    && (forall x, y, z :: before(x, y) ==> before(x, z) || before(z, y))
  }

  /** Insertion after all elements that the new one does not come before. */
  function Place<T>(sorted: seq<T>, x: T, before: (T, T) -> bool): (placed: seq<T>)
    ensures |placed| == |sorted| + 1
  {
    if sorted != [] && before(x, Last(sorted)) then Place(Init(sorted), x, before) + [Last(sorted)] else sorted + [x]
  }

  function StableSort<T>(s: seq<T>, before: (T, T) -> bool): (sorted: seq<T>)
    ensures |sorted| == |s|
  {
    if s == [] then [] else Place(StableSort(Init(s), before), Last(s), before)
  }

  ghost predicate IsOrdered<T>(s: seq<T>, before: (T, T) -> bool) {
    forall i, j :: 0 <= i < j < |s| ==> !before(s[j], s[i])
  }

  /** The elements that tie with `x`, in order. */
  function Ties<T(!new)>(s: seq<T>, x: T, before: (T, T) -> bool): seq<T> {
    Filter(s, y => !before(x, y) && !before(y, x))
  }

  /** What a stable sort promises: the result is ordered and keeps the order of elements that tie. */
  ghost predicate IsStableSort<T(!new)>(s: seq<T>, sorted: seq<T>, before: (T, T) -> bool) {
    IsOrdered(sorted, before) && forall x :: Ties(sorted, x, before) == Ties(s, x, before)
  }

  lemma {:induction false} PlaceContents<T>(sorted: seq<T>, x: T, before: (T, T) -> bool)
    ensures multiset(Place(sorted, x, before)) == multiset(sorted) + multiset{x}
    decreases |sorted|
  {
    if sorted != [] {
      assert sorted == Init(sorted) + [Last(sorted)];
      PlaceContents(Init(sorted), x, before);
    }
  }

  lemma {:induction false} SortContents<T(!new)>(s: seq<T>, before: (T, T) -> bool)
    ensures multiset(StableSort(s, before)) == multiset(s)
    ensures forall x :: x in StableSort(s, before) <==> x in s
    decreases |s|
  {
    hide Place;
    if s != [] {
      assert s == Init(s) + [Last(s)];
      SortContents(Init(s), before);
      PlaceContents(StableSort(Init(s), before), Last(s), before);
    }
    forall x ensures x in StableSort(s, before) <==> x in s {
      assert x in multiset(StableSort(s, before)) <==> x in multiset(s);
    }
  }

  lemma {:induction false} OrderedAppends<T(!new)>(s: seq<T>, x: T, before: (T, T) -> bool)
    requires IsOrdered(s, before) && forall y :: y in s ==> !before(x, y)
    ensures IsOrdered(s + [x], before)
  {
    var longer := s + [x];
    forall i, j | 0 <= i < j < |longer| ensures !before(longer[j], longer[i]) {
      assert longer[i] == s[i] && s[i] in s;
    }
  }

  lemma {:induction false} OrderedSplits<T(!new)>(s: seq<T>, before: (T, T) -> bool)
    requires s != [] && IsOrdered(s, before)
    ensures IsOrdered(Init(s), before)
    ensures forall y :: y in Init(s) ==> !before(Last(s), y)
  {
  }

  lemma {:induction false} PlaceKeepsOrder<T(!new)>(sorted: seq<T>, x: T, before: (T, T) -> bool)
    requires IsStrictWeakOrder(before) && IsOrdered(sorted, before)
    ensures IsOrdered(Place(sorted, x, before), before)
    decreases |sorted|
  {
    hide IsOrdered;
    if sorted == [] {
      NothingToOrder(x, before);
    } else {
      var init, last := Init(sorted), Last(sorted);
      OrderedSplits(sorted, before);
      assert sorted == init + [last];
      if before(x, last) {
        PlaceKeepsOrder(init, x, before);
        PlaceContents(init, x, before);
        forall y | y in Place(init, x, before) ensures !before(last, y) {
          assert y in multiset(Place(init, x, before));
        }
        OrderedAppends(Place(init, x, before), last, before);
      } else {
        OrderedAppends(sorted, x, before);
      }
    }
  }

  lemma {:induction false} NothingToOrder<T>(x: T, before: (T, T) -> bool)
    ensures IsOrdered([], before) && IsOrdered([] + [x], before)
  {
  }

  lemma {:induction false} TiesAppend<T(!new)>(s: seq<T>, x: T, y: T, before: (T, T) -> bool)
    ensures Ties(s + [x], y, before) == Ties(s, y, before) + if !before(y, x) && !before(x, y) then [x] else []
  {
    FilterAppends(s, x, z => !before(y, z) && !before(z, y));
  }

  lemma {:induction false} TiesAre<T(!new)>(s: seq<T>, x: T, before: (T, T) -> bool, p: T -> bool)
    requires forall y :: y in s ==> (p(y) <==> !before(x, y) && !before(y, x))
    ensures Ties(s, x, before) == Filter(s, p)
  {
    SameFilter(s, y => !before(x, y) && !before(y, x), p);
  }

  lemma {:induction false} PlaceKeepsTies<T(!new)>(sorted: seq<T>, x: T, y: T, before: (T, T) -> bool)
    requires IsStrictWeakOrder(before)
    ensures Ties(Place(sorted, x, before), y, before) == Ties(sorted + [x], y, before)
    decreases |sorted|
  {
    hide Ties;
    if sorted != [] && before(x, Last(sorted)) {
      var init, last := Init(sorted), Last(sorted);
      assert sorted == init + [last];
      PlaceKeepsTies(init, x, y, before);
      TiesAppend(Place(init, x, before), last, y, before);
      TiesAppend(init, x, y, before);
      TiesAppend(init, last, y, before);
      TiesAppend(sorted, x, y, before);
    }
  }

  lemma {:induction false} SortIsStable<T(!new)>(s: seq<T>, before: (T, T) -> bool)
    requires IsStrictWeakOrder(before)
    ensures IsStableSort(s, StableSort(s, before), before)
    decreases |s|
  {
    hide Place;
    if s != [] {
      hide Ties;
      var init, last := Init(s), Last(s);
      var sorted := StableSort(init, before);
      assert s == init + [last];
      SortIsStable(init, before);
      PlaceKeepsOrder(sorted, last, before);
      forall y ensures Ties(Place(sorted, last, before), y, before) == Ties(s, y, before) {
        PlaceKeepsTies(sorted, last, y, before);
        TiesAppend(sorted, last, y, before);
        TiesAppend(init, last, y, before);
      }
    }
  }

  /** Two ordered lists with the same ties are the same list. */
  lemma {:induction false} OrderedIsDetermined<T(!new)>(a: seq<T>, b: seq<T>, before: (T, T) -> bool)
    requires IsStrictWeakOrder(before) && IsOrdered(a, before) && IsOrdered(b, before)
    requires forall x :: Ties(a, x, before) == Ties(b, x, before)
    ensures a == b
    decreases |a|
  {
    hide IsOrdered;
    hide IsStrictWeakOrder;
    hide Ties;
    SameEmptiness(a, b, before);
    if a != [] {
      SameLast(a, b, before);
      var last := Last(a);
      assert a == Init(a) + [last] && b == Init(b) + [last];
      OrderedSplits(a, before);
      OrderedSplits(b, before);
      forall x ensures Ties(Init(a), x, before) == Ties(Init(b), x, before) {
        TiesAppend(Init(a), last, x, before);
        TiesAppend(Init(b), last, x, before);
        assert Ties(a, x, before) == Ties(b, x, before);
        SameTail(Ties(Init(a), x, before), Ties(Init(b), x, before), if !before(x, last) && !before(last, x) then [last] else []);
      }
      OrderedIsDetermined(Init(a), Init(b), before);
    }
  }

  lemma {:induction false} SameTail<T>(s: seq<T>, t: seq<T>, tail: seq<T>)
    requires s + tail == t + tail
    ensures s == t
  {
    assert s == (s + tail)[..|s|] && t == (t + tail)[..|t|];
  }

  lemma {:induction false} SameEmptiness<T(!new)>(a: seq<T>, b: seq<T>, before: (T, T) -> bool)
    requires IsStrictWeakOrder(before)
    requires forall x :: Ties(a, x, before) == Ties(b, x, before)
    ensures a == [] <==> b == []
  {
    forall y ensures y in a <==> y in b {
      assert Ties(a, y, before) == Ties(b, y, before);
      assert y in Ties(a, y, before) <==> y in a;
    }
    assert a != [] ==> a[0] in b;
    assert b != [] ==> b[0] in a;
  }

  lemma {:induction false} SameLast<T(!new)>(a: seq<T>, b: seq<T>, before: (T, T) -> bool)
    requires IsStrictWeakOrder(before) && IsOrdered(a, before) && IsOrdered(b, before)
    requires a != [] && b != [] && forall x :: Ties(a, x, before) == Ties(b, x, before)
    ensures Last(a) == Last(b)
  {
    var x, y := Last(a), Last(b);
    LastTies(a, x, b, before);
    LastTies(b, y, a, before);
    hide Ties;
    assert a == Init(a) + [x] && b == Init(b) + [y];
    assert !before(x, x);
    TiesAppend(Init(a), x, x, before);
    TiesAppend(Init(b), y, x, before);
    assert Last(Ties(a, x, before)) == x && Last(Ties(b, x, before)) == y;
  }

  /** The last of an ordered list comes before no element of a list with the same ties. */
  lemma {:induction false} LastTies<T(!new)>(a: seq<T>, x: T, b: seq<T>, before: (T, T) -> bool)
    requires IsStrictWeakOrder(before) && IsOrdered(a, before) && a != [] && x == Last(a)
    requires forall y :: Ties(a, y, before) == Ties(b, y, before)
    ensures forall y :: y in b ==> !before(x, y)
  {
    OrderedSplits(a, before);
    hide IsOrdered;
    forall y | y in b ensures !before(x, y) {
      assert y in Ties(b, y, before) && Ties(a, y, before) == Ties(b, y, before);
      assert a == Init(a) + [x];
    }
  }

  /** Insertion sort is a stable sort, and there is no other. */
  lemma {:induction false} StableSortIsUnique<T(!new)>(s: seq<T>, sorted: seq<T>, before: (T, T) -> bool)
    requires IsStrictWeakOrder(before)
    ensures IsStableSort(s, sorted, before) <==> sorted == StableSort(s, before)
  {
    SortIsStable(s, before);
    hide StableSort;
    hide Ties;
    hide IsOrdered;
    if IsStableSort(s, sorted, before) {
      OrderedIsDetermined(sorted, StableSort(s, before), before);
    }
  }

  lemma {:induction false} SortedPair<T>(x: T, y: T, before: (T, T) -> bool)
    requires !before(y, x)
    ensures StableSort([x, y], before) == [x, y]
  {
    assert Init([x, y]) == [x] && Init([x]) == [];
    assert StableSort([x], before) == [] + [x];
    assert [x] + [y] == [x, y];
  }
}
