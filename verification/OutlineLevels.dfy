/**
 Index arithmetic behind the outline parser: the parent of an entry is the nearest earlier entry
 of a smaller level, and the entries between an entry and the end of its subtree are exactly its
 descendants.
 */
module OutlineLevels {
  import opened Text

  /** The largest index up to j whose level is below `level`, or -1. */
  function Nearest(levels: seq<nat>, j: int, level: nat): (p: int)
    requires -1 <= j < |levels|
    ensures -1 <= p <= j
    ensures p >= 0 ==> levels[p] < level
    ensures forall m :: p < m <= j ==> levels[m] >= level
    decreases j
  {
    if j < 0 then -1 else if levels[j] < level then j else Nearest(levels, j - 1, level)
  }

  function ParentOf(levels: seq<nat>, k: nat): (p: int)
    requires k < |levels|
    ensures -1 <= p < k
  {
    Nearest(levels, k - 1, levels[k])
  }

  /** The indices from lo to hi (exclusive) whose parent is p, in order. */
  function Kids(levels: seq<nat>, lo: nat, hi: nat, p: int): (ks: seq<nat>)
    requires lo <= hi <= |levels|
    ensures forall i :: 0 <= i < |ks| ==> lo <= ks[i] < hi
    decreases hi
  {
    if lo == hi then []
    else Kids(levels, lo, hi - 1, p) + if ParentOf(levels, hi - 1) == p then [hi - 1] else []
  }

  /** Popping an entry that is not below `level` skips only entries that are not below it either. */
  lemma {:induction false} NearestSkips(levels: seq<nat>, j: int, p: int, level: nat)
    requires -1 <= p <= j < |levels|
    requires forall m :: p < m <= j ==> levels[m] >= level
    ensures Nearest(levels, j, level) == Nearest(levels, p, level)
    decreases j
  {
    if p < j {
      NearestSkips(levels, j - 1, p, level);
    }
  }

  lemma {:induction false} NearestInPrefix(levels: seq<nat>, more: seq<nat>, j: int, level: nat)
    requires -1 <= j < |levels|
    ensures Nearest(levels + more, j, level) == Nearest(levels, j, level)
    decreases j
  {
    if j >= 0 {
      NearestInPrefix(levels, more, j - 1, level);
    }
  }

  lemma {:induction false} KidsInPrefix(levels: seq<nat>, more: seq<nat>, lo: nat, hi: nat, p: int)
    requires lo <= hi <= |levels|
    ensures Kids(levels + more, lo, hi, p) == Kids(levels, lo, hi, p)
    decreases hi
  {
    if lo < hi {
      NearestInPrefix(levels, more, hi - 2, levels[hi - 1]);
      KidsInPrefix(levels, more, lo, hi - 1, p);
    }
  }

  /** Adding an entry adds it to the children of its parent and to no others. */
  lemma {:induction false} KidsAfterAppend(levels: seq<nat>, level: nat, p: int)
    ensures Kids(levels + [level], 0, |levels| + 1, p) ==
            Kids(levels, 0, |levels|, p) + if Nearest(levels, |levels| - 1, level) == p then [|levels|] else []
  {
    KidsInPrefix(levels, [level], 0, |levels|, p);
    NearestInPrefix(levels, [level], |levels| - 1, level);
  }

  lemma {:induction false} KidsSplit(levels: seq<nat>, lo: nat, mid: nat, hi: nat, p: int)
    requires lo <= mid <= hi <= |levels|
    ensures Kids(levels, lo, hi, p) == Kids(levels, lo, mid, p) + Kids(levels, mid, hi, p)
    decreases hi
  {
    if mid < hi {
      KidsSplit(levels, lo, mid, hi - 1, p);
    }
  }

  lemma {:induction false} NoKids(levels: seq<nat>, lo: nat, hi: nat, p: int)
    requires lo <= hi <= |levels|
    requires forall k :: lo <= k < hi ==> ParentOf(levels, k) != p
    ensures Kids(levels, lo, hi, p) == []
    decreases hi
  {
    if lo < hi {
      NoKids(levels, lo, hi - 1, p);
    }
  }

  /** The entries lo..hi are whole subtrees of children of p (or of roots, for p = -1). */
  ghost predicate IsSegment(levels: seq<nat>, p: int, lo: nat, hi: nat) {
    && -1 <= p < lo <= hi <= |levels|
    && (forall j :: lo <= j < hi ==> p < 0 || levels[p] < levels[j])
    && (lo < hi ==> forall j :: p < j < lo ==> levels[j] >= levels[lo])
    && (hi < |levels| ==> forall j :: lo <= j < hi ==> levels[hi] <= levels[j])
  }

  /** The first subtree of a segment, [lo, end), and what is left, [end, hi), are segments again. */
  lemma {:induction false} SegmentParts(levels: seq<nat>, p: int, lo: nat, end: nat, hi: nat)
    requires IsSegment(levels, p, lo, hi) && lo < end <= hi
    requires forall j :: lo < j < end ==> levels[j] > levels[lo]
    requires end < hi ==> levels[end] <= levels[lo]
    ensures IsSegment(levels, lo, lo + 1, end)
    ensures IsSegment(levels, p, end, hi)
  {
  }

  lemma {:induction false} ParentsAroundSegment(levels: seq<nat>, p: int, lo: nat, end: nat, hi: nat)
    requires IsSegment(levels, p, lo, hi) && lo < end <= hi
    requires forall j :: lo < j < end ==> levels[j] > levels[lo]
    requires end < hi ==> levels[end] <= levels[lo]
    ensures ParentOf(levels, lo) == p
    ensures forall k :: lo < k < end ==> ParentOf(levels, k) >= lo
    ensures forall k :: end <= k < |levels| ==> ParentOf(levels, k) != lo
  {
    forall k | end <= k < |levels| ensures ParentOf(levels, k) != lo {
      assert levels[end] <= levels[lo];
    }
  }

  lemma {:induction false} KidsOfSegment(levels: seq<nat>, p: int, lo: nat, end: nat, hi: nat)
    requires IsSegment(levels, p, lo, hi) && lo < end <= hi
    requires forall j :: lo < j < end ==> levels[j] > levels[lo]
    requires end < hi ==> levels[end] <= levels[lo]
    ensures Kids(levels, lo, hi, p) == [lo] + Kids(levels, end, hi, p)
    ensures Kids(levels, 0, |levels|, lo) == Kids(levels, lo + 1, end, lo)
  {
    ParentsAroundSegment(levels, p, lo, end, hi);
    hide *;
    KidsBesideFirst(levels, p, lo, end, hi);
    KidsWithin(levels, lo, end);
  }

  lemma {:induction false} KidsBesideFirst(levels: seq<nat>, p: int, lo: nat, end: nat, hi: nat)
    requires -1 <= p < lo < end <= hi <= |levels| && ParentOf(levels, lo) == p
    requires forall k :: lo < k < end ==> ParentOf(levels, k) >= lo
    ensures Kids(levels, lo, hi, p) == [lo] + Kids(levels, end, hi, p)
  {
    hide *;
    OneKid(levels, lo, p);
    KidsSplit(levels, lo, lo + 1, hi, p);
    KidsSplit(levels, lo + 1, end, hi, p);
    NoKids(levels, lo + 1, end, p);
  }

  lemma {:induction false} KidsWithin(levels: seq<nat>, lo: nat, end: nat)
    requires lo < end <= |levels|
    requires forall k :: end <= k < |levels| ==> ParentOf(levels, k) != lo
    ensures Kids(levels, 0, |levels|, lo) == Kids(levels, lo + 1, end, lo)
  {
    hide *;
    KidsSplit(levels, 0, lo + 1, |levels|, lo);
    KidsSplit(levels, lo + 1, end, |levels|, lo);
    NoKids(levels, 0, lo + 1, lo);
    NoKids(levels, end, |levels|, lo);
  }

  lemma {:induction false} OneKid(levels: seq<nat>, k: nat, p: int)
    requires k < |levels| && ParentOf(levels, k) == p
    ensures Kids(levels, k, k + 1, p) == [k]
  {
    assert Kids(levels, k, k, p) == [];
  }
}
