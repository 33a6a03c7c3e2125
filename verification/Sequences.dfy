/** Vocabulary shared by all modules. */
module Sequences {

  datatype Option<+T> = None | Some(value: T)
  {
    function GetOr(default: T): T {
      if Some? then value else default
    }
  }

  /** All elements but the last. */
  function Init<T>(s: seq<T>): (init: seq<T>)
    requires s != []
    ensures |init| == |s| - 1
  {
    s[..|s| - 1]
  }

  function Last<T>(s: seq<T>): T
    requires s != []
  {
    s[|s| - 1]
  }

  function Flatten<T>(parts: seq<seq<T>>): seq<T> {
    if parts == [] then [] else Flatten(Init(parts)) + Last(parts)
  }

  lemma {:induction false} FlattenAppends<T>(parts: seq<seq<T>>, part: seq<T>)
    ensures Flatten(parts + [part]) == Flatten(parts) + part
  {
    assert Init(parts + [part]) == parts;
  }

  /** One part after another, each once and in its own order. */
  lemma {:induction false} FlattenOfParts<T>(a: seq<seq<T>>, b: seq<seq<T>>, part: seq<T>)
    ensures Flatten([part]) == part && Flatten(a + b) == Flatten(a) + Flatten(b)
    decreases |b|
  {
    hide Flatten;
    NothingToFlatten<T>();
    FlattenAppends([], part);
    assert [] + [part] == [part] && [] + part == part;
    if b == [] {
      assert a + b == a && Flatten(a) + [] == Flatten(a);
    } else {
      FlattenOfParts(a, Init(b), part);
      FlattenAppends(a + Init(b), Last(b));
      FlattenAppends(Init(b), Last(b));
      assert a + b == (a + Init(b)) + [Last(b)] && b == Init(b) + [Last(b)];
      Associative(Flatten(a), Flatten(Init(b)), Last(b));
    }
  }

  lemma {:induction false} NothingToFlatten<T>()
    ensures Flatten<T>([]) == []
  {
  }

  function Min(x: nat, y: nat): nat {
    if x < y then x else y
  }

  function Max(x: nat, y: nat): nat {
    if x < y then y else x
  }

  /** The elements that satisfy `p`, in order. */
  function Filter<T(!new)>(s: seq<T>, p: T -> bool): (r: seq<T>)
    ensures |r| <= |s|
    ensures forall x :: x in r <==> x in s && p(x)
  {
    if s == [] then [] else Filter(Init(s), p) + if p(Last(s)) then [Last(s)] else []
  }

  lemma {:induction false} FilterAppends<T(!new)>(s: seq<T>, x: T, p: T -> bool)
    ensures Filter(s + [x], p) == Filter(s, p) + if p(x) then [x] else []
  {
    assert Init(s + [x]) == s;
  }

  lemma {:induction false} SameFilter<T(!new)>(s: seq<T>, p: T -> bool, q: T -> bool)
    requires forall x :: x in s ==> p(x) == q(x)
    ensures Filter(s, p) == Filter(s, q)
    decreases |s|
  {
    if s != [] {
      SameFilter(Init(s), p, q);
    }
  }

  lemma {:induction false} Associative<T>(a: seq<T>, b: seq<T>, c: seq<T>)
    ensures a + (b + c) == (a + b) + c
  {
  }

  lemma {:induction false} FilterSum<T(!new)>(s: seq<T>, t: seq<T>, p: T -> bool)
    ensures Filter(s + t, p) == Filter(s, p) + Filter(t, p)
    decreases |t|
  {
    hide Filter;
    if t == [] {
      NothingToFilter(p);
      assert s + t == s && Filter(s, p) + [] == Filter(s, p);
    } else {
      FilterSum(s, Init(t), p);
      FilterSumGrows(s, Init(t), Last(t), p);
      assert t == Init(t) + [Last(t)] && s + t == (s + Init(t)) + [Last(t)];
    }
  }

  lemma {:induction false} NothingToFilter<T(!new)>(p: T -> bool)
    ensures Filter([], p) == []
  {
  }

  lemma {:induction false} FilterSumGrows<T(!new)>(s: seq<T>, t: seq<T>, x: T, p: T -> bool)
    requires Filter(s + t, p) == Filter(s, p) + Filter(t, p)
    ensures Filter((s + t) + [x], p) == Filter(s, p) + Filter(t + [x], p)
  {
    hide Filter;
    FilterAppends(s + t, x, p);
    FilterAppends(t, x, p);
    Associative(Filter(s, p), Filter(t, p), if p(x) then [x] else []);
  }

  /** Filtering what `p` leaves by a predicate that is the same for all of that keeps all of it or nothing. */
  lemma {:induction false} FilterTwice<T(!new)>(s: seq<T>, p: T -> bool, q: T -> bool, same: bool)
    requires forall x :: p(x) ==> q(x) == same
    ensures Filter(Filter(s, p), q) == if same then Filter(s, p) else []
    decreases |s|
  {
    hide Filter;
    if s == [] {
      NothingToFilter(p);
      NothingToFilter(q);
    } else {
      var init, last := Init(s), Last(s);
      FilterTwice(init, p, q, same);
      assert s == init + [last];
      FilterAppends(init, last, p);
      if p(last) {
        FilterAppends(Filter(init, p), last, q);
      } else {
        assert Filter(init, p) + [] == Filter(init, p);
      }
    }
  }

  /** `at` lists the positions of the elements that satisfy `p`, in order. */
  ghost predicate ArePositions<T>(at: seq<nat>, s: seq<T>, p: T -> bool) {
    && (forall i, j :: 0 <= i < j < |at| ==> at[i] < at[j])
    && (forall k :: k in at <==> 0 <= k < |s| && p(s[k]))
  }

  /** Filtering takes the elements at those positions. */
  lemma {:induction false} FilterIs<T(!new)>(s: seq<T>, p: T -> bool) returns (at: seq<nat>)
    ensures ArePositions(at, s, p) && |at| == |Filter(s, p)|
    ensures forall i :: 0 <= i < |at| ==> at[i] < |s| && Filter(s, p)[i] == s[at[i]]
    decreases |s|
  {
    hide ArePositions;
    at := [];
    if s == [] {
      NoPositions(p);
    } else {
      at := FilterIs(Init(s), p);
      NextPosition(at, s, p);
      if p(Last(s)) {
        at := at + [|s| - 1];
      }
    }
  }

  lemma {:induction false} NoPositions<T>(p: T -> bool)
    ensures ArePositions([], [], p)
  {
  }

  lemma {:induction false} NextPosition<T>(at: seq<nat>, s: seq<T>, p: T -> bool)
    requires s != [] && ArePositions(at, Init(s), p)
    ensures ArePositions(if p(Last(s)) then at + [|s| - 1] else at, s, p)
  {
    var init, n := Init(s), |s| - 1;
    var next := if p(Last(s)) then at + [n] else at;
    forall i | 0 <= i < |at| ensures at[i] < n {
      assert at[i] in at;
    }
    forall k ensures k in next <==> 0 <= k < |s| && p(s[k]) {
      assert k in next <==> k in at || (p(Last(s)) && k == n);
      assert 0 <= k < n ==> init[k] == s[k];
    }
  }

  /** Between neighbouring positions, and before the first, no element satisfies `p`. */
  lemma {:induction false} NothingBetween<T>(at: seq<nat>, s: seq<T>, p: T -> bool, m: nat)
    requires ArePositions(at, s, p) && m < |at|
    ensures at[m] < |s| && p(s[at[m]])
    ensures m == 0 ==> forall l :: 0 <= l < at[m] ==> !p(s[l])
    ensures m > 0 ==> at[m - 1] < at[m] && p(s[at[m - 1]]) && forall l :: at[m - 1] < l < at[m] ==> !p(s[l])
  {
    assert at[m] in at;
    var from := if m == 0 then 0 else at[m - 1] + 1;
    assert m > 0 ==> at[m - 1] in at;
    forall l | from <= l < at[m] ensures !p(s[l]) {
      if l in at {
        var n :| 0 <= n < |at| && at[n] == l;
        NoPositionBetween(at, m, n);
      }
    }
  }

  lemma {:induction false} PositionOf<T>(at: seq<nat>, s: seq<T>, p: T -> bool, k: nat) returns (m: nat)
    requires ArePositions(at, s, p) && k < |s| && p(s[k])
    ensures m < |at| && at[m] == k
  {
    m :| m < |at| && at[m] == k;
  }

  lemma {:induction false} NoPositionBetween(at: seq<nat>, m: nat, n: nat)
    requires (forall i, j :: 0 <= i < j < |at| ==> at[i] < at[j]) && m < |at| && n < |at|
    ensures at[n] < at[m] ==> m > 0 && at[n] <= at[m - 1]
  {
  }

  ghost predicate IsDistinct<T>(s: seq<T>) {
    forall i, j :: 0 <= i < j < |s| ==> s[i] != s[j]
  }
}
