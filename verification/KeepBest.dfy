/**
 Removing duplicates from an insertion-ordered map while keeping the best item per key.  Pending
 items (src/analysis/dataExtractor.ts), gaps (src/analysis/gapAnalyzer.ts) and normalized records
 (scripts/etl/merge.ts) go through the same loop with different keys and ranks.
 */
module KeepBest {

  /** The position of the earliest best item of its key. */
  ghost predicate IsEarliestBest<T>(items: seq<T>, key: T -> string, rank: T -> real, m: nat) {
    && m < |items|
    && (forall j :: 0 <= j < |items| && key(items[j]) == key(items[m]) ==> rank(items[j]) <= rank(items[m]))
    && (forall j :: 0 <= j < m && key(items[j]) == key(items[m]) ==> rank(items[j]) < rank(items[m]))
  }

  ghost predicate IsFirstOfKey<T>(items: seq<T>, key: T -> string, m: nat) {
    m < |items| && forall j :: 0 <= j < m ==> key(items[j]) != key(items[m])
  }

  /**
   `firsts` are the positions where a key appears for the first time, in order and without
   omission; `bests` are the positions of the earliest best items of those keys.
   */
  ghost predicate IsSelection<T>(items: seq<T>, key: T -> string, rank: T -> real, firsts: seq<nat>, bests: seq<nat>) {
    && |firsts| == |bests|
    && Ascending(firsts)
    && (forall i :: 0 <= i < |firsts| ==> IsFirstOfKey(items, key, firsts[i]))
    && (forall m :: IsFirstOfKey(items, key, m) ==> m in firsts)
    && (forall i :: 0 <= i < |bests| ==>
          IsEarliestBest(items, key, rank, bests[i]) && key(items[bests[i]]) == key(items[firsts[i]]))
  }

  lemma {:induction false} FirstExists<T>(items: seq<T>, key: T -> string, m: nat) returns (f: nat)
    requires m < |items|
    ensures f <= m && IsFirstOfKey(items, key, f) && key(items[f]) == key(items[m])
    decreases m
  {
    f := m;
    if j :| 0 <= j < m && key(items[j]) == key(items[m]) {
      f := FirstExists(items, key, j);
    }
  }

  /** The selection is unique: keys, order and items are all determined by the input. */
  lemma {:induction false} SelectionIsUnique<T>(
    items: seq<T>, key: T -> string, rank: T -> real, f: seq<nat>, b: seq<nat>, f': seq<nat>, b': seq<nat>)
    requires IsSelection(items, key, rank, f, b) && IsSelection(items, key, rank, f', b')
    ensures f == f' && b == b'
  {
    assert Elements(f) == Elements(f') by {
      assert forall m :: m in f <==> IsFirstOfKey(items, key, m);
      assert forall m :: m in f' <==> IsFirstOfKey(items, key, m);
    }
    SameAscending(f, f');
    forall i | 0 <= i < |b| ensures b[i] == b'[i] {
      assert IsEarliestBest(items, key, rank, b[i]) && IsEarliestBest(items, key, rank, b'[i]);
    }
  }

  ghost predicate Ascending(f: seq<nat>) {
    forall i, j :: 0 <= i < j < |f| ==> f[i] < f[j]
  }

  ghost function Elements(f: seq<nat>): (s: set<nat>)
    ensures s == {} <==> f == []
  {
    var s := set m | m in f;
    assert f != [] ==> f[0] in s;
    s
  }

  lemma {:induction false} SameAscending(f: seq<nat>, g: seq<nat>)
    requires Ascending(f) && Ascending(g) && Elements(f) == Elements(g)
    ensures f == g
    decreases |f|
  {
    hide *;
    if f != [] {
      LastIsGreatest(f);
    }
    if g != [] {
      LastIsGreatest(g);
    }
    if f != [] && g != [] {
      SameAscending(f[..|f| - 1], g[..|g| - 1]);
      assert f == f[..|f| - 1] + [f[|f| - 1]] && g == g[..|g| - 1] + [g[|g| - 1]];
    }
  }

  lemma {:induction false} LastIsGreatest(f: seq<nat>)
    requires f != [] && Ascending(f)
    ensures Ascending(f[..|f| - 1])
    ensures f[|f| - 1] in Elements(f) && forall m :: m in Elements(f) ==> m <= f[|f| - 1]
    ensures Elements(f[..|f| - 1]) == Elements(f) - {f[|f| - 1]}
  {
    var init, last := f[..|f| - 1], f[|f| - 1];
    forall m ensures m in Elements(init) <==> m in Elements(f) && m != last {
      assert m in f <==> m in init || m == last;
    }
  }

  /** The loop: a Map from key to item, replaced only by a strictly better one; `order` is the Map's insertion order. */
  method KeepBest<T>(items: seq<T>, key: T -> string, rank: T -> real)
    returns (unique: seq<T>, duplicates: nat, ghost firsts: seq<nat>, ghost bests: seq<nat>)
    ensures IsSelection(items, key, rank, firsts, bests)
    ensures |unique| == |bests| && forall i :: 0 <= i < |unique| ==> unique[i] == items[bests[i]]
    ensures duplicates == |items| - |unique|
  {
    hide IsSelection;
    unique, duplicates, firsts, bests := [], 0, [], [];
    EmptySelection(key, rank);
    for n := 0 to |items|
      invariant |unique| == |bests| && IsSelection(items[..n], key, rank, firsts, bests)
      invariant forall i :: 0 <= i < |unique| ==> bests[i] < n && unique[i] == items[bests[i]]
      invariant duplicates == n - |unique|
    {
      var item := items[n];
      var k := Find(unique, key, key(item));
      if k < |unique| {
        duplicates := duplicates + 1;
        SelectionWithOld(items[..n], item, key, rank, firsts, bests, k);
        if rank(item) > rank(unique[k]) {
          unique := unique[k := item];
          bests := bests[k := n];
        }
      } else {
        SelectionWithNew(items[..n], item, key, rank, firsts, bests);
        unique := unique + [item];
        firsts, bests := firsts + [n], bests + [n];
      }
      assert items[..n] + [item] == items[..n + 1];
    }
    assert items[..|items|] == items;
  }

  lemma {:induction false} EmptySelection<T>(key: T -> string, rank: T -> real)
    ensures IsSelection([], key, rank, [], [])
  {
  }

  /** Position of the entry with the key, or the number of entries. */
  method Find<T>(unique: seq<T>, key: T -> string, k: string) returns (i: nat)
    ensures i <= |unique|
    ensures i < |unique| ==> key(unique[i]) == k
    ensures forall j :: 0 <= j < i ==> key(unique[j]) != k
  {
    i := 0;
    while i < |unique| && key(unique[i]) != k
      invariant i <= |unique| && forall j :: 0 <= j < i ==> key(unique[j]) != k
    {
      i := i + 1;
    }
  }

  lemma {:induction false} SelectionWithOld<T>(items: seq<T>, item: T, key: T -> string, rank: T -> real, firsts: seq<nat>, bests: seq<nat>, k: nat)
    requires IsSelection(items, key, rank, firsts, bests)
    requires k < |bests| && key(items[bests[k]]) == key(item)
    ensures var better := rank(item) > rank(items[bests[k]]);
            IsSelection(items + [item], key, rank, firsts, if better then bests[k := |items|] else bests)
  {
    var all, b := items + [item], if rank(item) > rank(items[bests[k]]) then bests[k := |items|] else bests;
    forall m ensures IsFirstOfKey(all, key, m) <==> IsFirstOfKey(items, key, m) {
      assert all[bests[k]] == items[bests[k]];
      assert forall j :: 0 <= j < |items| ==> all[j] == items[j];
    }
    forall i | 0 <= i < |b| ensures IsEarliestBest(all, key, rank, b[i]) && key(all[b[i]]) == key(all[firsts[i]]) {
      assert forall j :: 0 <= j < |items| ==> all[j] == items[j];
      assert IsEarliestBest(items, key, rank, bests[i]);
      assert IsFirstOfKey(items, key, firsts[i]) && IsFirstOfKey(items, key, firsts[k]);
      assert i != k ==> key(items[firsts[i]]) != key(items[firsts[k]]) by {
        assert i < k ==> firsts[i] < firsts[k];
        assert k < i ==> firsts[k] < firsts[i];
      }
    }
  }

  lemma {:induction false} SelectionWithNew<T>(items: seq<T>, item: T, key: T -> string, rank: T -> real, firsts: seq<nat>, bests: seq<nat>)
    requires IsSelection(items, key, rank, firsts, bests)
    requires forall i :: 0 <= i < |bests| ==> key(items[bests[i]]) != key(item)
    ensures IsSelection(items + [item], key, rank, firsts + [|items|], bests + [|items|])
  {
    var all := items + [item];
    KeyIsNew(items, item, key, rank, firsts, bests);
    FirstsAfterNew(items, item, key);
    EarliestBestAfterNew(items, item, key, rank);
    hide IsFirstOfKey;
    hide IsEarliestBest;
    forall m | IsFirstOfKey(all, key, m) ensures m in firsts + [|items|] {
      assert IsFirstOfKey(items, key, m) || m == |items|;
    }
    forall i | 0 <= i < |bests| ensures IsEarliestBest(all, key, rank, bests[i]) && key(all[bests[i]]) == key(all[firsts[i]]) {
      assert IsEarliestBest(items, key, rank, bests[i]) && IsFirstOfKey(items, key, firsts[i]);
      SelectionIndex(items, key, rank, firsts[i], bests[i]);
    }
    forall i | 0 <= i < |firsts| ensures IsFirstOfKey(all, key, firsts[i]) && firsts[i] < |items| {
      assert IsFirstOfKey(items, key, firsts[i]);
      SelectionIndex(items, key, rank, firsts[i], bests[i]);
    }
  }

  lemma {:induction false} SelectionIndex<T>(items: seq<T>, key: T -> string, rank: T -> real, f: nat, b: nat)
    requires IsFirstOfKey(items, key, f) && IsEarliestBest(items, key, rank, b)
    ensures f < |items| && b < |items|
  {
  }

  lemma {:induction false} KeyIsNew<T>(items: seq<T>, item: T, key: T -> string, rank: T -> real, firsts: seq<nat>, bests: seq<nat>)
    requires IsSelection(items, key, rank, firsts, bests)
    requires forall i :: 0 <= i < |bests| ==> key(items[bests[i]]) != key(item)
    ensures forall j :: 0 <= j < |items| ==> key(items[j]) != key(item)
  {
    forall j | 0 <= j < |items| ensures key(items[j]) != key(item) {
      var f := FirstExists(items, key, j);
      var i :| 0 <= i < |firsts| && firsts[i] == f;
      assert key(items[bests[i]]) == key(items[f]);
    }
  }

  lemma {:induction false} FirstsAfterNew<T>(items: seq<T>, item: T, key: T -> string)
    requires forall j :: 0 <= j < |items| ==> key(items[j]) != key(item)
    ensures forall m :: IsFirstOfKey(items + [item], key, m) <==> IsFirstOfKey(items, key, m) || m == |items|
  {
    assert forall j :: 0 <= j < |items| ==> (items + [item])[j] == items[j];
  }

  lemma {:induction false} EarliestBestAfterNew<T>(items: seq<T>, item: T, key: T -> string, rank: T -> real)
    requires forall j :: 0 <= j < |items| ==> key(items[j]) != key(item)
    ensures forall m :: IsEarliestBest(items, key, rank, m) ==> IsEarliestBest(items + [item], key, rank, m)
    ensures IsEarliestBest(items + [item], key, rank, |items|)
  {
    assert forall j :: 0 <= j < |items| ==> (items + [item])[j] == items[j];
  }
}
