/**
 The three places that keep the best item per key: pending items (src/analysis/dataExtractor.ts),
 gaps (src/analysis/gapAnalyzer.ts) and normalized records (scripts/etl/merge.ts).
 */
module Dedupe {
  import opened Sequences
  import opened TaskGraph
  import opened Phases
  import KeepBest
  import Merge

  /** A higher priority has a higher rank. */
  function Rank(p: Priority): real {
    -(PriorityRank(p) as real)
  }

  lemma {:induction false} RankIff(p: Priority, q: Priority)
    ensures Rank(p) > Rank(q) <==> MoreUrgent(p, q)
  {
  }

  datatype PendingItem = PendingItem(id: string, description: string, category: string, priority: Priority)

  datatype Gap = Gap(id: string, title: string, category: string, priority: Priority)

  /** `unique` holds, for each key in order of first appearance, the earliest item of highest rank. */
  ghost predicate KeepsBest<T>(items: seq<T>, key: T -> string, rank: T -> real, unique: seq<T>) {
    exists firsts, bests ::
      && KeepBest.IsSelection(items, key, rank, firsts, bests)
      && |unique| == |bests| && forall i :: 0 <= i < |unique| ==> unique[i] == items[bests[i]]
  }

  /** Two lists that keep the best items of the same input are equal. */
  lemma {:induction false} KeptItemsAreUnique<T>(items: seq<T>, key: T -> string, rank: T -> real, a: seq<T>, b: seq<T>)
    requires KeepsBest(items, key, rank, a) && KeepsBest(items, key, rank, b)
    ensures a == b
  {
    var f, m :| KeepBest.IsSelection(items, key, rank, f, m)
                && |a| == |m| && forall i :: 0 <= i < |a| ==> a[i] == items[m[i]];
    var f', m' :| KeepBest.IsSelection(items, key, rank, f', m')
                  && |b| == |m'| && forall i :: 0 <= i < |b| ==> b[i] == items[m'[i]];
    KeepBest.SelectionIsUnique(items, key, rank, f, m, f', m');
  }

  /** Each kept item is the first of its key, and the only one kept, that no other item of the key is better than. */
  lemma {:induction false} KeptIsBest<T>(items: seq<T>, key: T -> string, rank: T -> real, unique: seq<T>, i: nat) returns (m: nat)
    requires KeepsBest(items, key, rank, unique) && i < |unique|
    ensures m < |items| && unique[i] == items[m]
    ensures forall j :: 0 <= j < |items| && key(items[j]) == key(items[m]) ==>
                          !(rank(items[j]) > rank(items[m])) && (j < m ==> rank(items[m]) > rank(items[j]))
  {
    var firsts, bests :| KeepBest.IsSelection(items, key, rank, firsts, bests)
                         && |unique| == |bests| && forall i :: 0 <= i < |unique| ==> unique[i] == items[bests[i]];
    m := bests[i];
  }

  /** A kept gap is at least as urgent as every gap of its title, and more urgent than the earlier ones. */
  lemma {:induction false} KeptGapIsMostUrgent(gaps: seq<Gap>, normalize: string -> string, unique: seq<Gap>, i: nat) returns (m: nat)
    requires KeepsBest(gaps, (g: Gap) => normalize(g.title), (g: Gap) => Rank(g.priority), unique) && i < |unique|
    ensures m < |gaps| && unique[i] == gaps[m]
    ensures forall j :: 0 <= j < |gaps| && normalize(gaps[j].title) == normalize(gaps[m].title) ==>
              !MoreUrgent(gaps[j].priority, gaps[m].priority) && (j < m ==> MoreUrgent(gaps[m].priority, gaps[j].priority))
  {
    m := KeptIsBest(gaps, (g: Gap) => normalize(g.title), (g: Gap) => Rank(g.priority), unique, i);
    forall p, q ensures Rank(p) > Rank(q) <==> MoreUrgent(p, q) {
      RankIff(p, q);
    }
    hide Rank;
    hide MoreUrgent;
  }

  /** A kept item is at least as urgent as every item of its description, and more urgent than the earlier ones. */
  lemma {:induction false} KeptItemIsMostUrgent(items: seq<PendingItem>, normalize: string -> string, unique: seq<PendingItem>, i: nat)
    returns (m: nat)
    requires KeepsBest(items, (t: PendingItem) => normalize(t.description), (t: PendingItem) => Rank(t.priority), unique) && i < |unique|
    ensures m < |items| && unique[i] == items[m]
    ensures forall j :: 0 <= j < |items| && normalize(items[j].description) == normalize(items[m].description) ==>
              !MoreUrgent(items[j].priority, items[m].priority) && (j < m ==> MoreUrgent(items[m].priority, items[j].priority))
  {
    m := KeptIsBest(items, (t: PendingItem) => normalize(t.description), (t: PendingItem) => Rank(t.priority), unique, i);
    forall p, q ensures Rank(p) > Rank(q) <==> MoreUrgent(p, q) {
      RankIff(p, q);
    }
    hide Rank;
    hide MoreUrgent;
  }

  /** `normalize` is lower-casing and trimming. */
  method ExtractPendingItems(reports: seq<seq<PendingItem>>, normalize: string -> string) returns (unique: seq<PendingItem>)
    ensures KeepsBest(Flatten(reports), (i: PendingItem) => normalize(i.description), (i: PendingItem) => Rank(i.priority), unique)
  {
    var items: seq<PendingItem> := [];
    for r := 0 to |reports|
      invariant items == Flatten(reports[..r])
    {
      assert Init(reports[..r + 1]) == reports[..r];
      items := items + reports[r];
    }
    assert reports[..|reports|] == reports;
    var duplicates;
    ghost var firsts, bests;
    unique, duplicates, firsts, bests :=
      KeepBest.KeepBest(items, (i: PendingItem) => normalize(i.description), (i: PendingItem) => Rank(i.priority));
  }

  method DeduplicateGaps(gaps: seq<Gap>, normalize: string -> string) returns (unique: seq<Gap>)
    ensures KeepsBest(gaps, (g: Gap) => normalize(g.title), (g: Gap) => Rank(g.priority), unique)
  {
    var duplicates;
    ghost var firsts, bests;
    unique, duplicates, firsts, bests :=
      KeepBest.KeepBest(gaps, (g: Gap) => normalize(g.title), (g: Gap) => Rank(g.priority));
  }

  function RecordKey(r: Merge.NormalizedRecord): string {
    r.bin + "_" + Merge.OrNull(Merge.GetFieldValue(r, Merge.CountryCode)).GetOr("XX")
  }

  /** The country code that a record gives, "XX" if it gives none. */
  function CountryOrXX(r: Merge.NormalizedRecord): string {
    if Merge.CountryCode in r.values && r.values[Merge.CountryCode].Str? && r.values[Merge.CountryCode].text != ""
    then r.values[Merge.CountryCode].text else "XX"
  }

  /** Two records are repetitions exactly if they agree in BIN and country code, none counting as "XX". */
  lemma {:induction false} SameRecordKeyIff(r: Merge.NormalizedRecord, s: Merge.NormalizedRecord)
    requires '_' !in r.bin && '_' !in s.bin
    ensures RecordKey(r) == RecordKey(s) <==> r.bin == s.bin && CountryOrXX(r) == CountryOrXX(s)
  {
    var x, y := r.bin + "_" + CountryOrXX(r), s.bin + "_" + CountryOrXX(s);
    assert RecordKey(r) == x && RecordKey(s) == y;
    if x == y {
      FirstUnderscore(r.bin, CountryOrXX(r), s.bin, CountryOrXX(s));
    }
  }

  lemma {:induction false} FirstUnderscore(a: string, x: string, b: string, y: string)
    requires '_' !in a && '_' !in b && a + "_" + x == b + "_" + y
    ensures a == b && x == y
  {
    var s, t := a + "_" + x, b + "_" + y;
    assert s[|a|] == '_' && t[|b|] == '_';
    assert forall i :: 0 <= i < |a| ==> s[i] == a[i];
    assert forall i :: 0 <= i < |b| ==> t[i] == b[i];
    assert s[..|a|] == a && t[..|b|] == b && s[|a| + 1..] == x && t[|b| + 1..] == y;
  }

  /** Records are dropped exactly for repeated keys; the most confident record of a key stays. */
  method DeduplicateRecords(records: seq<Merge.NormalizedRecord>) returns (unique: seq<Merge.NormalizedRecord>, duplicates: nat)
    ensures KeepsBest(records, RecordKey, (r: Merge.NormalizedRecord) => r.confidence, unique)
    ensures duplicates == |records| - |unique|
  {
    ghost var firsts, bests;
    unique, duplicates, firsts, bests := KeepBest.KeepBest(records, RecordKey, (r: Merge.NormalizedRecord) => r.confidence);
  }
}
