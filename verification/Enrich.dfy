/**
 Filling gaps from a remote lookup, capped and cached (scripts/etl/enrich-binlist.ts).
 */
module Enrich {
  import opened Sequences

  datatype Field = Scheme | Brand | CardType | Issuer | Country | CountryCode | Url | Phone | City

  /** Field values; an absent field is null. */
  type Values = map<Field, string>

  /** What one lookup brings: values, the answer that the BIN is unknown, or an error. */
  datatype Lookup = Found(data: Values) | Unknown | Failed

  /** What the cache keeps of a lookup; a failed one leaves no data. */
  datatype CacheEntry = CacheEntry(data: Option<Values>, failed: bool)

  type Cache = map<string, CacheEntry>

  datatype Options = Options(enrichLimit: int, onlyIfMissing: bool)

  // ---------- one record ----------

  predicate Present(v: Values, f: Field) {
    f in v && v[f] != ""
  }

  function NonEmpty(v: Values): (r: Values)
    ensures forall f :: f in r <==> Present(v, f)
    ensures forall f :: f in r ==> f in v && r[f] == v[f]
  {
    map f | f in v && v[f] != "" :: v[f]
  }

  /** Apply only missing fields. */
  function Fill(v: Values, data: Values): Values {
    NonEmpty(data) + NonEmpty(v)
  }

  /** The fields whose absence makes a record worth a lookup. */
  const WANTED: set<Field> := {Issuer, Url, Phone, City, Country, Scheme, Brand}

  predicate ShouldEnrich(v: Values) {
    exists f :: f in WANTED && !Present(v, f)
  }

  /** A record: its field values, and the values that enrichments have noted as their provenance. */
  datatype Item = Item(bin: string, values: Values, provenance: seq<Values>)

  predicate Eligible(item: Item, o: Options) {
    o.onlyIfMissing ==> ShouldEnrich(item.values)
  }

  /** The record after its lookup brought `data`. */
  function Enriched(item: Item, data: Option<Values>): Item {
    if data.None? then item
    else
      var filled := Fill(item.values, data.value);
      if filled == item.values then item else Item(item.bin, filled, item.provenance + [filled])
  }

  // ---------- the loop on values ----------

  datatype Counts = Counts(enriched: nat, attempted: nat, cacheHits: nat, errors: nat)

  datatype State = State(items: seq<Item>, cache: Cache, counts: Counts, fetched: seq<string>)

  /** The cache entry that a lookup leaves. */
  function Entry(l: Lookup): CacheEntry {
    match l
    case Found(data) => CacheEntry(Some(data), false)
    case Unknown => CacheEntry(None, false)
    case Failed => CacheEntry(None, true)
  }

  /** One turn of the loop on its record; `remote` answers the lookup of a BIN after a given number of earlier ones. */
  datatype Turn = Turn(item: Item, cache: Cache, counts: Counts, fetched: seq<string>)

  function VisitItem(t: Turn, o: Options, remote: (string, nat) -> Lookup): Turn {
    var item, c := t.item, t.counts;
    if c.attempted >= o.enrichLimit || !Eligible(item, o) then t
    else if item.bin in t.cache then
      var after := Enriched(item, t.cache[item.bin].data);
      Turn(after, t.cache,
           Counts(c.enriched + (if after == item then 0 else 1), c.attempted + 1, c.cacheHits + 1, c.errors), t.fetched)
    else
      var entry := Entry(remote(item.bin, |t.fetched|));
      var after := Enriched(item, entry.data);
      Turn(after, t.cache[item.bin := entry],
           Counts(c.enriched + (if after == item then 0 else 1), c.attempted + 1, c.cacheHits,
                  c.errors + (if entry.failed then 1 else 0)),
           t.fetched + [item.bin])
  }

  function Visit(s: State, i: nat, o: Options, remote: (string, nat) -> Lookup): State
    requires i < |s.items|
  {
    var t := VisitItem(Turn(s.items[i], s.cache, s.counts, s.fetched), o, remote);
    State(s.items[i := t.item], t.cache, t.counts, t.fetched)
  }

  /** The state after the first n turns. */
  function Run(items: seq<Item>, cache: Cache, n: nat, o: Options, remote: (string, nat) -> Lookup): (s: State)
    requires n <= |items|
    ensures |s.items| == |items|
  {
    if n == 0 then State(items, cache, Counts(0, 0, 0, 0), [])
    else Visit(Run(items, cache, n - 1, o, remote), n - 1, o, remote)
  }

  // ---------- the loop on records ----------

  class MergedRecord {
    const bin: string
    var values: Values
    var provenance: seq<Values>

    constructor (bin: string, values: Values)
      ensures Value() == Item(bin, values, [])
    {
      this.bin := bin;
      this.values := values;
      provenance := [];
    }

    function Value(): Item
      reads this
    {
      Item(bin, values, provenance)
    }

    method Apply(data: Option<Values>) returns (changed: bool)
      modifies this
      ensures Value() == Enriched(old(Value()), data)
      ensures changed <==> Value() != old(Value())
    {
      if data.None? { return false; }
      var before := values;
      values := Fill(values, data.value);
      changed := values != before;
      if changed {
        provenance := provenance + [values];
      }
    }
  }

  function ItemsOf(records: seq<MergedRecord>): (items: seq<Item>)
    reads records
    ensures |items| == |records| && forall i :: 0 <= i < |records| ==> items[i] == records[i].Value()
  {
    if records == [] then [] else ItemsOf(records[..|records| - 1]) + [records[|records| - 1].Value()]
  }

  lemma {:induction false} ItemsAre(records: seq<MergedRecord>, items: seq<Item>)
    requires |items| == |records| && forall i :: 0 <= i < |records| ==> items[i] == records[i].Value()
    ensures ItemsOf(records) == items
  {
  }

  /** What the loop does with one record. */
  method EnrichRecord(record: MergedRecord, cache: Cache, counts: Counts, ghost fetched: seq<string>, lookups: nat,
                      o: Options, remote: (string, nat) -> Lookup)
    returns (cache': Cache, counts': Counts, ghost fetched': seq<string>, lookups': nat)
    requires lookups == |fetched|
    modifies record
    ensures Turn(record.Value(), cache', counts', fetched') ==
            VisitItem(Turn(old(record.Value()), cache, counts, fetched), o, remote)
    ensures lookups' == |fetched'|
  {
    cache', counts', fetched', lookups' := cache, counts, fetched, lookups;
    if counts.attempted >= o.enrichLimit { return; }
    if o.onlyIfMissing && !ShouldEnrich(record.values) { return; }
    var data: Option<Values>;
    var hits, errors := counts.cacheHits, counts.errors;
    if record.bin in cache {
      hits := hits + 1;
      data := cache[record.bin].data;
    } else {
      var entry := Entry(remote(record.bin, lookups));
      lookups' := lookups + 1;
      fetched' := fetched + [record.bin];
      cache' := cache[record.bin := entry];
      data := entry.data;
      if entry.failed {
        errors := errors + 1;
      }
    }
    var changed := record.Apply(data);
    counts' := Counts(if changed then counts.enriched + 1 else counts.enriched, counts.attempted + 1, hits, errors);
  }

  /** The records are distinct objects, as merging makes them. */
  method EnrichWithBinlist(records: seq<MergedRecord>, cache: Cache, o: Options, remote: (string, nat) -> Lookup)
    returns (cache': Cache, counts: Counts, ghost fetched: seq<string>)
    requires forall i, j :: 0 <= i < j < |records| ==> records[i] != records[j]
    modifies records
    ensures State(ItemsOf(records), cache', counts, fetched) == Run(old(ItemsOf(records)), cache, |records|, o, remote)
  {
    hide VisitItem;
    cache', counts, fetched := cache, Counts(0, 0, 0, 0), [];
    ghost var before := ItemsOf(records);
    var lookups := 0;
    for i := 0 to |records|
      invariant State(ItemsOf(records), cache', counts, fetched) == Run(before, cache, i, o, remote)
      invariant lookups == |fetched|
    {
      ghost var items := ItemsOf(records);
      cache', counts, fetched, lookups := EnrichRecord(records[i], cache', counts, fetched, lookups, o, remote);
      ItemsAre(records, items[i := records[i].Value()]);
    }
  }

  // ---------- what a run promises ----------

  /** Counters: each attempt is a cache hit or a lookup, and is counted as enriched or failed at most once. */
  lemma {:induction false} CountsAddUp(items: seq<Item>, cache: Cache, n: nat, o: Options, remote: (string, nat) -> Lookup)
    requires n <= |items|
    ensures var s := Run(items, cache, n, o, remote);
            && s.counts.attempted <= (if o.enrichLimit < 0 then 0 else o.enrichLimit)
            && s.counts.attempted <= n
            && s.counts.cacheHits + |s.fetched| == s.counts.attempted
            && s.counts.enriched + s.counts.errors <= s.counts.attempted
    decreases n
  {
    hide Fill;
    if n > 0 {
      CountsAddUp(items, cache, n - 1, o, remote);
    }
  }

  /** The positions of the records that differ. */
  function Changed(before: seq<Item>, after: seq<Item>): set<nat>
    requires |before| == |after|
  {
    set i | 0 <= i < |before| && after[i] != before[i]
  }

  /** The reported number of enriched records is the number of records that changed, so it keeps within the limit. */
  lemma {:induction false} EnrichedAreChanged(items: seq<Item>, cache: Cache, n: nat, o: Options, remote: (string, nat) -> Lookup)
    requires n <= |items|
    ensures var s := Run(items, cache, n, o, remote);
            && s.counts.enriched == |Changed(items, s.items)| <= s.counts.attempted
            && s.counts.attempted <= (if o.enrichLimit < 0 then 0 else o.enrichLimit)
            && (forall i :: n <= i < |items| ==> s.items[i] == items[i])
    decreases n
  {
    hide Visit;
    RunUnfolds(items, cache, n, o, remote);
    CountsAddUp(items, cache, n, o, remote);
    if n == 0 {
      assert Changed(items, items) == {};
    } else {
      EnrichedAreChanged(items, cache, n - 1, o, remote);
      VisitCountsChange(items, Run(items, cache, n - 1, o, remote), n - 1, o, remote);
    }
  }

  lemma {:induction false} VisitCountsChange(items: seq<Item>, s: State, i: nat, o: Options, remote: (string, nat) -> Lookup)
    requires |s.items| == |items| && i < |items| && s.items[i] == items[i]
    requires s.counts.enriched == |Changed(items, s.items)|
    ensures var after := Visit(s, i, o, remote);
            && after.counts.enriched == |Changed(items, after.items)|
            && forall j :: 0 <= j < |items| && j != i ==> after.items[j] == s.items[j]
  {
    hide Enriched;
    hide Eligible;
    hide Entry;
    var after := Visit(s, i, o, remote);
    if after.items[i] == items[i] {
      assert Changed(items, after.items) == Changed(items, s.items);
    } else {
      assert Changed(items, after.items) == Changed(items, s.items) + {i};
    }
  }

  /** No BIN is looked up twice, and none that the cache already knows; every lookup, failed ones included, is cached for good. */
  lemma {:induction false} LookupsAreNew(items: seq<Item>, cache: Cache, n: nat, o: Options, remote: (string, nat) -> Lookup)
    requires n <= |items|
    ensures var s := Run(items, cache, n, o, remote);
            && (forall b :: b in cache ==> b in s.cache && s.cache[b] == cache[b])
            && (forall b :: b in s.cache <==> b in cache || b in s.fetched)
            && (forall b :: b in s.fetched ==> b !in cache)
            && IsDistinct(s.fetched)
    decreases n
  {
    hide VisitItem;
    hide IsDistinct;
    RunUnfolds(items, cache, n, o, remote);
    if n > 0 {
      LookupsAreNew(items, cache, n - 1, o, remote);
      var s := Run(items, cache, n - 1, o, remote);
      VisitLooksUp(s, n - 1, o, remote);
      if s.items[n - 1].bin !in s.cache {
        DistinctAppends(s.fetched, s.items[n - 1].bin);
      }
    }
  }

  lemma {:induction false} RunUnfolds(items: seq<Item>, cache: Cache, n: nat, o: Options, remote: (string, nat) -> Lookup)
    requires n <= |items|
    ensures n == 0 ==> Run(items, cache, n, o, remote) == State(items, cache, Counts(0, 0, 0, 0), []) && IsDistinct<string>([])
    ensures n > 0 ==> Run(items, cache, n, o, remote) == Visit(Run(items, cache, n - 1, o, remote), n - 1, o, remote)
  {
    hide Visit;
  }

  lemma {:induction false} DistinctAppends(bins: seq<string>, b: string)
    requires IsDistinct(bins) && b !in bins
    ensures IsDistinct(bins + [b])
  {
  }

  /** One turn either leaves cache and lookups alone, or looks up a BIN that the cache did not know. */
  lemma {:induction false} VisitLooksUp(s: State, i: nat, o: Options, remote: (string, nat) -> Lookup)
    requires i < |s.items|
    ensures var after, b := Visit(s, i, o, remote), s.items[i].bin;
            || (after.cache == s.cache && after.fetched == s.fetched)
            || (b !in s.cache && after.fetched == s.fetched + [b]
                && after.cache == s.cache[b := Entry(remote(b, |s.fetched|))])
  {
    hide Enriched;
    hide Eligible;
    hide Entry;
  }

  /** Across two runs that share the cache, whatever their records, nothing is looked up twice. */
  lemma {:induction false} RunsShareLookups(items: seq<Item>, items': seq<Item>, cache: Cache, o: Options, o': Options,
                         remote: (string, nat) -> Lookup, remote': (string, nat) -> Lookup)
    ensures var first := Run(items, cache, |items|, o, remote);
            var second := Run(items', first.cache, |items'|, o', remote');
            forall b :: b in first.fetched ==> b !in second.fetched
  {
    hide Run;
    LookupsAreNew(items, cache, |items|, o, remote);
    var first := Run(items, cache, |items|, o, remote);
    LookupsAreNew(items', first.cache, |items'|, o', remote');
  }

  /** The record as it will be once the cache holds the answer for its BIN. */
  function Outcome(item: Item, cache: Cache, o: Options): Item {
    if Eligible(item, o) && item.bin in cache then Enriched(item, cache[item.bin].data) else item
  }

  function EligibleCount(items: seq<Item>, n: nat, o: Options): nat
    requires n <= |items|
  {
    if n == 0 then 0 else EligibleCount(items, n - 1, o) + if Eligible(items[n - 1], o) then 1 else 0
  }

  /** What a run has made of the records before `stop` and left alone from there on. */
  ghost predicate IsOutcome(s: State, items: seq<Item>, stop: nat, o: Options) {
    && stop <= |items| == |s.items|
    && (forall i :: 0 <= i < stop ==> s.items[i] == Outcome(items[i], s.cache, o))
    && (forall i :: 0 <= i < stop && Eligible(items[i], o) ==> items[i].bin in s.cache)
    && (forall i :: stop <= i < |items| ==> s.items[i] == items[i])
    && s.counts.attempted == EligibleCount(items, stop, o)
  }

  /**
   Main result: there is a point up to which every record has become what the final cache makes of
   it, and from which on no record was touched; before the end of the list only if the limit was
   reached.
   */
  lemma {:induction false} RunIsOutcome(items: seq<Item>, cache: Cache, n: nat, o: Options, remote: (string, nat) -> Lookup)
    returns (stop: nat)
    requires n <= |items|
    ensures stop <= n && IsOutcome(Run(items, cache, n, o, remote), items, stop, o)
    ensures stop < n ==> Run(items, cache, n, o, remote).counts.attempted >= o.enrichLimit
    decreases n
  {
    hide Visit;
    hide IsOutcome;
    RunUnfolds(items, cache, n, o, remote);
    if n == 0 {
      stop := 0;
      NothingVisited(items, cache, o);
    } else {
      stop := RunIsOutcome(items, cache, n - 1, o, remote);
      stop := VisitIsOutcome(Run(items, cache, n - 1, o, remote), items, stop, n - 1, o, remote);
    }
  }

  lemma {:induction false} NothingVisited(items: seq<Item>, cache: Cache, o: Options)
    ensures IsOutcome(State(items, cache, Counts(0, 0, 0, 0), []), items, 0, o)
  {
  }

  lemma {:induction false} VisitIsOutcome(s: State, items: seq<Item>, stop: nat, i: nat, o: Options, remote: (string, nat) -> Lookup)
    returns (stop': nat)
    requires IsOutcome(s, items, stop, o) && stop <= i < |items|
    requires stop < i ==> s.counts.attempted >= o.enrichLimit
    ensures stop' <= i + 1 && IsOutcome(Visit(s, i, o, remote), items, stop', o)
    ensures stop' <= i ==> Visit(s, i, o, remote).counts.attempted >= o.enrichLimit
  {
    hide Enriched;
    hide Eligible;
    hide Entry;
    if s.counts.attempted >= o.enrichLimit {
      stop' := stop;
      assert s.items[i := s.items[i]] == s.items;
    } else {
      stop' := i + 1;
    }
  }

  // ---------- the same, field by field ----------

  /** A record is passed over only if lookups are for gaps and none of these seven fields is missing. */
  predicate IsComplete(item: Item, o: Options) {
    && o.onlyIfMissing
    && forall f :: f in {Issuer, Url, Phone, City, Country, Scheme, Brand} ==> f in item.values && item.values[f] != ""
  }

  lemma {:induction false} EligibleIff(item: Item, o: Options)
    ensures Eligible(item, o) <==> !IsComplete(item, o)
  {
  }

  /** Each field keeps its value; failing that, takes the data's; failing that, is null. */
  ghost predicate IsFilled(before: Values, data: Values, after: Values) {
    forall f ::
      if f in before && before[f] != "" then f in after && after[f] == before[f]
      else if f in data && data[f] != "" then f in after && after[f] == data[f]
      else f !in after
  }

  lemma {:induction false} FillIff(before: Values, data: Values, after: Values)
    ensures after == Fill(before, data) <==> IsFilled(before, data, after)
  {
    if IsFilled(before, data, after) {
      assert forall f :: f in after <==> f in Fill(before, data);
    }
  }

  /** What a cached answer makes of a record: filled fields, and their provenance noted if anything changed. */
  ghost predicate IsEnriched(before: Item, answer: CacheEntry, after: Item) {
    if answer.data == None then after == before
    else
      && after.bin == before.bin
      && IsFilled(before.values, answer.data.value, after.values)
      && after.provenance == before.provenance + if after.values == before.values then [] else [after.values]
  }

  lemma {:induction false} EnrichedIff(before: Item, answer: CacheEntry, after: Item)
    ensures after == Enriched(before, answer.data) <==> IsEnriched(before, answer, after)
  {
    if answer.data.Some? {
      FillIff(before.values, answer.data.value, after.values);
      assert before.provenance + [] == before.provenance;
    }
  }

  /** The answer to a lookup as the cache holds it: data, no data, or an error without data. */
  predicate IsAnswer(l: Lookup, entry: CacheEntry) {
    && (l.Found? ==> entry.data == Some(l.data) && !entry.failed)
    && (l.Unknown? ==> entry.data == None && !entry.failed)
    && (l.Failed? ==> entry.data == None && entry.failed)
  }

  /** The lookups that failed, by number. */
  function FailedLookups(fetched: seq<string>, remote: (string, nat) -> Lookup): set<nat> {
    set k | 0 <= k < |fetched| && remote(fetched[k], k).Failed?
  }

  /** The cache holds the remote's answer to every lookup. */
  ghost predicate AreAnswered(fetched: seq<string>, cache: Cache, remote: (string, nat) -> Lookup) {
    forall k :: 0 <= k < |fetched| ==> fetched[k] in cache && IsAnswer(remote(fetched[k], k), cache[fetched[k]])
  }

  /** Every lookup is cached with the remote's answer, and the errors are the failed lookups. */
  lemma {:induction false} LookupsAreCached(items: seq<Item>, cache: Cache, n: nat, o: Options, remote: (string, nat) -> Lookup)
    requires n <= |items|
    ensures var s := Run(items, cache, n, o, remote);
            AreAnswered(s.fetched, s.cache, remote) && s.counts.errors == |FailedLookups(s.fetched, remote)|
    decreases n
  {
    hide Visit;
    RunUnfolds(items, cache, n, o, remote);
    if n == 0 {
      assert FailedLookups([], remote) == {};
    } else {
      hide AreAnswered;
      hide FailedLookups;
      LookupsAreCached(items, cache, n - 1, o, remote);
      var s := Run(items, cache, n - 1, o, remote);
      VisitLooksUp(s, n - 1, o, remote);
      VisitErrors(s, n - 1, o, remote);
      if s.items[n - 1].bin !in s.cache {
        NextAnswer(s.fetched, s.cache, s.items[n - 1].bin, remote);
        NextFailure(s.fetched, s.items[n - 1].bin, remote);
      }
    }
  }

  lemma {:induction false} VisitErrors(s: State, i: nat, o: Options, remote: (string, nat) -> Lookup)
    requires i < |s.items|
    ensures var after := Visit(s, i, o, remote);
            after.counts.errors ==
            s.counts.errors + if after.fetched != s.fetched && remote(s.items[i].bin, |s.fetched|).Failed? then 1 else 0
  {
    hide Enriched;
    hide Eligible;
  }

  lemma {:induction false} NextAnswer(fetched: seq<string>, cache: Cache, b: string, remote: (string, nat) -> Lookup)
    requires b !in cache && AreAnswered(fetched, cache, remote)
    ensures AreAnswered(fetched + [b], cache[b := Entry(remote(b, |fetched|))], remote)
  {
    hide IsAnswer;
    assert IsAnswer(remote(b, |fetched|), Entry(remote(b, |fetched|))) by { EntryIsAnswer(remote(b, |fetched|)); }
  }

  lemma {:induction false} EntryIsAnswer(l: Lookup)
    ensures IsAnswer(l, Entry(l))
  {
  }

  lemma {:induction false} NextFailure(fetched: seq<string>, b: string, remote: (string, nat) -> Lookup)
    ensures |FailedLookups(fetched + [b], remote)| == |FailedLookups(fetched, remote)| + if remote(b, |fetched|).Failed? then 1 else 0
  {
    assert FailedLookups(fetched + [b], remote) ==
           FailedLookups(fetched, remote) + if remote(b, |fetched|).Failed? then {|fetched|} else {};
  }

  /** The records among the first n that a run does not pass over. */
  function Incomplete(items: seq<Item>, n: nat, o: Options): set<nat>
    requires n <= |items|
  {
    set i | 0 <= i < n && !IsComplete(items[i], o)
  }

  lemma {:induction false} EligibleCountIs(items: seq<Item>, n: nat, o: Options)
    requires n <= |items|
    ensures EligibleCount(items, n, o) == |Incomplete(items, n, o)|
    decreases n
  {
    hide IsComplete;
    hide Eligible;
    if n == 0 {
      assert Incomplete(items, n, o) == {};
    } else {
      EligibleCountIs(items, n - 1, o);
      EligibleIff(items[n - 1], o);
      assert Incomplete(items, n, o) == Incomplete(items, n - 1, o) + if IsComplete(items[n - 1], o) then {} else {n - 1};
    }
  }

  /**
   Main result field by field: up to some point each record with a gap has been filled from the answer
   for its BIN, all other records are as they were, and each of those filled was an attempt.
   */
  lemma {:induction false} RunFills(items: seq<Item>, cache: Cache, o: Options, remote: (string, nat) -> Lookup)
    returns (stop: nat)
    ensures stop <= |items|
    ensures var s := Run(items, cache, |items|, o, remote);
            && (stop < |items| ==> s.counts.attempted >= o.enrichLimit)
            && s.counts.attempted == |Incomplete(items, stop, o)|
            && (forall i :: 0 <= i < |items| && (i >= stop || IsComplete(items[i], o)) ==> s.items[i] == items[i])
            && (forall i :: 0 <= i < stop && !IsComplete(items[i], o) ==>
                  items[i].bin in s.cache && IsEnriched(items[i], s.cache[items[i].bin], s.items[i]))
  {
    hide Run;
    hide IsComplete;
    hide IsEnriched;
    hide Enriched;
    hide Eligible;
    stop := RunIsOutcome(items, cache, |items|, o, remote);
    EligibleCountIs(items, stop, o);
    var s := Run(items, cache, |items|, o, remote);
    forall i | 0 <= i < |items|
      ensures i >= stop || IsComplete(items[i], o) ==> s.items[i] == items[i]
      ensures i < stop && !IsComplete(items[i], o) ==>
                items[i].bin in s.cache && IsEnriched(items[i], s.cache[items[i].bin], s.items[i])
    {
      EligibleIff(items[i], o);
      if i < stop && Eligible(items[i], o) {
        EnrichedIff(items[i], s.cache[items[i].bin], s.items[i]);
      }
    }
  }

  /** If the limit covers all eligible records, every record becomes what the final cache makes of it. */
  lemma {:induction false} UnlimitedRunIsOutcome(items: seq<Item>, cache: Cache, o: Options, remote: (string, nat) -> Lookup)
    requires EligibleCount(items, |items|, o) <= o.enrichLimit
    ensures IsOutcome(Run(items, cache, |items|, o, remote), items, |items|, o)
  {
    hide Run;
    hide Eligible;
    hide Enriched;
    var stop := RunIsOutcome(items, cache, |items|, o, remote);
    NoneEligibleAfter(items, stop, |items|, o);
  }

  lemma {:induction false} NoneEligibleAfter(items: seq<Item>, from: nat, n: nat, o: Options)
    requires from <= n <= |items|
    ensures EligibleCount(items, from, o) <= EligibleCount(items, n, o)
    ensures EligibleCount(items, from, o) == EligibleCount(items, n, o) ==> forall i :: from <= i < n ==> !Eligible(items[i], o)
    decreases n
  {
    hide Eligible;
    if from < n {
      NoneEligibleAfter(items, from, n - 1, o);
    }
  }

  /** A field that was present is never changed, whatever the limit, the cache and the answers. */
  lemma {:induction false} PresentFieldsStay(items: seq<Item>, cache: Cache, o: Options, remote: (string, nat) -> Lookup, i: nat, f: Field)
    requires i < |items| && Present(items[i].values, f)
    ensures var s := Run(items, cache, |items|, o, remote);
            && s.items[i].bin == items[i].bin
            && f in s.items[i].values && s.items[i].values[f] == items[i].values[f]
  {
    hide Run;
    hide Eligible;
    var stop := RunIsOutcome(items, cache, |items|, o, remote);
  }

  /** A record that needs no further enrichment from the cache. */
  predicate Settled(item: Item, cache: Cache, o: Options) {
    Eligible(item, o) ==> item.bin in cache && Enriched(item, cache[item.bin].data) == item
  }

  lemma {:induction false} FillAgain(v: Values, data: Values)
    ensures Fill(Fill(v, data), data) == Fill(v, data)
    ensures forall f :: Present(v, f) ==> Present(Fill(v, data), f)
  {
  }

  lemma {:induction false} OutcomeIsSettled(item: Item, cache: Cache, o: Options)
    requires Eligible(item, o) ==> item.bin in cache
    ensures Settled(Outcome(item, cache, o), cache, o)
  {
    hide Fill;
    if Eligible(item, o) && cache[item.bin].data.Some? {
      FillAgain(item.values, cache[item.bin].data.value);
    }
  }

  lemma {:induction false} SettledRunDoesNothing(items: seq<Item>, cache: Cache, n: nat, o: Options, remote: (string, nat) -> Lookup)
    requires n <= |items| && forall i :: 0 <= i < |items| ==> Settled(items[i], cache, o)
    ensures var s := Run(items, cache, n, o, remote);
            s.items == items && s.cache == cache && s.fetched == [] && s.counts.enriched == 0 && s.counts.errors == 0
    decreases n
  {
    hide Eligible;
    hide Enriched;
    if n > 0 {
      SettledRunDoesNothing(items, cache, n - 1, o, remote);
    }
  }

  /** A second run after one that the limit did not cut short looks nothing up and changes nothing. */
  lemma {:induction false} SecondRunDoesNothing(items: seq<Item>, cache: Cache, o: Options, o': Options,
                             remote: (string, nat) -> Lookup, remote': (string, nat) -> Lookup)
    requires EligibleCount(items, |items|, o) <= o.enrichLimit && o'.onlyIfMissing == o.onlyIfMissing
    ensures var first := Run(items, cache, |items|, o, remote);
            var second := Run(first.items, first.cache, |items|, o', remote');
            second.items == first.items && second.cache == first.cache && second.fetched == [] &&
            second.counts.enriched == 0 && second.counts.errors == 0
  {
    hide Run;
    hide Enriched;
    hide Outcome;
    UnlimitedRunIsOutcome(items, cache, o, remote);
    var first := Run(items, cache, |items|, o, remote);
    forall i | 0 <= i < |items| ensures Settled(first.items[i], first.cache, o') {
      OutcomeIsSettled(items[i], first.cache, o);
    }
    SettledRunDoesNothing(first.items, first.cache, |items|, o', remote');
  }
}
