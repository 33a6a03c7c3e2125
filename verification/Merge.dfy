/**
 Merging normalized records from several sources into one record per BIN (scripts/etl/merge.ts).
 The conflict resolver is an arbitrary function that may also fail.
 */
module Merge {
  import opened Sequences
  import opened Sorting

  datatype Field =
    | CountryCode | Country | Scheme | Brand | CardType | Issuer
    | BankCode | BranchCode | Url | Phone | City | ProgramType | RegulatoryType

  datatype FieldValue = Undefined | Null | Str(text: string)

  /** The fields of a record; one that is absent is undefined. */
  type Values = map<Field, FieldValue>

  datatype NormalizedRecord = NormalizedRecord(
    bin: string, values: Values, length: Option<int>, luhn: Option<bool>, confidence: real, raw: string)

  datatype SourceInfo = SourceInfo(name: string, version: string, priority: Option<int>)

  datatype Tagged = Tagged(record: NormalizedRecord, source: SourceInfo)

  datatype Batch = Batch(info: SourceInfo, records: seq<NormalizedRecord>)

  // ---------- the order of sources ----------

  function GetPriority(source: string): int {
    match source
    case "binlist/data" => 1
    case "venelinkochev/bin-list-data" => 2
    case "aderyabin/bin_list" => 3
    case "braintree/credit-card-type" => 4
    case _ => 5
  }

  function Priority(s: SourceInfo): int {
    if s.priority.Some? then s.priority.value else GetPriority(s.name)
  }

  /** a goes before b: smaller priority number, or equal priority and higher confidence. */
  predicate Precedes(a: Tagged, b: Tagged) {
    var pa, pb := Priority(a.source), Priority(b.source);
    pa < pb || (pa == pb && a.record.confidence > b.record.confidence)
  }

  lemma {:induction false} PrecedesIsOrder()
    ensures IsStrictWeakOrder(Precedes)
  {
  }

  /** The stable sort of a group. */
  function Sorted(group: seq<Tagged>): (sorted: seq<Tagged>)
    ensures |sorted| == |group|
  {
    StableSort(group, Precedes)
  }

  /** Records that tie in priority and confidence keep their input order, and no other order is a stable sort. */
  lemma {:induction false} SortedIsUnique(group: seq<Tagged>, sorted: seq<Tagged>)
    ensures IsStableSort(group, sorted, Precedes) <==> sorted == Sorted(group)
  {
    hide IsStableSort;
    PrecedesIsOrder();
    StableSortIsUnique(group, sorted, Precedes);
  }

  /** The position of the element that precedes all earlier ones and that no later one precedes. */
  ghost predicate IsPrimary(group: seq<Tagged>, i: int) {
    && 0 <= i < |group|
    && (forall j :: 0 <= j < i ==> Precedes(group[i], group[j]))
    && (forall j :: i < j < |group| ==> !Precedes(group[j], group[i]))
  }

  /** Placing an element changes the head only if the element precedes it. */
  lemma {:induction false} HeadAfterPlace(sorted: seq<Tagged>, t: Tagged)
    requires IsOrdered(sorted, Precedes) && sorted != []
    ensures Place(sorted, t, Precedes)[0] == if Precedes(t, sorted[0]) then t else sorted[0]
    decreases |sorted|
  {
    if |sorted| > 1 && Precedes(t, Last(sorted)) {
      HeadAfterPlace(Init(sorted), t);
    }
  }

  /** The head of the sorted group is the primary record of the group. */
  lemma {:induction false} HeadIsPrimary(group: seq<Tagged>) returns (i: int)
    requires group != []
    ensures IsOrdered(Sorted(group), Precedes)
    ensures IsPrimary(group, i) && Sorted(group)[0] == group[i]
    decreases |group|
  {
    var init, t := Init(group), Last(group);
    if init == [] {
      i := 0;
    } else {
      i := HeadIsPrimary(init);
      PrecedesIsOrder();
      PlaceKeepsOrder(Sorted(init), t, Precedes);
      HeadAfterPlace(Sorted(init), t);
      if Precedes(t, init[i]) {
        assert forall j :: 0 <= j < |init| ==> Precedes(t, group[j]) by {
          assert forall j :: 0 <= j < |init| ==> group[j] == init[j];
        }
        i := |init|;
      }
    }
  }

  // ---------- merging one group ----------

  datatype SourceValue = SourceValue(source: string, value: FieldValue, confidence: real)

  datatype Resolution = Resolved(value: FieldValue) | Failed

  /** The conflict resolver: BIN, field and offered values. */
  type Resolver = (string, Field, seq<SourceValue>) -> Resolution

  function GetFieldValue(r: NormalizedRecord, f: Field): FieldValue {
    if f in r.values then r.values[f] else Undefined
  }

  /** The values that take part in a comparison: null and the empty string do not, undefined does. */
  predicate TakesPart(v: FieldValue) {
    v != Null && v != Str("")
  }

  /** The distinct values that take part. */
  function UniqueValues(records: seq<Tagged>, f: Field): set<FieldValue> {
    set i | 0 <= i < |records| && TakesPart(GetFieldValue(records[i].record, f)) :: GetFieldValue(records[i].record, f)
  }

  /** A value or null: undefined and empty values become null. */
  function OrNull(v: FieldValue): Option<string> {
    if v.Str? && v.text != "" then Some(v.text) else None
  }

  function PrepareSourceData(records: seq<Tagged>, f: Field): seq<SourceValue> {
    seq(|records|, i requires 0 <= i < |records| =>
      SourceValue(records[i].source.name, GetFieldValue(records[i].record, f), records[i].record.confidence))
  }

  /** The value of one field of the merged record; null if empty. */
  function ResolveField(bin: string, f: Field, records: seq<Tagged>, resolve: Resolver): Option<string>
    requires records != []
  {
    var primary := GetFieldValue(records[0].record, f);
    var chosen :=
      if |UniqueValues(records, f)| > 1 then
        match resolve(bin, f, PrepareSourceData(records, f))
        case Resolved(v) => v
        case Failed => primary
      else primary;
    OrNull(chosen)
  }

  datatype Contribution = Contribution(source: string, sourceVersion: string, confidence: real, fields: Values)

  /** The fields that a contribution keeps even when empty. */
  const NORMALIZED: set<Field> := {Scheme, Brand, CardType, Issuer, Country, CountryCode}

  function ContributionOf(t: Tagged): Contribution {
    Contribution(t.source.name, t.source.version, t.record.confidence,
                 map f | f in t.record.values && (f in NORMALIZED || OrNull(t.record.values[f]).Some?) :: t.record.values[f])
  }

  function Contributions(records: seq<Tagged>): seq<Contribution> {
    if records == [] then [] else Contributions(Init(records)) + [ContributionOf(Last(records))]
  }

  function MaxConfidence(records: seq<Tagged>): real
    requires records != []
  {
    var last := Last(records).record.confidence;
    if |records| == 1 then last
    else
      var max := MaxConfidence(Init(records));
      if max < last then last else max
  }

  datatype MergedRecord = MergedRecord(
    bin: string, field: Field -> Option<string>, length: Option<int>, luhn: Option<bool>,
    source: string, sourceVersion: string, rawSources: seq<string>, raws: seq<string>,
    confidence: real, sources: seq<Contribution>)

  function MergeRecordList(bin: string, records: seq<Tagged>, resolve: Resolver): MergedRecord
    requires records != []
  {
    var primary := records[0];
    MergedRecord(
      bin,
      f => ResolveField(bin, f, records, resolve),
      if primary.record.length == Some(0) then None else primary.record.length,
      primary.record.luhn,
      primary.source.name,
      primary.source.version,
      seq(|records|, i requires 0 <= i < |records| => records[i].source.name),
      seq(|records|, i requires 0 <= i < |records| => records[i].record.raw),
      MaxConfidence(records),
      Contributions(records))
  }

  // ---------- grouping ----------

  function Tag(info: SourceInfo, records: seq<NormalizedRecord>): seq<Tagged> {
    if records == [] then [] else Tag(info, Init(records)) + [Tagged(Last(records), info)]
  }

  /** All records of all batches, in input order. */
  function All(batches: seq<Batch>): seq<Tagged> {
    if batches == [] then [] else All(Init(batches)) + Tag(Last(batches).info, Last(batches).records)
  }

  /** The BINs in order of first appearance. */
  function Bins(all: seq<Tagged>): seq<string> {
    if all == [] then []
    else
      var bins, b := Bins(Init(all)), Last(all).record.bin;
      if b in bins then bins else bins + [b]
  }

  function GroupOf(all: seq<Tagged>, bin: string): seq<Tagged> {
    Filter(all, (t: Tagged) => t.record.bin == bin)
  }

  lemma {:induction false} GroupExistsIff(all: seq<Tagged>, bin: string)
    ensures bin in Bins(all) <==> GroupOf(all, bin) != []
    decreases |all|
  {
    if all != [] {
      GroupExistsIff(Init(all), bin);
    }
  }

  /** The table that the grouping loop builds. */
  function GroupTable(all: seq<Tagged>): map<string, seq<Tagged>> {
    map b | b in Bins(all) :: GroupOf(all, b)
  }

  datatype Conflict = Conflict(bin: string, field: Field, values: seq<SourceValue>, resolvedTo: Option<string>)

  datatype MergeResult = MergeResult(
    merged: seq<MergedRecord>, conflicts: seq<Conflict>, duplicates: seq<string>, errors: seq<string>)

  /** The result for the first BINs of the list. */
  function MergeBins(all: seq<Tagged>, bins: seq<string>, resolve: Resolver): MergeResult
    requires forall b :: b in bins ==> b in Bins(all)
  {
    if bins == [] then MergeResult([], [], [], [])
    else
      var before, b := MergeBins(all, Init(bins), resolve), Last(bins);
      GroupExistsIff(all, b);
      before.(merged := before.merged + [MergeRecordList(b, Sorted(GroupOf(all, b)), resolve)],
              duplicates := before.duplicates + if |GroupOf(all, b)| > 1 then [b] else [])
  }

  method MergeRecords(sources: seq<Batch>, resolve: Resolver) returns (result: MergeResult)
    ensures result == MergeBins(All(sources), Bins(All(sources)), resolve)
  {
    hide GroupTable;
    hide Bins;
    var order: seq<string> := [];
    var table: map<string, seq<Tagged>> := map[];
    ghost var seen: seq<Tagged> := [];
    NoGroups();
    for i := 0 to |sources|
      invariant seen == All(sources[..i])
      invariant order == Bins(seen) && table == GroupTable(seen)
    {
      var info, records := sources[i].info, sources[i].records;
      assert Init(sources[..i + 1]) == sources[..i];
      order, table := AddBatch(order, table, info, records, seen);
      seen := seen + Tag(info, records);
    }
    assert sources[..|sources|] == sources;
    result := MergeGroups(order, table, resolve, seen);
  }

  lemma {:induction false} NoGroups()
    ensures Bins([]) == [] && GroupTable([]) == map[] && forall b :: GroupOf([], b) == []
  {
  }

  /** The records of one source join the groups of their BINs. */
  method AddBatch(order: seq<string>, table: map<string, seq<Tagged>>, info: SourceInfo, records: seq<NormalizedRecord>,
                  ghost seen: seq<Tagged>)
    returns (order': seq<string>, table': map<string, seq<Tagged>>)
    requires order == Bins(seen) && table == GroupTable(seen)
    ensures order' == Bins(seen + Tag(info, records)) && table' == GroupTable(seen + Tag(info, records))
  {
    hide GroupTable;
    hide Bins;
    order', table' := order, table;
    assert seen + Tag(info, []) == seen;
    for j := 0 to |records|
      invariant order' == Bins(seen + Tag(info, records[..j])) && table' == GroupTable(seen + Tag(info, records[..j]))
    {
      var t := Tagged(records[j], info);
      assert Init(records[..j + 1]) == records[..j];
      assert seen + Tag(info, records[..j + 1]) == (seen + Tag(info, records[..j])) + [t];
      order', table' := AddToGroup(order', table', t, seen + Tag(info, records[..j]));
    }
    assert records[..|records|] == records;
  }

  /** The second loop: sort and merge each group. */
  method MergeGroups(order: seq<string>, table: map<string, seq<Tagged>>, resolve: Resolver, ghost all: seq<Tagged>)
    returns (result: MergeResult)
    requires order == Bins(all) && table == GroupTable(all)
    ensures result == MergeBins(all, Bins(all), resolve)
  {
    hide Bins;
    hide Sorted;
    hide MergeRecordList;
    result := MergeResult([], [], [], []);
    for i := 0 to |order|
      invariant result == MergeBins(all, order[..i], resolve)
    {
      var bin := order[i];
      assert Init(order[..i + 1]) == order[..i];
      GroupExistsIff(all, bin);
      var records := Sorted(table[bin]);
      if |records| > 1 {
        result := result.(duplicates := result.duplicates + [bin]);
      }
      result := result.(merged := result.merged + [MergeRecordList(bin, records, resolve)]);
    }
    assert order[..|order|] == order;
  }

  /** Append a record to the group of its BIN. */
  method AddToGroup(order: seq<string>, table: map<string, seq<Tagged>>, t: Tagged, ghost seen: seq<Tagged>)
    returns (order': seq<string>, table': map<string, seq<Tagged>>)
    requires order == Bins(seen) && table == GroupTable(seen)
    ensures order' == Bins(seen + [t]) && table' == GroupTable(seen + [t])
  {
    var bin := t.record.bin;
    order' := if bin in table then order else order + [bin];
    var existing := if bin in table then table[bin] else [];
    table' := table[bin := existing + [t]];
    GroupTableAppends(seen, t);
  }

  lemma {:induction false} GroupsAppend(seen: seq<Tagged>, t: Tagged, b: string)
    ensures Bins(seen + [t]) == if t.record.bin in Bins(seen) then Bins(seen) else Bins(seen) + [t.record.bin]
    ensures GroupOf(seen + [t], b) == GroupOf(seen, b) + if t.record.bin == b then [t] else []
  {
    assert Init(seen + [t]) == seen;
  }

  lemma {:induction false} GroupTableAppends(seen: seq<Tagged>, t: Tagged)
    ensures var table, bin := GroupTable(seen), t.record.bin;
            && Bins(seen + [t]) == (if bin in table then Bins(seen) else Bins(seen) + [bin])
            && GroupTable(seen + [t]) == table[bin := (if bin in table then table[bin] else []) + [t]]
  {
    hide Bins;
    hide GroupOf;
    var table, bin, longer := GroupTable(seen), t.record.bin, GroupTable(seen + [t]);
    GroupsAppend(seen, t, bin);
    forall b ensures GroupOf(seen + [t], b) == GroupOf(seen, b) + if bin == b then [t] else [] {
      GroupsAppend(seen, t, b);
    }
    GroupExistsIff(seen, bin);
    forall b | b in table && b != bin ensures longer[b] == table[b] {
      assert GroupOf(seen, b) + [] == GroupOf(seen, b);
    }
  }

  // ---------- what merging promises ----------

  /** One entry per BIN that occurs, without repetition. */
  lemma {:induction false} BinsAreDistinct(all: seq<Tagged>)
    ensures IsDistinct(Bins(all))
    ensures forall b :: b in Bins(all) <==> exists t :: t in all && t.record.bin == b
    decreases |all|
  {
    if all != [] {
      var init, last := Init(all), Last(all);
      BinsAreDistinct(init);
      assert all == init + [last];
      forall b ensures b in Bins(all) <==> exists t :: t in all && t.record.bin == b {
        if b == last.record.bin {
          assert last in all;
        } else if t :| t in all && t.record.bin == b {
          assert t in init;
        }
      }
    }
  }

  /** One merged record per BIN, in order; the duplicates are the BINs with more than one record. */
  lemma {:induction false} MergedPerBin(all: seq<Tagged>, bins: seq<string>, resolve: Resolver)
    requires forall b :: b in bins ==> b in Bins(all)
    ensures var result := MergeBins(all, bins, resolve);
            && |result.merged| == |bins|
            && (forall i :: 0 <= i < |bins| ==>
                  Sorted(GroupOf(all, bins[i])) != [] &&
                  result.merged[i] == MergeRecordList(bins[i], Sorted(GroupOf(all, bins[i])), resolve))
            && (forall b :: b in result.duplicates <==> b in bins && |GroupOf(all, b)| > 1)
            && result.conflicts == [] && result.errors == []
    decreases |bins|
  {
    hide Bins;
    hide GroupOf;
    hide Sorted;
    hide MergeRecordList;
    if bins != [] {
      var init, last := Init(bins), Last(bins);
      assert bins == init + [last];
      MergedPerBin(all, init, resolve);
      GroupExistsIff(all, last);
    }
  }

  lemma {:induction false} MaxConfidenceMeaning(records: seq<Tagged>)
    requires records != []
    ensures forall t :: t in records ==> t.record.confidence <= MaxConfidence(records)
    ensures exists t :: t in records && t.record.confidence == MaxConfidence(records)
    decreases |records|
  {
    assert Last(records) in records;
    if |records| > 1 {
      MaxConfidenceMeaning(Init(records));
      assert records == Init(records) + [Last(records)];
    }
  }

  lemma {:induction false} PlaceContributions(sorted: seq<Tagged>, t: Tagged)
    ensures forall x :: x in Place(sorted, t, Precedes) <==> x in sorted || x == t
    ensures multiset(Contributions(Place(sorted, t, Precedes))) == multiset(Contributions(sorted)) + multiset{ContributionOf(t)}
    decreases |sorted|
  {
    hide ContributionOf;
    hide Contributions;
    hide Precedes;
    if sorted != [] && Precedes(t, Last(sorted)) {
      PlaceContributions(Init(sorted), t);
      assert sorted == Init(sorted) + [Last(sorted)];
      ContributionsAppend(Init(sorted), Last(sorted));
      ContributionsAppend(Place(Init(sorted), t, Precedes), Last(sorted));
    } else {
      ContributionsAppend(sorted, t);
    }
  }

  lemma {:induction false} SortedContents(group: seq<Tagged>)
    ensures forall x :: x in Sorted(group) <==> x in group
    ensures multiset(Contributions(Sorted(group))) == multiset(Contributions(group))
    decreases |group|
  {
    hide ContributionOf;
    hide Contributions;
    hide Place;
    if group != [] {
      SortedContents(Init(group));
      PlaceContributions(Sorted(Init(group)), Last(group));
      ContributionsAppend(Init(group), Last(group));
      assert group == Init(group) + [Last(group)];
    }
  }

  /** Two records of the group differ in values that take part. */
  ghost predicate Disagree(group: seq<Tagged>, f: Field) {
    exists s, t :: s in group && t in group && Differ(GetFieldValue(s.record, f), GetFieldValue(t.record, f))
  }

  predicate Differ(v: FieldValue, w: FieldValue) {
    TakesPart(v) && TakesPart(w) && v != w
  }

  /** The value that a record offers for a field, None if it offers none. */
  function OfferOf(t: Tagged, f: Field): Option<string> {
    OrNull(GetFieldValue(t.record, f))
  }

  predicate Offers(t: Tagged, f: Field) {
    OfferOf(t, f).Some?
  }

  lemma {:induction false} MoreThanOne(values: set<FieldValue>)
    ensures |values| > 1 <==> exists x, y :: x in values && y in values && x != y
  {
    if |values| > 1 {
      var x :| x in values;
      assert |values - {x}| == |values| - 1;
      var y :| y in values - {x};
    }
    if x, y :| x in values && y in values && x != y {
      assert |values - {x}| == |values| - 1;
      assert y in values - {x};
    }
  }

  lemma {:induction false} UniqueValuesMeaning(group: seq<Tagged>, f: Field, v: FieldValue)
    ensures v in UniqueValues(group, f) <==> TakesPart(v) && exists t :: t in group && GetFieldValue(t.record, f) == v
  {
    if v in UniqueValues(group, f) {
      var i :| 0 <= i < |group| && GetFieldValue(group[i].record, f) == v;
      assert group[i] in group;
    }
  }

  lemma {:induction false} DisagreeIff(group: seq<Tagged>, f: Field)
    ensures |UniqueValues(group, f)| > 1 <==> Disagree(group, f)
  {
    hide UniqueValues;
    hide TakesPart;
    hide GetFieldValue;
    MoreThanOne(UniqueValues(group, f));
    forall v ensures v in UniqueValues(group, f) <==> TakesPart(v) && exists t :: t in group && GetFieldValue(t.record, f) == v {
      UniqueValuesMeaning(group, f, v);
    }
  }

  /** A field for which all offers are the same still goes to the resolver exactly when some record leaves it undefined. */
  lemma {:induction false} LoneValueIsDisputedIff(group: seq<Tagged>, f: Field, v: string)
    requires exists t :: t in group && OfferOf(t, f) == Some(v)
    requires forall t :: t in group && Offers(t, f) ==> OfferOf(t, f) == Some(v)
    ensures Disagree(group, f) <==> exists s :: s in group && GetFieldValue(s.record, f) == Undefined
  {
    hide TakesPart;
    hide Differ;
    hide OrNull;
    hide GetFieldValue;
    var t :| t in group && OfferOf(t, f) == Some(v);
    if s :| s in group && GetFieldValue(s.record, f) == Undefined {
      UndefinedDiffers(GetFieldValue(t.record, f));
      assert Differ(GetFieldValue(s.record, f), GetFieldValue(t.record, f));
    }
    if s, u :| s in group && u in group && Differ(GetFieldValue(s.record, f), GetFieldValue(u.record, f)) {
      OneIsUndefined(GetFieldValue(s.record, f), GetFieldValue(u.record, f), v);
    }
  }

  lemma {:induction false} OneIsUndefined(x: FieldValue, y: FieldValue, v: string)
    requires Differ(x, y) && OrNull(x) in {None, Some(v)} && OrNull(y) in {None, Some(v)}
    ensures x == Undefined || y == Undefined
  {
  }

  lemma {:induction false} UndefinedDiffers(v: FieldValue)
    requires OrNull(v).Some?
    ensures Differ(Undefined, v)
  {
  }

  /**
   Main result on one group: the merged record takes its source from the primary record, its
   confidence from the most confident one, and every field without disagreement from the primary
   record alone.
   */
  lemma {:induction false} MergedGroup(bin: string, group: seq<Tagged>, resolve: Resolver)
    requires group != []
    ensures var m := MergeRecordList(bin, Sorted(group), resolve);
            && (exists p :: IsPrimary(group, p) && m.source == group[p].source.name && m.sourceVersion == group[p].source.version
                  && m.luhn == group[p].record.luhn
                  && forall f :: !Disagree(group, f) ==> m.field(f) == OfferOf(group[p], f))
            && (forall t :: t in group ==> t.record.confidence <= m.confidence)
            && (exists t :: t in group && t.record.confidence == m.confidence)
  {
    var sorted := Sorted(group);
    var p := HeadIsPrimary(group);
    SortedContents(group);
    MaxConfidenceMeaning(sorted);
    var m := MergeRecordList(bin, sorted, resolve);
    hide Sorted;
    hide Precedes;
    forall f | !Disagree(group, f) ensures m.field(f) == OfferOf(group[p], f) {
      SameDisagreement(sorted, group, f);
      DisagreeIff(sorted, f);
    }
  }

  /** A field with disagreement takes the resolver's value, or the primary record's if the resolver fails; null if empty or undefined. */
  lemma {:induction false} DisagreementIsResolved(bin: string, group: seq<Tagged>, resolve: Resolver, f: Field)
    requires group != [] && Disagree(group, f)
    ensures var m, answer := MergeRecordList(bin, Sorted(group), resolve), resolve(bin, f, PrepareSourceData(Sorted(group), f));
            && (answer.Resolved? ==> m.field(f) == OrNull(answer.value))
            && (answer.Failed? ==> exists p :: IsPrimary(group, p) && m.field(f) == OfferOf(group[p], f))
  {
    hide Sorted;
    hide Precedes;
    hide Disagree;
    hide UniqueValues;
    hide Contributions;
    hide MaxConfidence;
    hide PrepareSourceData;
    var p := HeadIsPrimary(group);
    SortedContents(group);
    SameDisagreement(Sorted(group), group, f);
    DisagreeIff(Sorted(group), f);
  }

  lemma {:induction false} SameDisagreement(a: seq<Tagged>, b: seq<Tagged>, f: Field)
    requires forall t :: t in a <==> t in b
    ensures Disagree(a, f) <==> Disagree(b, f)
  {
  }

  /** The first value on offer in a list, None if nobody offers one. */
  function FirstOffer(records: seq<Tagged>, f: Field): Option<string> {
    if records == [] then None
    else if Offers(records[0], f) then OfferOf(records[0], f)
    else FirstOffer(records[1..], f)
  }

  lemma {:induction false} FirstOfferExistsIff(records: seq<Tagged>, f: Field)
    ensures FirstOffer(records, f).Some? <==> exists t :: t in records && Offers(t, f)
    decreases |records|
  {
    hide OfferOf;
    if records != [] {
      FirstOfferExistsIff(records[1..], f);
      assert records == [records[0]] + records[1..];
    }
  }

  /** An undisputed field holds the first available value exactly if the primary record offers one or nobody does. */
  lemma {:induction false} UndisputedFieldIsFirstAvailableIff(bin: string, group: seq<Tagged>, p: nat, resolve: Resolver, f: Field)
    requires !Disagree(group, f) && IsPrimary(group, p)
    ensures MergeRecordList(bin, Sorted(group), resolve).field(f) == FirstOffer(Sorted(group), f) <==>
            Offers(group[p], f) || forall t :: t in group ==> !Offers(t, f)
  {
    hide MergeRecordList;
    hide Sorted;
    hide Precedes;
    hide Disagree;
    hide OrNull;
    MergedGroup(bin, group, resolve);
    var m := MergeRecordList(bin, Sorted(group), resolve);
    var q :| IsPrimary(group, q) && m.source == group[q].source.name && m.sourceVersion == group[q].source.version
             && m.luhn == group[q].record.luhn
             && forall f :: !Disagree(group, f) ==> m.field(f) == OfferOf(group[q], f);
    PrimaryIsUnique(group, p, q);
    SortedContents(group);
    var r := HeadIsPrimary(group);
    PrimaryIsUnique(group, p, r);
    FirstOfferExistsIff(Sorted(group), f);
  }

  lemma {:induction false} PrimaryIsUnique(group: seq<Tagged>, p: int, q: int)
    requires IsPrimary(group, p) && IsPrimary(group, q)
    ensures p == q
  {
    hide Precedes;
    var pBeforeQ, qBeforeP := Precedes(group[p], group[q]), Precedes(group[q], group[p]);
  }

  // ---------- conservation ----------

  /** The contributions of the groups of the given BINs, all together. */
  function GroupContributions(all: seq<Tagged>, bins: seq<string>): multiset<Contribution> {
    if bins == [] then multiset{}
    else GroupContributions(all, Init(bins)) + multiset(Contributions(GroupOf(all, Last(bins))))
  }

  function SourcesOf(merged: seq<MergedRecord>): multiset<Contribution> {
    if merged == [] then multiset{} else SourcesOf(Init(merged)) + multiset(Last(merged).sources)
  }

  function GroupSizes(all: seq<Tagged>, bins: seq<string>): nat {
    if bins == [] then 0 else GroupSizes(all, Init(bins)) + |GroupOf(all, Last(bins))|
  }

  /** One more record shows up once among its BIN's group, if that BIN is in the list. */
  lemma {:induction false} GroupsGrow(all: seq<Tagged>, t: Tagged, bins: seq<string>)
    requires IsDistinct(bins)
    ensures GroupContributions(all + [t], bins) ==
            GroupContributions(all, bins) + if t.record.bin in bins then multiset{ContributionOf(t)} else multiset{}
    ensures GroupSizes(all + [t], bins) == GroupSizes(all, bins) + if t.record.bin in bins then 1 else 0
    decreases |bins|
  {
    hide ContributionOf;
    hide GroupOf;
    hide Contributions;
    hide IsDistinct;
    if bins != [] {
      var init, last := Init(bins), Last(bins);
      LastIsNew(bins);
      GroupsGrow(all, t, init);
      GroupGrows(all, t, last);
    }
  }

  lemma {:induction false} LastIsNew(bins: seq<string>)
    requires bins != [] && IsDistinct(bins)
    ensures IsDistinct(Init(bins)) && Last(bins) !in Init(bins)
    ensures forall b :: b in bins <==> b in Init(bins) || b == Last(bins)
  {
    assert bins == Init(bins) + [Last(bins)];
  }

  lemma {:induction false} GroupGrows(all: seq<Tagged>, t: Tagged, b: string)
    ensures multiset(Contributions(GroupOf(all + [t], b))) ==
            multiset(Contributions(GroupOf(all, b))) + if t.record.bin == b then multiset{ContributionOf(t)} else multiset{}
    ensures |GroupOf(all + [t], b)| == |GroupOf(all, b)| + if t.record.bin == b then 1 else 0
  {
    hide ContributionOf;
    hide GroupOf;
    GroupsAppend(all, t, b);
    ContributionsAppend(GroupOf(all, b), t);
    assert GroupOf(all, b) + [] == GroupOf(all, b);
  }

  lemma {:induction false} ContributionsAppend(group: seq<Tagged>, t: Tagged)
    ensures Contributions(group + [t]) == Contributions(group) + [ContributionOf(t)]
  {
    assert Init(group + [t]) == group;
  }

  /** The groups together hold every record once. */
  lemma {:induction false} GroupsConserve(all: seq<Tagged>)
    ensures GroupContributions(all, Bins(all)) == multiset(Contributions(all))
    ensures GroupSizes(all, Bins(all)) == |all|
    decreases |all|
  {
    hide ContributionOf;
    hide Bins;
    hide GroupOf;
    NoGroups();
    if all != [] {
      var init, t := Init(all), Last(all);
      assert all == init + [t];
      GroupsConserve(init);
      BinsAreDistinct(init);
      GroupsAppend(init, t, t.record.bin);
      GroupsGrow(init, t, Bins(init));
      ContributionsAppend(init, t);
      if t.record.bin !in Bins(init) {
        GroupExistsIff(init, t.record.bin);
        NewGroup(init, t);
      }
    }
  }

  lemma {:induction false} NewGroup(all: seq<Tagged>, t: Tagged)
    requires t.record.bin !in Bins(all) && GroupOf(all, t.record.bin) == []
    ensures var bins := Bins(all) + [t.record.bin];
            && GroupContributions(all + [t], bins) == GroupContributions(all + [t], Bins(all)) + multiset{ContributionOf(t)}
            && GroupSizes(all + [t], bins) == GroupSizes(all + [t], Bins(all)) + 1
  {
    hide ContributionOf;
    hide Bins;
    var b := t.record.bin;
    assert Init(Bins(all) + [b]) == Bins(all);
    GroupsAppend(all, t, b);
    assert GroupOf(all + [t], b) == [t];
    ContributionsAppend([], t);
    assert [] + [t] == [t];
  }

  lemma {:induction false} SourcesOfBins(all: seq<Tagged>, bins: seq<string>, resolve: Resolver)
    requires forall b :: b in bins ==> b in Bins(all)
    ensures SourcesOf(MergeBins(all, bins, resolve).merged) == GroupContributions(all, bins)
    decreases |bins|
  {
    hide ContributionOf;
    hide Bins;
    hide GroupOf;
    if bins != [] {
      var init, last := Init(bins), Last(bins);
      SourcesOfBins(all, init, resolve);
      SortedContents(GroupOf(all, last));
      var merged := MergeBins(all, bins, resolve).merged;
      assert Init(merged) == MergeBins(all, init, resolve).merged;
    }
  }

  /** Conservation: every input record appears once, in the sources of exactly one merged record. */
  lemma {:induction false} MergeConservesRecords(sources: seq<Batch>, resolve: Resolver)
    ensures var all := All(sources);
            SourcesOf(MergeBins(all, Bins(all), resolve).merged) == multiset(Contributions(all))
  {
    var all := All(sources);
    SourcesOfBins(all, Bins(all), resolve);
    GroupsConserve(all);
  }

  // ---------- statistics ----------

  datatype MergeStats = MergeStats(totalRecords: nat, uniqueBINs: nat, duplicatesMerged: nat, conflictsResolved: nat)

  function GetMergeStats(result: MergeResult): MergeStats {
    MergeStats(|result.merged| + |result.duplicates|, |result.merged|, |result.duplicates|, |result.conflicts|)
  }

  /** The fields that differ between the records of a BIN. */
  function Disputes(all: seq<Tagged>): set<(string, Field)> {
    set b, f: Field | b in Bins(all) && |UniqueValues(GroupOf(all, b), f)| > 1 :: (b, f)
  }

  lemma {:induction false} TotalCountsUpToTwo(all: seq<Tagged>, bins: seq<string>, resolve: Resolver)
    requires forall b :: b in bins ==> b in Bins(all)
    ensures var total := GetMergeStats(MergeBins(all, bins, resolve)).totalRecords;
            && total <= GroupSizes(all, bins)
            && (total == GroupSizes(all, bins) <==> forall b :: b in bins ==> |GroupOf(all, b)| <= 2)
    decreases |bins|
  {
    hide Bins;
    hide GroupOf;
    hide MergeRecordList;
    if bins != [] {
      var init, last := Init(bins), Last(bins);
      assert bins == init + [last];
      TotalCountsUpToTwo(all, init, resolve);
      GroupExistsIff(all, last);
    }
  }

  /** The reported total is the number of input records exactly when no BIN has more than two of them. */
  lemma {:induction false} TotalRecordsIff(sources: seq<Batch>, resolve: Resolver)
    ensures var all := All(sources);
            GetMergeStats(MergeBins(all, Bins(all), resolve)).totalRecords == |all| <==>
            forall b :: |GroupOf(all, b)| <= 2
  {
    var all := All(sources);
    TotalCountsUpToTwo(all, Bins(all), resolve);
    GroupsConserve(all);
    forall b ensures b in Bins(all) || GroupOf(all, b) == [] {
      GroupExistsIff(all, b);
    }
  }

  /** `conflicts` is never filled: the reported number of resolved conflicts is right exactly when no field is disputed. */
  lemma {:induction false} ConflictsReportedIff(sources: seq<Batch>, resolve: Resolver)
    ensures var all := All(sources);
            GetMergeStats(MergeBins(all, Bins(all), resolve)).conflictsResolved == |Disputes(all)| <==>
            forall b, f :: b in Bins(all) ==> !Disagree(GroupOf(all, b), f)
  {
    hide Bins;
    hide GroupOf;
    hide UniqueValues;
    hide Disagree;
    var all := All(sources);
    MergedPerBin(all, Bins(all), resolve);
    forall b, f ensures (b, f) in Disputes(all) <==> b in Bins(all) && Disagree(GroupOf(all, b), f) {
      DisagreeIff(GroupOf(all, b), f);
    }
    if Disputes(all) != {} {
      var d :| d in Disputes(all);
      assert (d.0, d.1) == d;
    }
  }

  // ---------- the same in terms of the batches ----------

  /** Source priorities by name; the lower number goes first. */
  const PRIORITIES: map<string, int> := map[
    "binlist/data" := 1, "venelinkochev/bin-list-data" := 2, "aderyabin/bin_list" := 3, "braintree/credit-card-type" := 4]

  /** The source's own priority; failing that, the one of its name; failing that, 5. */
  function PriorityNumber(s: SourceInfo): int {
    if s.priority.Some? then s.priority.value else if s.name in PRIORITIES then PRIORITIES[s.name] else 5
  }

  lemma {:induction false} PriorityIs(s: SourceInfo)
    ensures Priority(s) == PriorityNumber(s)
  {
  }

  /** The primary record has the least priority number, the highest confidence among those, and comes first among those. */
  lemma {:induction false} PrimaryIff(group: seq<Tagged>, p: nat)
    requires p < |group|
    ensures IsPrimary(group, p) <==>
            forall j :: 0 <= j < |group| ==>
              var x, y := PriorityNumber(group[p].source), PriorityNumber(group[j].source);
              var c, d := group[p].record.confidence, group[j].record.confidence;
              x < y || (x == y && (c > d || (c == d && p <= j)))
  {
    hide Priority;
    hide PriorityNumber;
    forall j | 0 <= j < |group| ensures Priority(group[j].source) == PriorityNumber(group[j].source) {
      PriorityIs(group[j].source);
    }
  }

  /** The number of records in the first i batches. */
  function Offset(sources: seq<Batch>, i: nat): nat
    requires i <= |sources|
  {
    if i == 0 then 0 else Offset(sources, i - 1) + |sources[i - 1].records|
  }

  lemma {:induction false} TagAt(info: SourceInfo, records: seq<NormalizedRecord>)
    ensures |Tag(info, records)| == |records|
    ensures forall j :: 0 <= j < |records| ==> Tag(info, records)[j] == Tagged(records[j], info)
    decreases |records|
  {
    if records != [] {
      TagAt(info, Init(records));
    }
  }

  lemma {:induction false} OffsetOfInit(sources: seq<Batch>, i: nat)
    requires sources != [] && i < |sources|
    ensures Offset(Init(sources), i) == Offset(sources, i)
  {
    if i > 0 {
      OffsetOfInit(sources, i - 1);
    }
  }

  lemma {:induction false} AllLength(sources: seq<Batch>)
    ensures |All(sources)| == Offset(sources, |sources|)
    decreases |sources|
  {
    if sources != [] {
      AllLength(Init(sources));
      TagAt(Last(sources).info, Last(sources).records);
      OffsetOfInit(sources, |sources| - 1);
    }
  }

  /** Every record of every batch has its own place among all records; by their number there are no others. */
  lemma {:induction false} AllAt(sources: seq<Batch>, i: nat, j: nat)
    requires i < |sources| && j < |sources[i].records|
    ensures Offset(sources, i) + j < |All(sources)|
    ensures All(sources)[Offset(sources, i) + j] == Tagged(sources[i].records[j], sources[i].info)
    decreases |sources|
  {
    var init, last := Init(sources), Last(sources);
    TagAt(last.info, last.records);
    hide Tag;
    OffsetOfInit(sources, i);
    AllLength(init);
    if i < |init| {
      AllAt(init, i, j);
    }
  }

  /**
   What a record contributes: name and version of its source, its confidence, the six normalized fields
   as they are, and of the other fields those that are not empty.
   */
  ghost predicate IsContribution(c: Contribution, r: NormalizedRecord, info: SourceInfo) {
    && c.source == info.name && c.sourceVersion == info.version && c.confidence == r.confidence
    && forall f ::
         if f in {Scheme, Brand, CardType, Issuer, Country, CountryCode} then
           (f in c.fields <==> f in r.values) && (f in r.values ==> c.fields[f] == r.values[f])
         else if f in r.values && r.values[f].Str? && r.values[f].text != "" then
           f in c.fields && c.fields[f] == r.values[f]
         else f !in c.fields
  }

  lemma {:induction false} ContributionIs(t: Tagged)
    ensures IsContribution(ContributionOf(t), t.record, t.source)
  {
  }

  lemma {:induction false} ContributionsAre(records: seq<Tagged>)
    ensures |Contributions(records)| == |records|
    ensures forall k :: 0 <= k < |records| ==> IsContribution(Contributions(records)[k], records[k].record, records[k].source)
    decreases |records|
  {
    hide IsContribution;
    hide ContributionOf;
    if records != [] {
      ContributionsAre(Init(records));
      ContributionIs(Last(records));
    }
  }

  /** The contribution of record j of batch i is at its place. */
  ghost predicate IsInput(inputs: seq<Contribution>, sources: seq<Batch>, i: nat, j: nat)
    requires i < |sources| && j < |sources[i].records|
  {
    Offset(sources, i) + j < |inputs| && IsContribution(inputs[Offset(sources, i) + j], sources[i].records[j], sources[i].info)
  }

  /**
   Conservation, batch by batch: the sources of all merged records are, together, one contribution for
   each record of each batch.
   */
  lemma {:induction false} MergeConservesBatches(sources: seq<Batch>, resolve: Resolver) returns (inputs: seq<Contribution>)
    ensures |inputs| == Offset(sources, |sources|)
    ensures forall i, j :: 0 <= i < |sources| && 0 <= j < |sources[i].records| ==> IsInput(inputs, sources, i, j)
    ensures var all := All(sources);
            SourcesOf(MergeBins(all, Bins(all), resolve).merged) == multiset(inputs)
  {
    hide IsContribution;
    hide Offset;
    hide Contributions;
    hide All;
    var all := All(sources);
    inputs := Contributions(all);
    AllLength(sources);
    ContributionsAre(all);
    MergeConservesRecords(sources, resolve);
    forall i, j | 0 <= i < |sources| && 0 <= j < |sources[i].records| ensures IsInput(inputs, sources, i, j) {
      AllAt(sources, i, j);
    }
  }

  /** The merged record part by part, apart from the fields that sources may dispute. */
  lemma {:induction false} MergedParts(bin: string, group: seq<Tagged>, resolve: Resolver)
    requires group != []
    ensures var sorted := Sorted(group);
            var m := MergeRecordList(bin, sorted, resolve);
            && m.bin == bin
            && m.length == (if sorted[0].record.length == Some(0) then None else sorted[0].record.length)
            && |m.rawSources| == |m.raws| == |m.sources| == |group|
            && forall k :: 0 <= k < |group| ==>
                 && m.rawSources[k] == sorted[k].source.name && m.raws[k] == sorted[k].record.raw
                 && IsContribution(m.sources[k], sorted[k].record, sorted[k].source)
  {
    hide IsContribution;
    hide Contributions;
    ContributionsAre(Sorted(group));
  }

  /** The resolver is given, in order, the name, the value and the confidence of every record. */
  lemma {:induction false} ResolverIsGiven(records: seq<Tagged>, f: Field)
    ensures var given := PrepareSourceData(records, f);
            && |given| == |records|
            && forall k :: 0 <= k < |records| ==>
                 && given[k].source == records[k].source.name && given[k].confidence == records[k].record.confidence
                 && given[k].value == (if f in records[k].record.values then records[k].record.values[f] else Undefined)
  {
  }

  /** The BINs come in order of first appearance: before any record of a later one there is a record of an earlier one. */
  lemma {:induction false} BinsInOrder(all: seq<Tagged>, i: nat, j: nat, l: nat) returns (k: nat)
    requires i < j < |Bins(all)| && l < |all| && all[l].record.bin == Bins(all)[j]
    ensures k < l && all[k].record.bin == Bins(all)[i]
    decreases |all|
  {
    var init := Init(all);
    BinsAreDistinct(init);
    assert l < |init| ==> init[l] in init;
    if l < |init| && j < |Bins(init)| {
      k := BinsInOrder(init, i, j, l);
    } else {
      assert Bins(init)[i] in Bins(init);
      var t :| t in init && t.record.bin == Bins(init)[i];
      k :| 0 <= k < |init| && init[k] == t;
    }
  }

  /** The statistics in terms of the BINs that occur. */
  lemma {:induction false} StatsAre(sources: seq<Batch>, resolve: Resolver)
    ensures var all := All(sources);
            var stats := GetMergeStats(MergeBins(all, Bins(all), resolve));
            var occurring := set t | t in all :: t.record.bin;
            && stats.uniqueBINs == |occurring|
            && stats.duplicatesMerged == |set b | b in occurring && |GroupOf(all, b)| > 1|
            && stats.totalRecords == stats.uniqueBINs + stats.duplicatesMerged
            && stats.conflictsResolved == 0
  {
    var all := All(sources);
    BinsAreDistinct(all);
    MergedPerBin(all, Bins(all), resolve);
    var occurring := set t | t in all :: t.record.bin;
    assert occurring == set b | b in Bins(all);
    DistinctCount(Bins(all), occurring);
    DuplicatesAreDistinct(all, Bins(all), resolve);
    DistinctCount(MergeBins(all, Bins(all), resolve).duplicates, set b | b in occurring && |GroupOf(all, b)| > 1);
  }

  lemma {:induction false} DistinctCount(bins: seq<string>, members: set<string>)
    requires IsDistinct(bins) && forall b :: b in bins <==> b in members
    ensures |members| == |bins|
    decreases |bins|
  {
    if bins == [] {
      assert members == {};
    } else {
      LastIsNew(bins);
      DistinctCount(Init(bins), members - {Last(bins)});
    }
  }

  lemma {:induction false} DuplicatesAreDistinct(all: seq<Tagged>, bins: seq<string>, resolve: Resolver)
    requires IsDistinct(bins) && forall b :: b in bins ==> b in Bins(all)
    ensures IsDistinct(MergeBins(all, bins, resolve).duplicates)
    decreases |bins|
  {
    hide Bins;
    hide GroupOf;
    hide MergeRecordList;
    if bins != [] {
      LastIsNew(bins);
      DuplicatesAreDistinct(all, Init(bins), resolve);
      MergedPerBin(all, Init(bins), resolve);
      GroupExistsIff(all, Last(bins));
    }
  }

  // ---------- inputs on which the promises fail ----------

  function SampleTagged(values: Values, priority: int): Tagged {
    Tagged(NormalizedRecord("400000", values, None, None, 50.0, ""), SourceInfo("sample", "1", Some(priority)))
  }

  /** The primary record leaves a field empty and another record has a value: the merged field is null. */
  lemma {:induction false} FirstAvailableIsMissed(f: Field, v: string, resolve: Resolver)
    requires v != ""
    ensures var group := [SampleTagged(map[f := Str("")], 1), SampleTagged(map[f := Str(v)], 2)];
            && !Disagree(group, f)
            && MergeRecordList("400000", Sorted(group), resolve).field(f) == None
            && FirstOffer(Sorted(group), f) == Some(v)
  {
    var group := [SampleTagged(map[f := Str("")], 1), SampleTagged(map[f := Str(v)], 2)];
    SortedPair(group[0], group[1], Precedes);
    DisagreeIff(group, f);
    assert FirstOffer(group[1..], f) == Some(v);
  }

  /** One record has a value and the other leaves the field undefined: the field goes to the resolver. */
  lemma {:induction false} UndefinedIsDisputed(f: Field, v: string)
    requires v != ""
    ensures Disagree([SampleTagged(map[f := Str(v)], 1), SampleTagged(map[], 2)], f)
  {
    var group := [SampleTagged(map[f := Str(v)], 1), SampleTagged(map[], 2)];
    assert group[0] in group && group[1] in group;
    assert Differ(GetFieldValue(group[0].record, f), GetFieldValue(group[1].record, f));
  }

  /** Three records of one BIN are reported as two. */
  lemma {:induction false} ThirdRecordIsNotCounted(r: NormalizedRecord, info: SourceInfo, resolve: Resolver)
    ensures var all := All([Batch(info, [r, r, r])]);
            |all| == 3 && GetMergeStats(MergeBins(all, Bins(all), resolve)).totalRecords == 2
  {
    hide *;
    var t := Tagged(r, info);
    TagThree(r, info);
    assert [] + [t] == [t] && [t] + [t] == [t, t] && [t, t] + [t] == [t, t, t];
    NoGroups();
    GroupsAppend([], t, r.bin);
    GroupsAppend([t], t, r.bin);
    GroupsAppend([t, t], t, r.bin);
    MergeOneBin([t, t, t], r.bin, resolve);
  }

  lemma {:induction false} MergeOneBin(all: seq<Tagged>, bin: string, resolve: Resolver)
    requires Bins(all) == [bin] && |GroupOf(all, bin)| > 1
    ensures GetMergeStats(MergeBins(all, Bins(all), resolve)).totalRecords == 2
  {
    hide Bins;
    hide GroupOf;
    hide MergeRecordList;
    assert Init([bin]) == [];
    assert MergeBins(all, [], resolve) == MergeResult([], [], [], []);
  }

  lemma {:induction false} TagThree(r: NormalizedRecord, info: SourceInfo)
    ensures var t := Tagged(r, info); All([Batch(info, [r, r, r])]) == [t, t, t]
  {
    var batch := Batch(info, [r, r, r]);
    assert Init([batch]) == [] && All([batch]) == [] + Tag(info, [r, r, r]);
    assert Init([r, r, r]) == [r, r] && Init([r, r]) == [r] && Init([r]) == [];
    assert Tag(info, [r]) == [] + [Tagged(r, info)];
    assert Tag(info, [r, r]) == Tag(info, [r]) + [Tagged(r, info)];
  }
}
