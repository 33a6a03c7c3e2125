/**
 The pipeline (scripts/etl/etl.ts): merging, validation, enrichment and loading, each acting on the
 records that the one before produced.
 */
module Pipeline {
  import opened Sequences
  import Merge
  import Enrich
  import BinTable
  import VersionHash

  // ---------- one merged record as the stages see it ----------

  /** The fields that enrichment may fill. */
  function MergedField(f: Enrich.Field): Merge.Field {
    match f
    case Scheme => Merge.Scheme
    case Brand => Merge.Brand
    case CardType => Merge.CardType
    case Issuer => Merge.Issuer
    case Country => Merge.Country
    case CountryCode => Merge.CountryCode
    case Url => Merge.Url
    case Phone => Merge.Phone
    case City => Merge.City
  }

  /** The merged record as enrichment finds it. */
  function ToItem(m: Merge.MergedRecord): Enrich.Item {
    Enrich.Item(m.bin, map f: Enrich.Field | m.field(MergedField(f)).Some? :: m.field(MergedField(f)).value, [])
  }

  function ValueOf(item: Enrich.Item, f: Enrich.Field): Option<string> {
    if f in item.values then Some(item.values[f]) else None
  }

  /** The merged record as loading finds it: enrichable fields as enrichment left them, all others as merged. */
  function ToRecord(m: Merge.MergedRecord, item: Enrich.Item, json: Merge.MergedRecord -> string): (r: BinTable.Record)
    ensures r.bin == m.bin
  {
    BinTable.Record(
      m.bin, m.length, m.luhn, ValueOf(item, Enrich.Scheme), ValueOf(item, Enrich.Brand),
      ValueOf(item, Enrich.CardType), ValueOf(item, Enrich.Issuer), ValueOf(item, Enrich.Country), ValueOf(item, Enrich.CountryCode),
      m.field(Merge.BankCode), m.field(Merge.BranchCode), ValueOf(item, Enrich.Url), ValueOf(item, Enrich.Phone),
      ValueOf(item, Enrich.City), m.field(Merge.ProgramType), m.field(Merge.RegulatoryType),
      m.source, m.sourceVersion, json(m), m.confidence)
  }

  // ---------- the stages in a row ----------

  predicate IsValidMerged(m: Merge.MergedRecord) {
    && 6 <= |m.bin| <= 8 && (forall i :: 0 <= i < |m.bin| ==> BinTable.IsDigit(m.bin[i]))
    && m.field(Merge.CountryCode).Some? && m.field(Merge.CountryCode).value != ""
  }

  function ValidMerged(merged: seq<Merge.MergedRecord>): (valid: seq<Merge.MergedRecord>) {
    if merged == [] then []
    else ValidMerged(Init(merged)) + if IsValidMerged(Last(merged)) then [Last(merged)] else []
  }

  function Items(merged: seq<Merge.MergedRecord>): (items: seq<Enrich.Item>)
    ensures |items| == |merged| && forall i :: 0 <= i < |items| ==> items[i] == ToItem(merged[i])
  {
    seq(|merged|, i requires 0 <= i < |merged| => ToItem(merged[i]))
  }

  function Records(merged: seq<Merge.MergedRecord>, items: seq<Enrich.Item>, json: Merge.MergedRecord -> string): (records: seq<BinTable.Record>)
    requires |items| == |merged|
    ensures |records| == |merged| && forall i :: 0 <= i < |records| ==> records[i] == ToRecord(merged[i], items[i], json)
  {
    seq(|merged|, i requires 0 <= i < |merged| => ToRecord(merged[i], items[i], json))
  }

  /** The merged records that pass validation. */
  function MergedRecords(sources: seq<Merge.Batch>, resolve: Merge.Resolver): seq<Merge.MergedRecord> {
    var all := Merge.All(sources);
    ValidMerged(Merge.MergeBins(all, Merge.Bins(all), resolve).merged)
  }

  /** What the enrichment stage leaves of them. */
  function EnrichedItems(
    merged: seq<Merge.MergedRecord>, cache: Enrich.Cache, o: Enrich.Options, remote: (string, nat) -> Enrich.Lookup): (items: seq<Enrich.Item>)
    ensures |items| == |merged|
  {
    Enrich.Run(Items(merged), cache, |merged|, o, remote).items
  }

  // ---------- one record per BIN, through all stages ----------

  ghost predicate DistinctMerged(merged: seq<Merge.MergedRecord>) {
    forall i, j :: 0 <= i < j < |merged| ==> merged[i].bin != merged[j].bin
  }

  lemma {:induction false} ValidMembers(merged: seq<Merge.MergedRecord>)
    ensures forall m :: m in ValidMerged(merged) <==> m in merged && IsValidMerged(m)
    decreases |merged|
  {
    hide IsValidMerged;
    if merged != [] {
      ValidMembers(Init(merged));
      assert merged == Init(merged) + [Last(merged)];
    }
  }

  lemma {:induction false} ValidStaysDistinct(merged: seq<Merge.MergedRecord>)
    requires DistinctMerged(merged)
    ensures DistinctMerged(ValidMerged(merged))
    decreases |merged|
  {
    hide IsValidMerged;
    if merged != [] {
      var init, last := Init(merged), Last(merged);
      ValidStaysDistinct(init);
      ValidMembers(init);
      forall m | m in ValidMerged(init) ensures m.bin != last.bin {
        var i :| 0 <= i < |init| && init[i] == m;
        assert merged[i] == m;
      }
    }
  }

  /** Each record that merging hands on is the merge of the sorted group of its BIN. */
  lemma {:induction false} MergedRecordsAre(sources: seq<Merge.Batch>, resolve: Merge.Resolver)
    ensures var all := Merge.All(sources);
            && DistinctMerged(MergedRecords(sources, resolve))
            && forall m :: m in MergedRecords(sources, resolve) ==>
                 && Merge.GroupOf(all, m.bin) != []
                 && m == Merge.MergeRecordList(m.bin, Merge.Sorted(Merge.GroupOf(all, m.bin)), resolve)
  {
    hide Merge.Bins;
    hide Merge.GroupOf;
    hide Merge.Sorted;
    hide IsValidMerged;
    var all := Merge.All(sources);
    var bins := Merge.Bins(all);
    var merged := Merge.MergeBins(all, bins, resolve).merged;
    Merge.MergedPerBin(all, bins, resolve);
    Merge.BinsAreDistinct(all);
    assert forall i :: 0 <= i < |merged| ==> merged[i].bin == bins[i];
    ValidStaysDistinct(merged);
    ValidMembers(merged);
  }

  /** The records to be loaded have distinct BINs, so the order in which they arrive does not affect their stamp. */
  lemma {:induction false} LoadedBinsAreDistinct(
    sources: seq<Merge.Batch>, resolve: Merge.Resolver, items: seq<Enrich.Item>, json: Merge.MergedRecord -> string)
    requires |items| == |MergedRecords(sources, resolve)|
    ensures VersionHash.DistinctBins(Records(MergedRecords(sources, resolve), items, json))
  {
    hide MergedRecords;
    MergedRecordsAre(sources, resolve);
  }

  /** Enrichment changes no hashed field: a load and its repetition with enriched records share their stamp. */
  lemma {:induction false} EnrichmentKeepsStamp(
    merged: seq<Merge.MergedRecord>, items: seq<Enrich.Item>, items': seq<Enrich.Item>,
    json: Merge.MergedRecord -> string, show: real -> string)
    requires |items| == |items'| == |merged|
    ensures VersionHash.Preimage(Records(merged, items, json), show) == VersionHash.Preimage(Records(merged, items', json), show)
  {
    VersionHash.PreimageIgnoresOtherFields(Records(merged, items, json), Records(merged, items', json), show);
  }

  /** A merged record is handed on exactly if its BIN is six to eight decimal digits and it has a country code. */
  lemma {:induction false} HandedOnIff(sources: seq<Merge.Batch>, resolve: Merge.Resolver, bin: string)
    requires bin in Merge.Bins(Merge.All(sources))
    ensures Merge.GroupOf(Merge.All(sources), bin) != []
    ensures var m := Merge.MergeRecordList(bin, Merge.Sorted(Merge.GroupOf(Merge.All(sources), bin)), resolve);
            m in MergedRecords(sources, resolve) <==>
            && |bin| in {6, 7, 8} && (forall c :: c in bin ==> c in "0123456789")
            && m.field(Merge.CountryCode) != None && m.field(Merge.CountryCode) != Some("")
  {
    hide Merge.Bins;
    hide Merge.GroupOf;
    hide Merge.Sorted;
    var all := Merge.All(sources);
    var bins := Merge.Bins(all);
    Merge.GroupExistsIff(all, bin);
    var m := Merge.MergeRecordList(bin, Merge.Sorted(Merge.GroupOf(all, bin)), resolve);
    var merged := Merge.MergeBins(all, bins, resolve).merged;
    Merge.MergedPerBin(all, bins, resolve);
    var i :| 0 <= i < |bins| && bins[i] == bin;
    assert merged[i] == m;
    ValidMembers(merged);
    ValidMergedIff(m);
    hide IsValidMerged;
    hide Merge.MergeRecordList;
  }

  lemma {:induction false} ValidMergedIff(m: Merge.MergedRecord)
    ensures IsValidMerged(m) <==>
            && |m.bin| in {6, 7, 8} && (forall c :: c in m.bin ==> c in "0123456789")
            && m.field(Merge.CountryCode) != None && m.field(Merge.CountryCode) != Some("")
  {
    BinTable.DigitsAre(m.bin);
    hide BinTable.IsDigit;
  }

  /** What loading takes from the merged record as it is. */
  lemma {:induction false} RecordIs(m: Merge.MergedRecord, item: Enrich.Item, json: Merge.MergedRecord -> string)
    ensures var r := ToRecord(m, item, json);
            && r.bin == m.bin && r.length == m.length && r.luhn == m.luhn && r.raw == json(m)
            && r.source == m.source && r.sourceVersion == m.sourceVersion && r.confidence == m.confidence
  {
  }

  // ---------- what arrives in the table ----------

  /** Among distinct BINs a record is the only one to offer anything for its BIN. */
  lemma {:induction false} OnlyOffer(records: seq<BinTable.Record>, k: nat, o: BinTable.Options, w: BinTable.World)
    requires VersionHash.DistinctBins(records) && BinTable.Reaches(records, k, o, w)
    ensures BinTable.Offered(records, records[k].bin, o, w) == BinTable.Excluded(records[k])
    ensures BinTable.LastRecordFor(records, records[k].bin, o, w) == Some(records[k])
    decreases |records|
  {
    hide BinTable.Excluded;
    hide BinTable.Accepts;
    var init, b := Init(records), records[k].bin;
    BinTable.OfferedUnfolds(records, b, o, w);
    if k < |init| {
      assert init[k] == records[k];
      OnlyOffer(init, k, o, w);
    } else {
      NoOffer(init, b, o, w);
      assert map[] + BinTable.Excluded(records[k]) == BinTable.Excluded(records[k]);
    }
  }

  lemma {:induction false} NoOffer(records: seq<BinTable.Record>, b: string, o: BinTable.Options, w: BinTable.World)
    requires forall i :: 0 <= i < |records| ==> records[i].bin != b
    ensures BinTable.Offered(records, b, o, w) == map[]
    decreases |records|
  {
    hide BinTable.Excluded;
    hide BinTable.Accepts;
    if records != [] {
      NoOffer(Init(records), b, o, w);
    }
  }

  /** The row of a loaded record: the old columns overlaid with exactly what the record offers. */
  lemma {:induction false} ArrivedRow(
    table: BinTable.Table, records: seq<BinTable.Record>, k: nat, o: BinTable.Options, version: string, w: BinTable.World)
    requires VersionHash.DistinctBins(records) && BinTable.Reaches(records, k, o, w)
    ensures var r, loaded := records[k], BinTable.Load(table, records, o, version, w).table;
            && r.bin in loaded
            && BinTable.ContentOf(loaded[r.bin]) ==
               BinTable.Content(BinTable.ColsOf(table, r.bin) + BinTable.Excluded(r), r.source, version, r.raw, true)
  {
    hide BinTable.Load;
    hide BinTable.Excluded;
    hide BinTable.LastRecordFor;
    OnlyOffer(records, k, o, w);
    BinTable.LoadedRow(table, records, o, version, w, records[k].bin);
  }

  function ColumnOf(f: Merge.Field): BinTable.Column {
    match f
    case CountryCode => BinTable.CountryCode
    case Country => BinTable.Country
    case Scheme => BinTable.Scheme
    case Brand => BinTable.Brand
    case CardType => BinTable.CardType
    case Issuer => BinTable.Issuer
    case BankCode => BinTable.BankCode
    case BranchCode => BinTable.BranchCode
    case Url => BinTable.Url
    case Phone => BinTable.Phone
    case City => BinTable.City
    case ProgramType => BinTable.ProgramType
    case RegulatoryType => BinTable.RegulatoryType
  }

  /** An enrichable field keeps what merging put there. */
  predicate Keeps(item: Enrich.Item, m: Merge.MergedRecord, f: Enrich.Field) {
    var value := m.field(MergedField(f));
    value.Some? && value.value != "" ==> ValueOf(item, f) == value
  }

  lemma {:induction false} EnrichmentKeepsFields(
    merged: seq<Merge.MergedRecord>, cache: Enrich.Cache, o: Enrich.Options, remote: (string, nat) -> Enrich.Lookup, i: nat)
    requires i < |merged|
    ensures forall f :: Keeps(EnrichedItems(merged, cache, o, remote)[i], merged[i], f)
  {
    hide Enrich.Run;
    forall f ensures Keeps(EnrichedItems(merged, cache, o, remote)[i], merged[i], f) {
      var value := merged[i].field(MergedField(f));
      if value.Some? && value.value != "" {
        Enrich.PresentFieldsStay(Items(merged), cache, o, remote, i, f);
      }
    }
  }

  function FieldOf(r: BinTable.Record, f: Merge.Field): Option<string> {
    match f
    case CountryCode => r.countryCode
    case Country => r.country
    case Scheme => r.scheme
    case Brand => r.brand
    case CardType => r.cardType
    case Issuer => r.issuer
    case BankCode => r.bankCode
    case BranchCode => r.branchCode
    case Url => r.url
    case Phone => r.phone
    case City => r.city
    case ProgramType => r.programType
    case RegulatoryType => r.regulatoryType
  }

  lemma {:induction false} ColumnHoldsField(r: BinTable.Record, f: Merge.Field)
    ensures BinTable.OfferedValue(r, ColumnOf(f)) == BinTable.AsText(FieldOf(r, f))
  {
  }

  /** A value that the merged record has is offered to its column. */
  lemma {:induction false} FieldIsOffered(m: Merge.MergedRecord, item: Enrich.Item, json: Merge.MergedRecord -> string, f: Merge.Field)
    requires (forall e :: Keeps(item, m, e)) && m.field(f).Some? && m.field(f).value != ""
    ensures BinTable.OfferedValue(ToRecord(m, item, json), ColumnOf(f)) == Some(BinTable.Text(m.field(f).value))
  {
    hide ValueOf;
    ColumnHoldsField(ToRecord(m, item, json), f);
    hide ColumnOf;
    hide BinTable.OfferedValue;
    match f
    case CountryCode => assert Keeps(item, m, Enrich.CountryCode);
    case Country => assert Keeps(item, m, Enrich.Country);
    case Scheme => assert Keeps(item, m, Enrich.Scheme);
    case Brand => assert Keeps(item, m, Enrich.Brand);
    case CardType => assert Keeps(item, m, Enrich.CardType);
    case Issuer => assert Keeps(item, m, Enrich.Issuer);
    case Url => assert Keeps(item, m, Enrich.Url);
    case Phone => assert Keeps(item, m, Enrich.Phone);
    case City => assert Keeps(item, m, Enrich.City);
    case _ =>
  }

  /** The value arrives in the row of the record. */
  lemma {:induction false} ValueArrives(
    table: BinTable.Table, merged: seq<Merge.MergedRecord>, items: seq<Enrich.Item>, json: Merge.MergedRecord -> string,
    o: BinTable.Options, version: string, w: BinTable.World, k: nat, f: Merge.Field)
    requires k < |merged| == |items| && BinTable.Reaches(Records(merged, items, json), k, o, w)
    requires VersionHash.DistinctBins(Records(merged, items, json))
    requires (forall e :: Keeps(items[k], merged[k], e)) && merged[k].field(f).Some? && merged[k].field(f).value != ""
    ensures var loaded := BinTable.Load(table, Records(merged, items, json), o, version, w).table;
            BinTable.Shows(loaded, merged[k].bin, ColumnOf(f), BinTable.Text(merged[k].field(f).value))
  {
    hide *;
    var records := Records(merged, items, json);
    var loaded := BinTable.Load(table, records, o, version, w).table;
    ArrivedRow(table, records, k, o, version, w);
    FieldIsOffered(merged[k], items[k], json, f);
    OfferArrives(table, loaded, records[k], version, ColumnOf(f));
  }

  lemma {:induction false} OfferArrives(
    table: BinTable.Table, loaded: BinTable.Table, r: BinTable.Record, version: string, c: BinTable.Column)
    requires r.bin in loaded && BinTable.OfferedValue(r, c).Some?
    requires BinTable.ContentOf(loaded[r.bin]) ==
             BinTable.Content(BinTable.ColsOf(table, r.bin) + BinTable.Excluded(r), r.source, version, r.raw, true)
    ensures BinTable.Shows(loaded, r.bin, c, BinTable.OfferedValue(r, c).value)
  {
    hide BinTable.OfferedValue;
  }

  /**
   Main result: a value that the primary record offers for an undisputed field is what the table
   shows once the BIN's record is loaded, whatever the remote lookup answers.
   */
  lemma {:induction false} PrimaryValueArrives(
    table: BinTable.Table, sources: seq<Merge.Batch>, resolve: Merge.Resolver,
    cache: Enrich.Cache, eo: Enrich.Options, remote: (string, nat) -> Enrich.Lookup, json: Merge.MergedRecord -> string,
    lo: BinTable.Options, version: string, w: BinTable.World, k: nat, p: nat, f: Merge.Field)
    requires k < |MergedRecords(sources, resolve)|
    requires var merged := MergedRecords(sources, resolve);
             BinTable.Reaches(Records(merged, EnrichedItems(merged, cache, eo, remote), json), k, lo, w)
    requires var group := Merge.GroupOf(Merge.All(sources), MergedRecords(sources, resolve)[k].bin);
             Merge.IsPrimary(group, p) && !Merge.Disagree(group, f) && Merge.Offers(group[p], f)
    ensures var merged := MergedRecords(sources, resolve);
            var records := Records(merged, EnrichedItems(merged, cache, eo, remote), json);
            var group := Merge.GroupOf(Merge.All(sources), merged[k].bin);
            BinTable.Shows(BinTable.Load(table, records, lo, version, w).table, merged[k].bin, ColumnOf(f),
                           BinTable.Text(Merge.OfferOf(group[p], f).value))
  {
    var merged := MergedRecords(sources, resolve);
    var items := EnrichedItems(merged, cache, eo, remote);
    var group := Merge.GroupOf(Merge.All(sources), merged[k].bin);
    assert Merge.Offers(group[p], f) && 0 <= p < |group|;
    hide *;
    MergedRecordsAre(sources, resolve);
    assert merged[k] in merged;
    UndisputedFieldIsPrimarys(merged[k].bin, group, p, resolve, f);
    EnrichmentKeepsFields(merged, cache, eo, remote, k);
    LoadedBinsAreDistinct(sources, resolve, items, json);
    ValueArrives(table, merged, items, json, lo, version, w, k, f);
  }

  /** An enrichable field is loaded as enrichment left it. */
  lemma {:induction false} EnrichableField(m: Merge.MergedRecord, item: Enrich.Item, json: Merge.MergedRecord -> string, f: Enrich.Field)
    ensures FieldOf(ToRecord(m, item, json), MergedField(f)) == ValueOf(item, f)
  {
  }

  /**
   A field that merging left empty and for which the lookup of the BIN brought a value is that value in
   the table, once the BIN's record is loaded, if enrichment got that far.
   */
  lemma {:induction false} LookedUpValueArrives(
    table: BinTable.Table, sources: seq<Merge.Batch>, resolve: Merge.Resolver,
    cache: Enrich.Cache, eo: Enrich.Options, remote: (string, nat) -> Enrich.Lookup, json: Merge.MergedRecord -> string,
    lo: BinTable.Options, version: string, w: BinTable.World, f: Enrich.Field)
    returns (stop: nat)
    ensures var merged := MergedRecords(sources, resolve);
            var records := Records(merged, EnrichedItems(merged, cache, eo, remote), json);
            var s := Enrich.Run(Items(merged), cache, |merged|, eo, remote);
            var loaded := BinTable.Load(table, records, lo, version, w).table;
            && (stop < |merged| ==> s.counts.attempted >= eo.enrichLimit)
            && forall k :: 0 <= k < stop && k < |merged| && BinTable.Reaches(records, k, lo, w) ==>
                 var v := ValueLookedUp(merged[k], s.cache, eo, f);
                 v.Some? ==> BinTable.Shows(loaded, merged[k].bin, ColumnOf(MergedField(f)), BinTable.Text(v.value))
  {
    hide *;
    var merged := MergedRecords(sources, resolve);
    var items := EnrichedItems(merged, cache, eo, remote);
    var records := Records(merged, items, json);
    var s := Enrich.Run(Items(merged), cache, |merged|, eo, remote);
    EnrichedItemsAre(merged, cache, eo, remote);
    stop := Enrich.RunFills(Items(merged), cache, eo, remote);
    LoadedBinsAreDistinct(sources, resolve, items, json);
    forall k | 0 <= k < stop && k < |merged| && BinTable.Reaches(records, k, lo, w)
      ensures var v := ValueLookedUp(merged[k], s.cache, eo, f);
              v.Some? ==> BinTable.Shows(BinTable.Load(table, records, lo, version, w).table, merged[k].bin,
                                         ColumnOf(MergedField(f)), BinTable.Text(v.value))
    {
      var v := ValueLookedUp(merged[k], s.cache, eo, f);
      if v.Some? {
        LookedUpIsFilled(merged[k], s.cache, eo, f, items[k]);
        EnrichableField(merged[k], items[k], json, f);
        ColumnHoldsField(records[k], MergedField(f));
        OfferOfText(v.value);
        ArrivedRow(table, records, k, lo, version, w);
        OfferArrives(table, BinTable.Load(table, records, lo, version, w).table, records[k], version, ColumnOf(MergedField(f)));
      }
    }
  }

  lemma {:induction false} OfferOfText(v: string)
    ensures BinTable.AsText(Some(v)) == Some(BinTable.Text(v))
  {
  }

  lemma {:induction false} EnrichedItemsAre(
    merged: seq<Merge.MergedRecord>, cache: Enrich.Cache, o: Enrich.Options, remote: (string, nat) -> Enrich.Lookup)
    ensures EnrichedItems(merged, cache, o, remote) == Enrich.Run(Items(merged), cache, |merged|, o, remote).items
  {
  }

  /** The value that the cache holds for a field that the record lacks, if the record is one to be looked up. */
  function ValueLookedUp(m: Merge.MergedRecord, cache: Enrich.Cache, o: Enrich.Options, f: Enrich.Field): Option<string> {
    if !Enrich.IsComplete(ToItem(m), o) && m.field(MergedField(f)) in {None, Some("")} && m.bin in cache
       && cache[m.bin].data.Some? && f in cache[m.bin].data.value && cache[m.bin].data.value[f] != ""
    then Some(cache[m.bin].data.value[f]) else None
  }

  lemma {:induction false} LookedUpIsFilled(
    m: Merge.MergedRecord, cache: Enrich.Cache, o: Enrich.Options, f: Enrich.Field, after: Enrich.Item)
    requires ValueLookedUp(m, cache, o, f).Some?
    requires !Enrich.IsComplete(ToItem(m), o) ==> ToItem(m).bin in cache && Enrich.IsEnriched(ToItem(m), cache[ToItem(m).bin], after)
    ensures ValueOf(after, f) == ValueLookedUp(m, cache, o, f)
  {
    hide Enrich.IsComplete;
  }

  lemma {:induction false} UndisputedFieldIsPrimarys(bin: string, group: seq<Merge.Tagged>, p: nat, resolve: Merge.Resolver, f: Merge.Field)
    requires Merge.IsPrimary(group, p) && !Merge.Disagree(group, f) && Merge.Offers(group[p], f)
    ensures var m := Merge.MergeRecordList(bin, Merge.Sorted(group), resolve);
            m.field(f) == Merge.OfferOf(group[p], f) && m.field(f).Some? && m.field(f).value != ""
  {
    hide Merge.Sorted;
    hide Merge.Precedes;
    hide Merge.Disagree;
    Merge.MergedGroup(bin, group, resolve);
    var m := Merge.MergeRecordList(bin, Merge.Sorted(group), resolve);
    var q :| Merge.IsPrimary(group, q) && m.source == group[q].source.name && m.sourceVersion == group[q].source.version
             && m.luhn == group[q].record.luhn
             && forall f :: !Merge.Disagree(group, f) ==> m.field(f) == Merge.OfferOf(group[q], f);
    Merge.PrimaryIsUnique(group, p, q);
  }
}
