/**
 Loading merged records into the bins table (scripts/etl/load.ts) and rolling a load back by its
 version stamp (scripts/etl/rollback-version.ts).
 */
module BinTable {
  import opened Sequences

  datatype Record = Record(
    bin: string, length: Option<int>, luhn: Option<bool>, scheme: Option<string>, brand: Option<string>,
    cardType: Option<string>, issuer: Option<string>, country: Option<string>, countryCode: Option<string>,
    bankCode: Option<string>, branchCode: Option<string>, url: Option<string>, phone: Option<string>,
    city: Option<string>, programType: Option<string>, regulatoryType: Option<string>,
    source: string, sourceVersion: string, raw: string, confidence: real)

  // ---------- rows ----------

  /** The columns that the upsert fills with COALESCE. */
  datatype Column =
    | Length | Luhn | Scheme | Brand | Issuer | Country | CountryCode | BankName | BankNameLocal | BankCode
    | BranchCode | Url | Phone | City | ProgramType | RegulatoryType | CardType | CardNetwork | CountryName
    | BinRangeStart | BinRangeEnd | ConfidenceScore

  datatype Value = Text(text: string) | Number(n: int) | Flag(flag: bool) | Score(score: real)

  /** A row; a column that is absent from `cols` is NULL. */
  datatype Row = Row(
    cols: map<Column, Value>, source: string, sourceVersion: string, raw: string, isActive: bool,
    importDate: int, lastUpdated: int, updatedAt: int)

  type Table = map<string, Row>

  function AsText(v: Option<string>): Option<Value> {
    if v.Some? then Some(Text(v.value)) else None
  }

  function Clamped(confidence: real): real {
    if confidence < 0.0 then 0.0 else if confidence > 100.0 then 100.0 else confidence
  }

  /** The nearest whole number of hundredths; the larger one if two are equally near. */
  function NormalizeConfidenceScore(confidence: real): (score: real)
    ensures 0.0 <= score <= 1.0
    ensures score * 100.0 == (score * 100.0).Floor as real
    ensures -0.5 < score * 100.0 - Clamped(confidence) <= 0.5
  {
    (Clamped(confidence) + 0.5).Floor as real / 100.0
  }

  /** The value that a record offers for a column. */
  function OfferedValue(r: Record, c: Column): Option<Value> {
    match c
    case Length => if r.length.Some? then Some(Number(r.length.value)) else None
    case Luhn => if r.luhn.Some? then Some(Flag(r.luhn.value)) else None
    case Scheme => AsText(r.scheme)
    case Brand => AsText(r.brand)
    case Issuer => AsText(r.issuer)
    case Country => AsText(r.country)
    case CountryCode => AsText(r.countryCode)
    case BankName => AsText(r.issuer)
    case BankNameLocal => None
    case BankCode => AsText(r.bankCode)
    case BranchCode => AsText(r.branchCode)
    case Url => AsText(r.url)
    case Phone => AsText(r.phone)
    case City => AsText(r.city)
    case ProgramType => AsText(r.programType)
    case RegulatoryType => AsText(r.regulatoryType)
    case CardType => AsText(r.cardType)
    case CardNetwork => AsText(r.scheme)
    case CountryName => AsText(r.country)
    case BinRangeStart => None
    case BinRangeEnd => None
    case ConfidenceScore => Some(Score(NormalizeConfidenceScore(r.confidence)))
  }

  /** The row offered to the table for a record; absent columns are NULL. */
  function Excluded(r: Record): map<Column, Value> {
    map c: Column | OfferedValue(r, c).Some? :: OfferedValue(r, c).value
  }

  /** INSERT ... ON CONFLICT DO UPDATE: an offered value replaces, an absent one keeps what is there. */
  function Upserted(table: Table, r: Record, version: string, now: int): Row {
    if r.bin in table then
      var row := table[r.bin];
      Row(row.cols + Excluded(r), r.source, version, r.raw, true, row.importDate, now, now)
    else
      Row(Excluded(r), r.source, version, r.raw, true, now, now, now)
  }

  // ---------- validation ----------

  predicate IsDigit(c: char) { '0' <= c <= '9' }

  predicate IsCapital(c: char) { 'A' <= c <= 'Z' }

  predicate ValidateRecord(r: Record) {
    && 6 <= |r.bin| <= 8 && (forall i :: 0 <= i < |r.bin| ==> IsDigit(r.bin[i]))
    && r.countryCode.Some? && |r.countryCode.value| == 2
    && IsCapital(r.countryCode.value[0]) && IsCapital(r.countryCode.value[1])
    && (r.length.Some? ==> 13 <= r.length.value <= 19)
  }

  // ---------- one load ----------

  datatype Options = Options(batchSize: nat, skipValidation: bool, dryRun: bool)

  datatype LoadError = InvalidRecord(bin: string) | FailedToLoad(bin: string) | BatchError

  /** Everything outside the program that a load depends on: the queries that fail and the time of each upsert. */
  datatype World = World(failing: set<nat>, clock: nat -> int)

  datatype Progress = Progress(table: Table, inserted: nat, updated: nat, failed: nat, errors: seq<LoadError>)

  predicate Accepts(r: Record, o: Options) {
    o.skipValidation || ValidateRecord(r)
  }

  /** What becomes of record number k. */
  function LoadOne(p: Progress, r: Record, k: nat, o: Options, version: string, w: World): Progress {
    if !Accepts(r, o) then p.(failed := p.failed + 1, errors := p.errors + [InvalidRecord(r.bin)])
    else if o.dryRun then p.(inserted := p.inserted + 1)
    else if k in w.failing then p.(failed := p.failed + 1, errors := p.errors + [FailedToLoad(r.bin)])
    else if r.bin in p.table then
      p.(table := p.table[r.bin := Upserted(p.table, r, version, w.clock(k))], updated := p.updated + 1)
    else
      p.(table := p.table[r.bin := Upserted(p.table, r, version, w.clock(k))], inserted := p.inserted + 1)
  }

  function Load(table: Table, records: seq<Record>, o: Options, version: string, w: World): Progress {
    if records == [] then Progress(table, 0, 0, 0, [])
    else LoadOne(Load(table, Init(records), o, version, w), Last(records), |records| - 1, o, version, w)
  }

  datatype RunStatus = Running | Completed | Failed | RolledBack
  datatype Run = Run(source: string, sourceVersion: string, status: RunStatus,
                     processed: nat, inserted: nat, updated: nat, failed: nat)

  datatype LoadResult = LoadResult(inserted: nat, updated: nat, failed: nat, errors: seq<LoadError>, etlRunId: Option<nat>)

  /** Which of the queries on the runs table succeed. */
  datatype RunQueries = RunQueries(create: bool, complete: bool, fail: bool)

  /** The row that a load leaves in the runs table. */
  function FinalRun(version: string, p: Progress, q: RunQueries): Run {
    if !q.complete && !q.fail then Run("multi-source-etl", version, Running, 0, 0, 0, 0)
    else Run("multi-source-etl", version, if q.complete then Completed else Failed,
             p.inserted + p.updated + p.failed, p.inserted, p.updated, p.failed)
  }

  /** What a load that is no dry run reports, None if it throws. */
  function FinalResult(runId: nat, p: Progress, q: RunQueries): Option<LoadResult> {
    if q.complete then Some(LoadResult(p.inserted, p.updated, p.failed, p.errors, Some(runId)))
    else if q.fail then Some(LoadResult(p.inserted, p.updated, p.failed, p.errors + [BatchError], None))
    else None
  }

  class BinStore {
    var bins: Table
    var runs: seq<Run>

    constructor ()
      ensures bins == map[] && runs == []
    {
      bins, runs := map[], [];
    }

    method UpsertRecord(r: Record, version: string, now: int) returns (inserted: bool)
      modifies this`bins
      ensures bins == old(bins)[r.bin := Upserted(old(bins), r, version, now)]
      ensures inserted <==> r.bin !in old(bins)
    {
      inserted := r.bin !in bins;
      if inserted {
        bins := bins[r.bin := Row(Excluded(r), r.source, version, r.raw, true, now, now, now)];
      } else {
        var row := bins[r.bin];
        bins := bins[r.bin := Row(row.cols + Excluded(r), r.source, version, r.raw, true, row.importDate, now, now)];
      }
    }

    function ProgressOf(result: LoadResult): Progress
      reads this`bins
    {
      Progress(bins, result.inserted, result.updated, result.failed, result.errors)
    }

    method LoadRecord(before: LoadResult, r: Record, k: nat, o: Options, version: string, w: World) returns (result: LoadResult)
      modifies this`bins
      ensures ProgressOf(result) == LoadOne(old(ProgressOf(before)), r, k, o, version, w)
      ensures result.etlRunId == before.etlRunId
    {
      result := before;
      if Accepts(r, o) {
        if o.dryRun {
          result := result.(inserted := result.inserted + 1);
        } else if k in w.failing {
          result := result.(failed := result.failed + 1, errors := result.errors + [FailedToLoad(r.bin)]);
        } else {
          var isNew := UpsertRecord(r, version, w.clock(k));
          if isNew {
            result := result.(inserted := result.inserted + 1);
          } else {
            result := result.(updated := result.updated + 1);
          }
        }
      } else {
        result := result.(failed := result.failed + 1, errors := result.errors + [InvalidRecord(r.bin)]);
      }
    }

    /**
     The batched loop amounts to loading one record after another.  Without a run nothing is loaded;
     a run that cannot be completed is marked as failed, or stays running, although all is loaded.
     */
    method LoadRecords(records: seq<Record>, o: Options, version: string, w: World, q: RunQueries)
      returns (result: Option<LoadResult>)
      modifies this
      ensures var p := Load(old(bins), records, o, version, w);
              if o.dryRun || records == [] then
                && bins == p.table && runs == old(runs)
                && result == Some(LoadResult(p.inserted, p.updated, p.failed, p.errors, None))
              else if !q.create then
                bins == old(bins) && runs == old(runs) && result == None
              else
                && bins == p.table && runs == old(runs) + [FinalRun(version, p, q)]
                && result == FinalResult(|old(runs)|, p, q)
      ensures var p := Load(old(bins), records, o, version, w);
              && (result.Some? ==> result.value.inserted == p.inserted && result.value.updated == p.updated
                                   && result.value.failed == p.failed && p.errors <= result.value.errors)
              && (|runs| > |old(runs)| ==>
                    var run := Last(runs);
                    && run.sourceVersion == version
                    && run.status == (if q.complete then Completed else if q.fail then Failed else Running)
                    && (run.status != Running ==>
                          && run.processed == |records| && run.inserted == p.inserted
                          && run.updated == p.updated && run.failed == p.failed))
    {
      hide LoadOne;
      LoadCountsEveryRecord(bins, records, o, version, w);
      if |records| == 0 { return Some(LoadResult(0, 0, 0, [], None)); }
      if !o.dryRun {
        if !q.create { return None; }
        runs := runs + [Run("multi-source-etl", version, Running, 0, 0, 0, 0)];
      }
      var loaded := LoadBatches(records, o, version, w);
      if o.dryRun { return Some(loaded); }
      var processed := loaded.inserted + loaded.updated + loaded.failed;
      if q.complete {
        runs := runs[|runs| - 1 := Run("multi-source-etl", version, Completed,
                                       processed, loaded.inserted, loaded.updated, loaded.failed)];
        return Some(loaded.(etlRunId := Some(|runs| - 1)));
      }
      if !q.fail { return None; }
      runs := runs[|runs| - 1 := Run("multi-source-etl", version, Failed,
                                     processed, loaded.inserted, loaded.updated, loaded.failed)];
      result := Some(loaded.(errors := loaded.errors + [BatchError]));
    }

    method LoadBatches(records: seq<Record>, o: Options, version: string, w: World) returns (result: LoadResult)
      modifies this`bins
      ensures ProgressOf(result) == Load(old(bins), records, o, version, w) && result.etlRunId == None
    {
      hide LoadOne;
      result := LoadResult(0, 0, 0, [], None);
      var batchSize := if o.batchSize == 0 then 100 else o.batchSize;
      var i := 0;
      while i < |records|
        invariant result.etlRunId == None
        invariant ProgressOf(result) == Load(old(bins), records[..Bounded(i, records)], o, version, w)
      {
        for k := i to Bounded(i + batchSize, records)
          invariant result.etlRunId == None
          invariant ProgressOf(result) == Load(old(bins), records[..k], o, version, w)
        {
          assert Init(records[..k + 1]) == records[..k];
          result := LoadRecord(result, records[k], k, o, version, w);
        }
        i := i + batchSize;
      }
      assert records[..|records|] == records;
    }

    /** Delete the rows of one version; given a run, also take the version from it and mark it. */
    method Rollback(version: Option<string>, runId: Option<nat>) returns (ok: bool)
      modifies this
      ensures ok <==> RollbackVersion(version, runId, old(runs)).Some?
      ensures !ok ==> bins == old(bins) && runs == old(runs)
      ensures ok ==>
                && bins == WithoutVersion(old(bins), RollbackVersion(version, runId, old(runs)).value)
                && runs == if runId.Some? && runId.value < |old(runs)|
                           then old(runs)[runId.value := old(runs)[runId.value].(status := RolledBack)] else old(runs)
      ensures version.Some? && version.value != "" ==> ok && IsRolledBack(old(bins), bins, version.value)
      ensures (version.None? || version.value == "") && runId.Some? && runId.value < |old(runs)| &&
              old(runs)[runId.value].sourceVersion != ""
              ==> ok && IsRolledBack(old(bins), bins, old(runs)[runId.value].sourceVersion)
    {
      var v := RollbackVersion(version, runId, runs);
      if v.None? { return false; }
      var keys := bins.Keys;
      while keys != {}
        invariant runs == old(runs) && keys <= bins.Keys <= old(bins).Keys
        invariant forall b :: b in bins ==> bins[b] == old(bins)[b]
        invariant forall b :: b in old(bins) && b !in keys ==> (b in bins <==> old(bins)[b].sourceVersion != v.value)
        decreases keys
      {
        var b :| b in keys;
        keys := keys - {b};
        if bins[b].sourceVersion == v.value {
          bins := bins - {b};
        }
      }
      assert bins == WithoutVersion(old(bins), v.value);
      if runId.Some? && runId.value < |runs| {
        runs := runs[runId.value := runs[runId.value].(status := RolledBack)];
      }
      ok := true;
    }
  }

  function Bounded(i: nat, records: seq<Record>): nat {
    if i < |records| then i else |records|
  }

  /** Exactly the rows of that version are gone, and the others are as they were. */
  ghost predicate IsRolledBack(before: Table, after: Table, version: string) {
    && (forall b :: b in after <==> b in before && before[b].sourceVersion != version)
    && (forall b :: b in after ==> after[b] == before[b])
  }

  function WithoutVersion(table: Table, version: string): Table {
    map b | b in table && table[b].sourceVersion != version :: table[b]
  }

  /** The version to roll back: the one given if it is not empty, else that of the given run. */
  function RollbackVersion(version: Option<string>, runId: Option<nat>, runs: seq<Run>): Option<string> {
    if version.Some? && version.value != "" then version
    else if runId.Some? && runId.value < |runs| && runs[runId.value].sourceVersion != ""
    then Some(runs[runId.value].sourceVersion)
    else None
  }

  // ---------- what a load amounts to ----------

  /** The numbers of the records that reach the table. */
  predicate Reaches(records: seq<Record>, k: int, o: Options, w: World) {
    0 <= k < |records| && !o.dryRun && Accepts(records[k], o) && k !in w.failing
  }

  /** The BINs that a load upserts. */
  ghost predicate Touches(records: seq<Record>, b: string, o: Options, w: World) {
    exists k :: Reaches(records, k, o, w) && records[k].bin == b
  }

  /** Everything the records that reach the table offer for one BIN, later values over earlier ones. */
  function Offered(records: seq<Record>, b: string, o: Options, w: World): map<Column, Value> {
    if records == [] then map[]
    else
      Offered(Init(records), b, o, w) +
      if Reaches(records, |records| - 1, o, w) && Last(records).bin == b then Excluded(Last(records)) else map[]
  }

  /** The last record for the BIN that reaches the table, or -1. */
  function LastFor(records: seq<Record>, b: string, o: Options, w: World): (k: int)
    ensures -1 <= k < |records|
    ensures k >= 0 ==> Reaches(records, k, o, w) && records[k].bin == b
    ensures k < 0 ==> !Touches(records, b, o, w)
  {
    if records == [] then -1
    else if Reaches(records, |records| - 1, o, w) && Last(records).bin == b then |records| - 1
    else
      var k := LastFor(Init(records), b, o, w);
      assert forall j :: Reaches(records, j, o, w) && records[j].bin == b ==>
                           j < |records| - 1 && Reaches(Init(records), j, o, w) && Init(records)[j].bin == b;
      k
  }

  /** A row without its timestamps. */
  datatype Content = Content(cols: map<Column, Value>, source: string, sourceVersion: string, raw: string, isActive: bool)

  function ContentOf(row: Row): Content {
    Content(row.cols, row.source, row.sourceVersion, row.raw, row.isActive)
  }

  /** A table without timestamps. */
  function Contents(table: Table): map<string, Content> {
    map b | b in table :: ContentOf(table[b])
  }

  /** The columns a table holds for a BIN; none if the BIN is absent. */
  function ColsOf(table: Table, b: string): map<Column, Value> {
    if b in table then table[b].cols else map[]
  }

  /** The table has that value in that column of the BIN's row. */
  predicate Shows(table: Table, b: string, c: Column, v: Value) {
    b in table && c in table[b].cols && table[b].cols[c] == v
  }

  /** Every record is counted once, and every failure is reported. */
  lemma {:induction false} LoadCountsEveryRecord(table: Table, records: seq<Record>, o: Options, version: string, w: World)
    ensures var p := Load(table, records, o, version, w);
            p.inserted + p.updated + p.failed == |records| && |p.errors| == p.failed
    decreases |records|
  {
    if records != [] {
      LoadCountsEveryRecord(table, Init(records), o, version, w);
    }
  }

  /** What loading one record does to the row of one BIN. */
  lemma {:induction false} RowAfterOne(p: Progress, r: Record, k: nat, o: Options, version: string, w: World, b: string)
    ensures var next, reaches := LoadOne(p, r, k, o, version, w).table, !o.dryRun && Accepts(r, o) && k !in w.failing;
            if reaches && r.bin == b then
              b in next && ContentOf(next[b]) == Content(ColsOf(p.table, b) + Excluded(r), r.source, version, r.raw, true)
            else
              (b in next <==> b in p.table) && (b in p.table ==> next[b] == p.table[b])
  {
    hide Excluded;
    hide Accepts;
    assert map[] + Excluded(r) == Excluded(r);
  }

  /**
   The row of `b` after a load that offered `offered`, last by record `last`: unchanged if no record
   reached it; otherwise the old columns overlaid with everything offered, and the source, raw data
   and stamp of the last record.
   */
  ghost predicate IsLoadedRow(
    before: Table, after: Table, b: string, offered: map<Column, Value>, last: Option<Record>, version: string)
  {
    if last.None? then
      (b in after <==> b in before) && (b in before ==> after[b] == before[b]) && offered == map[]
    else
      && b in after
      && ContentOf(after[b]) == Content(ColsOf(before, b) + offered, last.value.source, version, last.value.raw, true)
  }

  function LastRecordFor(records: seq<Record>, b: string, o: Options, w: World): Option<Record> {
    var k := LastFor(records, b, o, w);
    if k < 0 then None else Some(records[k])
  }

  lemma {:induction false} LoadedRowStep(before: Table, p: Progress, b: string, offered: map<Column, Value>, last: Option<Record>,
                      r: Record, k: nat, o: Options, version: string, w: World)
    requires IsLoadedRow(before, p.table, b, offered, last, version)
    ensures var reaches := !o.dryRun && Accepts(r, o) && k !in w.failing && r.bin == b;
            IsLoadedRow(before, LoadOne(p, r, k, o, version, w).table, b,
                        if reaches then offered + Excluded(r) else offered, if reaches then Some(r) else last, version)
  {
    hide LoadOne;
    hide Excluded;
    hide Accepts;
    RowAfterOne(p, r, k, o, version, w, b);
    var c := ColsOf(before, b);
    assert (c + offered) + Excluded(r) == c + (offered + Excluded(r));
    assert c + map[] == c;
  }

  lemma {:induction false} OfferedUnfolds(records: seq<Record>, b: string, o: Options, w: World)
    requires records != []
    ensures var r := Last(records);
            var reaches := !o.dryRun && Accepts(r, o) && |records| - 1 !in w.failing && r.bin == b;
            && Offered(records, b, o, w) == (if reaches then Offered(Init(records), b, o, w) + Excluded(r) else Offered(Init(records), b, o, w))
            && LastRecordFor(records, b, o, w) == (if reaches then Some(r) else LastRecordFor(Init(records), b, o, w))
  {
    hide Excluded;
    hide Accepts;
    assert Offered(Init(records), b, o, w) + map[] == Offered(Init(records), b, o, w);
  }

  /** Main result on loading: what the table holds for each BIN afterwards. */
  lemma {:induction false} LoadedRow(table: Table, records: seq<Record>, o: Options, version: string, w: World, b: string)
    ensures IsLoadedRow(table, Load(table, records, o, version, w).table, b,
                        Offered(records, b, o, w), LastRecordFor(records, b, o, w), version)
    decreases |records|
  {
    hide *;
    LoadUnfolds(table, records, b, o, version, w);
    if records != [] {
      var init, last := Init(records), Last(records);
      LoadedRow(table, init, o, version, w, b);
      OfferedUnfolds(records, b, o, w);
      LoadedRowStep(table, Load(table, init, o, version, w), b, Offered(init, b, o, w), LastRecordFor(init, b, o, w),
                    last, |records| - 1, o, version, w);
    }
  }

  lemma {:induction false} LoadUnfolds(table: Table, records: seq<Record>, b: string, o: Options, version: string, w: World)
    ensures records == [] ==>
              IsLoadedRow(table, Load(table, records, o, version, w).table, b,
                          Offered(records, b, o, w), LastRecordFor(records, b, o, w), version)
    ensures records != [] ==>
              Load(table, records, o, version, w) ==
              LoadOne(Load(table, Init(records), o, version, w), Last(records), |records| - 1, o, version, w)
  {
    hide LoadOne;
  }

  // ---------- what is offered, accepted and reported ----------

  predicate HasText(cols: map<Column, Value>, c: Column, v: Option<string>) {
    if v.Some? then c in cols && cols[c] == Text(v.value) else c !in cols
  }

  /** What a record puts into each column. */
  lemma {:induction false} OfferedColumns(r: Record)
    ensures var cols := Excluded(r);
            && (if r.length.Some? then Length in cols && cols[Length] == Number(r.length.value) else Length !in cols)
            && (if r.luhn.Some? then Luhn in cols && cols[Luhn] == Flag(r.luhn.value) else Luhn !in cols)
            && HasText(cols, Scheme, r.scheme) && HasText(cols, CardNetwork, r.scheme) && HasText(cols, Brand, r.brand)
            && HasText(cols, CardType, r.cardType) && HasText(cols, Issuer, r.issuer) && HasText(cols, BankName, r.issuer)
            && HasText(cols, Country, r.country) && HasText(cols, CountryName, r.country)
            && HasText(cols, CountryCode, r.countryCode) && HasText(cols, BankCode, r.bankCode)
            && HasText(cols, BranchCode, r.branchCode) && HasText(cols, Url, r.url) && HasText(cols, Phone, r.phone)
            && HasText(cols, City, r.city) && HasText(cols, ProgramType, r.programType)
            && HasText(cols, RegulatoryType, r.regulatoryType)
            && BankNameLocal !in cols && BinRangeStart !in cols && BinRangeEnd !in cols
            && ConfidenceScore in cols && cols[ConfidenceScore].Score?
            && IsNearestHundredth(cols[ConfidenceScore].score, r.confidence)
  {
    hide *;
    OtherColumns(r);
    CardColumns(r);
    PlaceColumns(r);
  }

  lemma {:induction false} CardColumns(r: Record)
    ensures var cols := Excluded(r);
            && HasText(cols, Scheme, r.scheme) && HasText(cols, CardNetwork, r.scheme) && HasText(cols, Brand, r.brand)
            && HasText(cols, CardType, r.cardType) && HasText(cols, Issuer, r.issuer) && HasText(cols, BankName, r.issuer)
            && HasText(cols, BankCode, r.bankCode) && HasText(cols, BranchCode, r.branchCode)
  {
    hide Excluded;
    hide HasText;
    TextColumn(r, Scheme, r.scheme);
    TextColumn(r, CardNetwork, r.scheme);
    TextColumn(r, Brand, r.brand);
    TextColumn(r, CardType, r.cardType);
    TextColumn(r, Issuer, r.issuer);
    TextColumn(r, BankName, r.issuer);
    TextColumn(r, BankCode, r.bankCode);
    TextColumn(r, BranchCode, r.branchCode);
  }

  lemma {:induction false} PlaceColumns(r: Record)
    ensures var cols := Excluded(r);
            && HasText(cols, Country, r.country) && HasText(cols, CountryName, r.country)
            && HasText(cols, CountryCode, r.countryCode) && HasText(cols, Url, r.url) && HasText(cols, Phone, r.phone)
            && HasText(cols, City, r.city) && HasText(cols, ProgramType, r.programType)
            && HasText(cols, RegulatoryType, r.regulatoryType)
  {
    hide Excluded;
    hide HasText;
    TextColumn(r, Country, r.country);
    TextColumn(r, CountryName, r.country);
    TextColumn(r, CountryCode, r.countryCode);
    TextColumn(r, Url, r.url);
    TextColumn(r, Phone, r.phone);
    TextColumn(r, City, r.city);
    TextColumn(r, ProgramType, r.programType);
    TextColumn(r, RegulatoryType, r.regulatoryType);
  }

  lemma {:induction false} TextColumn(r: Record, c: Column, v: Option<string>)
    requires OfferedValue(r, c) == AsText(v)
    ensures HasText(Excluded(r), c, v)
  {
  }

  lemma {:induction false} OtherColumns(r: Record)
    ensures var cols := Excluded(r);
            && (if r.length.Some? then Length in cols && cols[Length] == Number(r.length.value) else Length !in cols)
            && (if r.luhn.Some? then Luhn in cols && cols[Luhn] == Flag(r.luhn.value) else Luhn !in cols)
            && BankNameLocal !in cols && BinRangeStart !in cols && BinRangeEnd !in cols
            && ConfidenceScore in cols && cols[ConfidenceScore].Score?
            && IsNearestHundredth(cols[ConfidenceScore].score, r.confidence)
  {
  }

  /** A whole number of hundredths, nearest to the confidence as a share of 100 between 0 and 1; upward if two are. */
  predicate IsNearestHundredth(score: real, confidence: real) {
    var c := if confidence < 0.0 then 0.0 else if confidence > 100.0 then 100.0 else confidence;
    (score * 100.0).Floor as real == score * 100.0 && -0.5 < score * 100.0 - c <= 0.5
  }

  /** Six to eight decimal digits, a country code of two capitals, and no length or one from 13 to 19. */
  lemma {:induction false} ValidateIff(r: Record)
    ensures ValidateRecord(r) <==>
            && |r.bin| in {6, 7, 8} && (forall c :: c in r.bin ==> c in "0123456789")
            && r.countryCode.Some? && |r.countryCode.value| == 2
            && (forall c :: c in r.countryCode.value ==> c in "ABCDEFGHIJKLMNOPQRSTUVWXYZ")
            && (r.length == None || r.length.value in {13, 14, 15, 16, 17, 18, 19})
  {
    DigitsAre(r.bin);
    if r.countryCode.Some? {
      CapitalsAre(r.countryCode.value);
    }
    hide IsDigit;
    hide IsCapital;
  }

  lemma {:induction false} DigitsAre(s: string)
    ensures (forall i :: 0 <= i < |s| ==> IsDigit(s[i])) <==> forall c :: c in s ==> c in "0123456789"
  {
    forall i | 0 <= i < |s| ensures IsDigit(s[i]) <==> s[i] in "0123456789" {
      DigitIs(s[i]);
    }
    hide IsDigit;
    assert forall i :: 0 <= i < |s| ==> s[i] in s;
  }

  lemma {:induction false} CapitalsAre(s: string)
    ensures |s| == 2 ==>
              (IsCapital(s[0]) && IsCapital(s[1]) <==> forall c :: c in s ==> c in "ABCDEFGHIJKLMNOPQRSTUVWXYZ")
  {
    if |s| == 2 {
      CapitalIs(s[0]);
      CapitalIs(s[1]);
      hide IsCapital;
      assert s[0] in s && s[1] in s;
    }
  }

  lemma {:induction false} DigitIs(c: char)
    ensures IsDigit(c) <==> c in "0123456789"
  {
  }

  lemma {:induction false} CapitalIs(c: char)
    ensures IsCapital(c) <==> c in "ABCDEFGHIJKLMNOPQRSTUVWXYZ"
  {
    if IsCapital(c) {
      assert "ABCDEFGHIJKLMNOPQRSTUVWXYZ"[c as int - 'A' as int] == c;
    }
  }

  /** The BINs of the table after a load: those before it and those it touches. */
  lemma {:induction false} BinsAfterLoad(table: Table, records: seq<Record>, o: Options, version: string, w: World, b: string)
    ensures b in Load(table, records, o, version, w).table <==> b in table || Touches(records, b, o, w)
  {
    hide Load;
    hide Offered;
    LoadedRow(table, records, o, version, w, b);
    assert LastFor(records, b, o, w) < 0 <==> !Touches(records, b, o, w);
  }

  /** Record k is refused by validation, or its upsert fails. */
  predicate IsFailure(records: seq<Record>, k: int, o: Options, w: World) {
    0 <= k < |records| && ((!o.skipValidation && !ValidateRecord(records[k])) || (!o.dryRun && k in w.failing))
  }

  /** Record k is upserted, and its BIN was in the table or is that of an earlier record that was upserted. */
  ghost predicate IsUpdate(table: Table, records: seq<Record>, k: int, o: Options, w: World) {
    Reaches(records, k, o, w) && (records[k].bin in table || Touches(records[..k], records[k].bin, o, w))
  }

  function ErrorOf(r: Record, o: Options): LoadError {
    if !o.skipValidation && !ValidateRecord(r) then InvalidRecord(r.bin) else FailedToLoad(r.bin)
  }

  /** The failures reported, in order: `at` lists the records that fail. */
  ghost predicate AreFailures(at: seq<nat>, errors: seq<LoadError>, records: seq<Record>, o: Options, w: World) {
    && |errors| == |at|
    && (forall i, j :: 0 <= i < j < |at| ==> at[i] < at[j])
    && (forall k :: k in at <==> IsFailure(records, k, o, w))
    && (forall i :: 0 <= i < |at| ==> at[i] < |records| && errors[i] == ErrorOf(records[at[i]], o))
  }

  ghost function Updates(table: Table, records: seq<Record>, o: Options, w: World): set<nat> {
    set k: nat | k < |records| && IsUpdate(table, records, k, o, w)
  }

  /** Main result on the report: what fails, with its error, what is updated, and that all else is inserted. */
  lemma {:induction false} LoadReports(table: Table, records: seq<Record>, o: Options, version: string, w: World)
    returns (at: seq<nat>)
    ensures var p := Load(table, records, o, version, w);
            && AreFailures(at, p.errors, records, o, w) && p.failed == |at|
            && p.updated == |Updates(table, records, o, w)|
            && p.inserted == |records| - p.failed - p.updated
    decreases |records|
  {
    hide *;
    LoadCountsEveryRecord(table, records, o, version, w);
    if records == [] {
      at := [];
      NothingReported(table, records, o, version, w);
    } else {
      var init, n := Init(records), |records| - 1;
      at := LoadReports(table, init, o, version, w);
      LoadUnfolds(table, records, "", o, version, w);
      BinsAfterLoad(table, init, o, version, w, Last(records).bin);
      OneReported(table, Load(table, init, o, version, w), records, o, version, w);
      NextFailure(at, Load(table, init, o, version, w).errors, records, o, w);
      NextUpdate(table, records, o, w);
      if IsFailure(records, n, o, w) {
        at := at + [n];
      }
    }
  }

  lemma {:induction false} NothingReported(table: Table, records: seq<Record>, o: Options, version: string, w: World)
    requires records == []
    ensures Load(table, records, o, version, w) == Progress(table, 0, 0, 0, [])
    ensures AreFailures([], [], records, o, w) && Updates(table, records, o, w) == {}
  {
  }

  lemma {:induction false} OneReported(table: Table, p: Progress, records: seq<Record>, o: Options, version: string, w: World)
    requires records != []
    requires Last(records).bin in p.table <==> Last(records).bin in table || Touches(Init(records), Last(records).bin, o, w)
    ensures var n := |records| - 1;
            var next := LoadOne(p, Last(records), n, o, version, w);
            && next.errors == (if IsFailure(records, n, o, w) then p.errors + [ErrorOf(Last(records), o)] else p.errors)
            && next.failed == p.failed + (if IsFailure(records, n, o, w) then 1 else 0)
            && next.updated == p.updated + (if IsUpdate(table, records, n, o, w) then 1 else 0)
  {
    hide Touches;
    hide Upserted;
    hide ValidateRecord;
    assert records[..|records| - 1] == Init(records);
  }

  lemma {:induction false} NextFailure(at: seq<nat>, errors: seq<LoadError>, records: seq<Record>, o: Options, w: World)
    requires records != [] && AreFailures(at, errors, Init(records), o, w)
    ensures var n := |records| - 1;
            if IsFailure(records, n, o, w)
            then AreFailures(at + [n], errors + [ErrorOf(Last(records), o)], records, o, w)
            else AreFailures(at, errors, records, o, w)
  {
    hide ValidateRecord;
    hide ErrorOf;
    var n := |records| - 1;
    forall k | 0 <= k < n ensures IsFailure(Init(records), k, o, w) <==> IsFailure(records, k, o, w) {
      assert Init(records)[k] == records[k];
    }
    hide IsFailure;
    assert forall i :: 0 <= i < |at| ==> at[i] < n && Init(records)[at[i]] == records[at[i]];
    assert forall k :: k in at ==> k < n;
  }

  lemma {:induction false} NextUpdate(table: Table, records: seq<Record>, o: Options, w: World)
    requires records != []
    ensures |Updates(table, records, o, w)| ==
            |Updates(table, Init(records), o, w)| + if IsUpdate(table, records, |records| - 1, o, w) then 1 else 0
  {
    hide Touches;
    hide Accepts;
    var n := |records| - 1;
    forall k: nat | k < n ensures IsUpdate(table, Init(records), k, o, w) <==> IsUpdate(table, records, k, o, w) {
      assert Init(records)[k] == records[k] && Init(records)[..k] == records[..k];
    }
    hide IsUpdate;
    assert Updates(table, records, o, w) ==
           Updates(table, Init(records), o, w) + if IsUpdate(table, records, n, o, w) then {n} else {};
  }

  /** The first record for the BIN that reaches the table. */
  ghost predicate IsFirstFor(records: seq<Record>, k: int, b: string, o: Options, w: World) {
    Reaches(records, k, o, w) && records[k].bin == b && forall j :: 0 <= j < k && Reaches(records, j, o, w) ==> records[j].bin != b
  }

  ghost predicate IsLastFor(records: seq<Record>, k: int, b: string, o: Options, w: World) {
    Reaches(records, k, o, w) && records[k].bin == b && forall j :: k < j < |records| && Reaches(records, j, o, w) ==> records[j].bin != b
  }

  /** The times in a row: updated with the last record that reached it, imported with the first if the BIN was new. */
  lemma {:induction false} LoadedTimes(
    table: Table, records: seq<Record>, o: Options, version: string, w: World, b: string, first: nat, last: nat)
    requires IsFirstFor(records, first, b, o, w) && IsLastFor(records, last, b, o, w)
    ensures var loaded := Load(table, records, o, version, w).table;
            && b in loaded
            && loaded[b].lastUpdated == loaded[b].updatedAt == w.clock(last)
            && loaded[b].importDate == if b in table then table[b].importDate else w.clock(first)
    decreases |records|
  {
    hide Excluded;
    hide Accepts;
    var init, n := Init(records), |records| - 1;
    BinsAfterLoad(table, init, o, version, w, b);
    assert forall j :: 0 <= j < n ==> init[j] == records[j];
    if last == n {
      if first < n {
        assert Reaches(init, first, o, w) && init[first].bin == b;
        var k := LastFor(init, b, o, w);
        LastForIsLast(init, b, o, w);
        LoadedTimes(table, init, o, version, w, b, first, k);
      } else {
        assert !Touches(init, b, o, w);
        LoadedRow(table, init, o, version, w, b);
      }
    } else {
      LoadedTimes(table, init, o, version, w, b, first, last);
    }
  }

  lemma {:induction false} LastForIsLast(records: seq<Record>, b: string, o: Options, w: World)
    ensures LastFor(records, b, o, w) >= 0 ==> IsLastFor(records, LastFor(records, b, o, w), b, o, w)
    decreases |records|
  {
    hide Accepts;
    if records != [] {
      LastForIsLast(Init(records), b, o, w);
      assert forall j :: 0 <= j < |records| - 1 ==> Init(records)[j] == records[j];
    }
  }

  // ---------- rolling back ----------

  /** Rolling a load back leaves the old rows that were neither touched by it nor stamped with its version before. */
  lemma {:induction false} RollbackAfterLoad(table: Table, records: seq<Record>, o: Options, version: string, w: World)
    ensures WithoutVersion(Load(table, records, o, version, w).table, version) ==
            map b | b in table && LastFor(records, b, o, w) < 0 && table[b].sourceVersion != version :: table[b]
  {
    var loaded := Load(table, records, o, version, w).table;
    forall b
      ensures LastFor(records, b, o, w) < 0 ==> (b in loaded <==> b in table) && (b in table ==> loaded[b] == table[b])
      ensures LastFor(records, b, o, w) >= 0 ==> b in loaded && loaded[b].sourceVersion == version
    {
      LoadedRow(table, records, o, version, w, b);
      hide Load;
      hide Offered;
      hide LastFor;
    }
    hide Load;
    hide LastFor;
  }

  /** A rollback restores the table exactly when the load touched no BIN already present and the stamp was fresh. */
  lemma {:induction false} RollbackRestoresIff(table: Table, records: seq<Record>, o: Options, version: string, w: World)
    ensures WithoutVersion(Load(table, records, o, version, w).table, version) == table
            <==> forall b :: b in table ==> !Touches(records, b, o, w) && table[b].sourceVersion != version
  {
    hide Load;
    hide Reaches;
    RollbackAfterLoad(table, records, o, version, w);
    forall b ensures LastFor(records, b, o, w) < 0 <==> !Touches(records, b, o, w) {
    }
  }

  /**
   If no query fails, that can be read off the records and the table: no row carries the stamp yet,
   and no record that is loaded has the BIN of a row.
   */
  lemma {:induction false} RollbackRestoresUnlessKnown(table: Table, records: seq<Record>, o: Options, version: string, w: World)
    requires w.failing == {}
    ensures WithoutVersion(Load(table, records, o, version, w).table, version) == table
            <==> && (forall b :: b in table ==> table[b].sourceVersion != version)
                 && (o.dryRun || forall r :: r in records && Accepts(r, o) ==> r.bin !in table)
  {
    hide Load;
    hide Accepts;
    RollbackRestoresIff(table, records, o, version, w);
    if !o.dryRun {
      forall r | r in records && Accepts(r, o) ensures Touches(records, r.bin, o, w) {
        var k :| 0 <= k < |records| && records[k] == r;
        assert Reaches(records, k, o, w);
      }
    }
  }

  /** Loading a valid record over a row with its BIN and rolling that back loses the row. */
  lemma {:induction false} RollbackLosesUpdatedRow(r: Record, row: Row, version: string, w: World)
    requires ValidateRecord(r) && w.failing == {} && row.sourceVersion != version
    ensures WithoutVersion(Load(map[r.bin := row], [r], Options(100, false, false), version, w).table, version) == map[]
  {
    hide ValidateRecord;
    hide Upserted;
    var o := Options(100, false, false);
    RollbackAfterLoad(map[r.bin := row], [r], o, version, w);
    assert Reaches([r], 0, o, w) && [r][0].bin == r.bin;
    assert Touches([r], r.bin, o, w);
  }

  // ---------- loading twice ----------

  lemma {:induction false} SameLast(records: seq<Record>, b: string, o: Options, w: World, w': World)
    requires w.failing == w'.failing
    ensures LastFor(records, b, o, w) == LastFor(records, b, o, w')
    ensures Offered(records, b, o, w) == Offered(records, b, o, w')
  {
    hide Excluded;
    hide Accepts;
    if records != [] {
      SameLast(Init(records), b, o, w, w');
    }
  }

  /** Loading the same records again, whenever that is, changes nothing but timestamps. */
  lemma {:induction false} LoadIsIdempotent(table: Table, records: seq<Record>, o: Options, version: string, w: World, w': World)
    requires w.failing == w'.failing
    ensures var once := Load(table, records, o, version, w).table;
            Contents(Load(once, records, o, version, w').table) == Contents(once)
  {
    hide Load;
    hide LastFor;
    hide Offered;
    var once := Load(table, records, o, version, w).table;
    var twice := Load(once, records, o, version, w').table;
    forall b ensures b in twice <==> b in once
             ensures b in once ==> ContentOf(twice[b]) == ContentOf(once[b])
    {
      LoadedRow(table, records, o, version, w, b);
      LoadedRow(once, records, o, version, w', b);
      SameLast(records, b, o, w, w');
      var c, offered := ColsOf(table, b), Offered(records, b, o, w);
      assert (c + offered) + offered == c + offered;
    }
  }

  /** The number of rows grows by exactly the number reported as inserted. */
  lemma {:induction false} TableGrowsByInserted(table: Table, records: seq<Record>, o: Options, version: string, w: World)
    requires !o.dryRun
    ensures var p := Load(table, records, o, version, w);
            |p.table| == |table| + p.inserted
    decreases |records|
  {
    hide Excluded;
    hide Upserted;
    hide Accepts;
    if records != [] {
      TableGrowsByInserted(table, Init(records), o, version, w);
    }
  }

  /** The second of two loads of the same records inserts no row. */
  lemma {:induction false} SecondLoadInsertsNothing(table: Table, records: seq<Record>, o: Options, version: string, w: World, w': World)
    requires w.failing == w'.failing && !o.dryRun
    ensures Load(Load(table, records, o, version, w).table, records, o, version, w').inserted == 0
  {
    hide Load;
    var once := Load(table, records, o, version, w).table;
    var twice := Load(once, records, o, version, w').table;
    LoadIsIdempotent(table, records, o, version, w, w');
    assert Contents(once).Keys == once.Keys && Contents(twice).Keys == twice.Keys;
    assert |once| == |once.Keys| && |twice| == |twice.Keys|;
    TableGrowsByInserted(once, records, o, version, w');
  }

  /** COALESCE never loses a value: every column that was filled stays filled, and keeps its value unless a record offers one. */
  lemma {:induction false} LoadNeverErases(table: Table, records: seq<Record>, o: Options, version: string, w: World, b: string, c: Column)
    requires b in table && c in table[b].cols
    ensures var loaded := Load(table, records, o, version, w).table;
            && b in loaded && c in loaded[b].cols
            && (c !in Offered(records, b, o, w) ==> loaded[b].cols[c] == table[b].cols[c])
  {
    hide Load;
    hide LastFor;
    hide Offered;
    LoadedRow(table, records, o, version, w, b);
  }
}
