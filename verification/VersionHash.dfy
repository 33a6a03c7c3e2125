/**
 The version stamp of a load (scripts/etl/load.ts): a digest of a few fields of the records,
 visited in BIN order.  The digest itself is left as an arbitrary function; what is proved is
 about the characters fed to it.
 */
module VersionHash {
  import opened Sequences
  import opened Sorting
  import opened BinTable

  /** Lexicographic order of strings. */
  predicate Below(a: string, b: string) {
    if b == "" then false
    else if a == "" then true
    else if a[0] != b[0] then a[0] < b[0]
    else Below(a[1..], b[1..])
  }

  lemma {:induction false} BelowIsTotal(a: string, b: string)
    ensures a == b || Below(a, b) || Below(b, a)
    ensures !(Below(a, b) && Below(b, a))
    ensures !Below(a, a)
    decreases |a|
  {
    if a != "" {
      if b != "" {
        BelowIsTotal(a[1..], b[1..]);
        assert a == [a[0]] + a[1..] && b == [b[0]] + b[1..];
      }
      BelowIsTotal(a[1..], a[1..]);
    }
  }

  lemma {:induction false} BelowIsTransitive(a: string, b: string, c: string)
    requires Below(a, b) && Below(b, c)
    ensures Below(a, c)
    decreases |a|
  {
    if a != "" && a[0] == b[0] == c[0] {
      BelowIsTransitive(a[1..], b[1..], c[1..]);
    }
  }

  /** One string is below another if it differs first by a smaller character or is a proper beginning. */
  lemma {:induction false} BelowIff(a: string, b: string)
    ensures Below(a, b) <==> exists k :: IsBelowAt(a, b, k)
    decreases |a|
  {
    if a != "" && b != "" && a[0] == b[0] {
      BelowIff(a[1..], b[1..]);
      if k :| IsBelowAt(a[1..], b[1..], k) {
        assert a[..k + 1] == [a[0]] + a[1..][..k] && b[..k + 1] == [b[0]] + b[1..][..k];
        assert IsBelowAt(a, b, k + 1);
      }
      if k :| IsBelowAt(a, b, k) {
        assert k > 0;
        assert a[1..][..k - 1] == a[..k][1..] && b[1..][..k - 1] == b[..k][1..];
        assert IsBelowAt(a[1..], b[1..], k - 1);
      }
    } else if b != "" {
      if k :| IsBelowAt(a, b, k) {
        SameBeginning(a, b, k);
      }
      if Below(a, b) {
        assert IsBelowAt(a, b, 0);
      }
    }
  }

  lemma {:induction false} SameBeginning(a: string, b: string, k: nat)
    requires k <= |a| && k <= |b| && a[..k] == b[..k]
    ensures k > 0 ==> a[0] == b[0]
  {
    assert k > 0 ==> a[..k][0] == a[0] && b[..k][0] == b[0];
  }

  /** The strings agree up to k, where the first ends or has the smaller character. */
  predicate IsBelowAt(a: string, b: string, k: int) {
    0 <= k <= |a| && k < |b| && a[..k] == b[..k] && (k == |a| || a[k] < b[k])
  }

  predicate BinBelow(r: Record, s: Record) {
    Below(r.bin, s.bin)
  }

  lemma {:induction false} BinBelowIsOrder()
    ensures IsStrictWeakOrder(BinBelow)
  {
    hide Below;
    forall r: Record, s: Record ensures BinBelow(r, s) ==> !BinBelow(s, r) {
      BelowIsTotal(r.bin, s.bin);
    }
    forall r: Record, s: Record, t: Record | BinBelow(r, s) ensures BinBelow(r, t) || BinBelow(t, s) {
      BelowIsTotal(r.bin, t.bin);
      BelowIsTotal(t.bin, s.bin);
      if Below(t.bin, r.bin) {
        BelowIsTransitive(t.bin, r.bin, s.bin);
      }
    }
  }

  /** The stable sort by BIN. */
  function SortByBin(records: seq<Record>): seq<Record> {
    StableSort(records, BinBelow)
  }

  /** Records are taken in BIN order, those of equal BIN in input order, and no other order is such a sort. */
  lemma {:induction false} SortByBinIsUnique(records: seq<Record>, sorted: seq<Record>)
    ensures IsStableSort(records, sorted, BinBelow) <==> sorted == SortByBin(records)
  {
    hide IsStableSort;
    BinBelowIsOrder();
    StableSortIsUnique(records, sorted, BinBelow);
  }

  ghost predicate DistinctBins(records: seq<Record>) {
    forall i, j :: 0 <= i < j < |records| ==> records[i].bin != records[j].bin
  }

  /** At most one of several records with distinct BINs has a given BIN. */
  lemma {:induction false} TiesOfDistinct(records: seq<Record>, x: Record)
    requires DistinctBins(records)
    ensures |Ties(records, x, BinBelow)| <= 1
    ensures forall r :: r in Ties(records, x, BinBelow) <==> r in records && r.bin == x.bin
    decreases |records|
  {
    hide Below;
    forall r: Record ensures !BinBelow(x, r) && !BinBelow(r, x) <==> r.bin == x.bin {
      BelowIsTotal(x.bin, r.bin);
    }
    if records != [] {
      var init, last := Init(records), Last(records);
      TiesOfDistinct(init, x);
      TiesAppend(init, last, x, BinBelow);
      assert records == init + [last];
      var earlier := Ties(init, x, BinBelow);
      assert earlier != [] ==> earlier[0] in init && earlier[0].bin == x.bin;
    }
  }

  lemma {:induction false} SortIgnoresOrder(a: seq<Record>, b: seq<Record>)
    requires multiset(a) == multiset(b) && DistinctBins(a) && DistinctBins(b)
    ensures SortByBin(a) == SortByBin(b)
  {
    BinBelowIsOrder();
    forall x ensures Ties(a, x, BinBelow) == Ties(b, x, BinBelow) {
      TiesOfDistinct(a, x);
      TiesOfDistinct(b, x);
      assert forall r :: r in a <==> r in multiset(a);
      assert forall r :: r in b <==> r in multiset(b);
      SingletonsAgree(Ties(a, x, BinBelow), Ties(b, x, BinBelow));
    }
    hide Ties;
    SortIsStable(a, BinBelow);
    StableSortIsUnique(b, SortByBin(a), BinBelow);
  }

  lemma {:induction false} SingletonsAgree(a: seq<Record>, b: seq<Record>)
    requires |a| <= 1 && |b| <= 1 && forall r :: r in a <==> r in b
    ensures a == b
  {
    assert a != [] ==> a[0] in b;
    assert b != [] ==> b[0] in a;
  }

  // ---------- the characters that are hashed ----------

  /** What one record contributes; `show` prints its confidence. */
  function Contribution(r: Record, show: real -> string): string {
    r.bin + "|" + r.source + "|" + r.sourceVersion + "|" + show(r.confidence)
  }

  function Stream(sorted: seq<Record>, show: real -> string): string {
    if sorted == [] then "" else Stream(Init(sorted), show) + Contribution(Last(sorted), show)
  }

  function Preimage(records: seq<Record>, show: real -> string): string {
    Stream(SortByBin(records), show)
  }

  /** For each record, in BIN order: its BIN, its source, its version and its confidence, between them bars, and nothing else. */
  lemma {:induction false} PreimageIs(records: seq<Record>, show: real -> string)
    ensures var sorted := SortByBin(records);
            Preimage(records, show) ==
            Flatten(seq(|sorted|, k requires 0 <= k < |sorted| =>
              sorted[k].bin + "|" + sorted[k].source + "|" + sorted[k].sourceVersion + "|" + show(sorted[k].confidence)))
  {
    StreamIs(SortByBin(records), show);
  }

  lemma {:induction false} StreamIs(sorted: seq<Record>, show: real -> string)
    ensures Stream(sorted, show) ==
            Flatten(seq(|sorted|, k requires 0 <= k < |sorted| =>
              sorted[k].bin + "|" + sorted[k].source + "|" + sorted[k].sourceVersion + "|" + show(sorted[k].confidence)))
    decreases |sorted|
  {
    var parts := seq(|sorted|, k requires 0 <= k < |sorted| =>
      sorted[k].bin + "|" + sorted[k].source + "|" + sorted[k].sourceVersion + "|" + show(sorted[k].confidence));
    if sorted != [] {
      var init := Init(sorted);
      StreamIs(init, show);
      assert Init(parts) == seq(|init|, k requires 0 <= k < |init| =>
        init[k].bin + "|" + init[k].source + "|" + init[k].sourceVersion + "|" + show(init[k].confidence));
    }
  }

  method ComputeVersionHash(records: seq<Record>, show: real -> string, digest: string -> string) returns (version: string)
    ensures version == digest(Preimage(records, show))
  {
    var data := "";
    var sorted := SortByBin(records);
    for i := 0 to |sorted|
      invariant data == Stream(sorted[..i], show)
    {
      var r := sorted[i];
      assert Init(sorted[..i + 1]) == sorted[..i];
      data := data + (r.bin + "|" + r.source + "|" + r.sourceVersion + "|" + show(r.confidence));
    }
    assert sorted[..|sorted|] == sorted;
    version := digest(data);
  }

  /** The stamp does not depend on the order of records with distinct BINs. */
  lemma {:induction false} PreimageIgnoresOrder(a: seq<Record>, b: seq<Record>, show: real -> string)
    requires multiset(a) == multiset(b) && DistinctBins(a) && DistinctBins(b)
    ensures Preimage(a, show) == Preimage(b, show)
  {
    SortIgnoresOrder(a, b);
  }

  // ---------- which loads share a stamp ----------

  predicate NoBar(s: string) {
    '|' !in s
  }

  /** No hashed field contains the separator. */
  ghost predicate IsClean(records: seq<Record>, show: real -> string) {
    forall r :: r in records ==> NoBar(r.bin) && NoBar(r.source) && NoBar(r.sourceVersion) && NoBar(show(r.confidence))
  }

  /**
   The characters after the bar before record i's source: nothing separates the confidence of the
   record before from the BIN of record i.  `tail` follows the last record.
   */
  function Joint(sorted: seq<Record>, tail: string, i: nat, show: real -> string): string
    requires i <= |sorted|
  {
    (if i > 0 then show(sorted[i - 1].confidence) else "") + if i < |sorted| then sorted[i].bin else tail
  }

  /** The lists agree between any two bars. */
  ghost predicate SegmentsAgree(a: seq<Record>, tail: string, b: seq<Record>, tail': string, show: real -> string) {
    && |a| == |b|
    && (forall i :: 0 <= i < |a| ==> a[i].source == b[i].source && a[i].sourceVersion == b[i].sourceVersion)
    && (forall i :: 0 <= i <= |a| ==> Joint(a, tail, i, show) == Joint(b, tail', i, show))
  }

  lemma {:induction false} LastBar(u: string, x: string, v: string, y: string)
    requires NoBar(x) && NoBar(y)
    ensures u + "|" + x == v + "|" + y <==> u == v && x == y
  {
    var s, t := u + "|" + x, v + "|" + y;
    assert s[|u|] == '|' && s[|u| + 1..] == x && s[..|u|] == u;
    assert t[|v|] == '|' && t[|v| + 1..] == y && t[..|v|] == v;
    assert forall i :: |u| < i < |s| ==> s[i] == x[i - |u| - 1];
    assert forall i :: |v| < i < |t| ==> t[i] == y[i - |v| - 1];
  }

  /** Three bars per record: the source, its version and what follows can be read off from the end. */
  lemma {:induction false} LastRecordAgrees(u: string, r: Record, x: string, v: string, s: Record, y: string)
    requires NoBar(x) && NoBar(y) && NoBar(r.source) && NoBar(s.source) && NoBar(r.sourceVersion) && NoBar(s.sourceVersion)
    ensures u + "|" + r.source + "|" + r.sourceVersion + "|" + x == v + "|" + s.source + "|" + s.sourceVersion + "|" + y
            <==> u == v && r.source == s.source && r.sourceVersion == s.sourceVersion && x == y
  {
    LastBar(u, r.source, v, s.source);
    LastBar(u + "|" + r.source, r.sourceVersion, v + "|" + s.source, s.sourceVersion);
    LastBar(u + "|" + r.source + "|" + r.sourceVersion, x, v + "|" + s.source + "|" + s.sourceVersion, y);
  }

  lemma {:induction false} StreamUnfolds(sorted: seq<Record>, tail: string, show: real -> string)
    requires sorted != []
    ensures var r := Last(sorted);
            Stream(sorted, show) + tail ==
            (Stream(Init(sorted), show) + r.bin) + "|" + r.source + "|" + r.sourceVersion + "|" + (show(r.confidence) + tail)
  {
  }

  /** The streams are equal exactly when the lists agree between any two bars. */
  lemma {:induction false} StreamsEqualIff(a: seq<Record>, tail: string, b: seq<Record>, tail': string, show: real -> string)
    requires IsClean(a, show) && IsClean(b, show) && NoBar(tail) && NoBar(tail')
    ensures Stream(a, show) + tail == Stream(b, show) + tail' <==> SegmentsAgree(a, tail, b, tail', show)
    decreases |a|
  {
    if a == [] || b == [] {
      NoRecords(a, tail, b, tail', show);
    } else {
      var r, s := Last(a), Last(b);
      StreamUnfolds(a, tail, show);
      StreamUnfolds(b, tail', show);
      LastRecordAgrees(Stream(Init(a), show) + r.bin, r, show(r.confidence) + tail,
                       Stream(Init(b), show) + s.bin, s, show(s.confidence) + tail');
      StreamsEqualIff(Init(a), r.bin, Init(b), s.bin, show);
      SegmentsUnfold(a, tail, b, tail', show);
    }
  }

  lemma {:induction false} SegmentsUnfold(a: seq<Record>, tail: string, b: seq<Record>, tail': string, show: real -> string)
    requires a != [] && b != []
    ensures var r, s := Last(a), Last(b);
            SegmentsAgree(a, tail, b, tail', show) <==>
            && r.source == s.source && r.sourceVersion == s.sourceVersion
            && show(r.confidence) + tail == show(s.confidence) + tail'
            && SegmentsAgree(Init(a), r.bin, Init(b), s.bin, show)
  {
    forall i | 0 <= i < |a| ensures Joint(a, tail, i, show) == Joint(Init(a), Last(a).bin, i, show) {
    }
    forall i | 0 <= i < |b| ensures Joint(b, tail', i, show) == Joint(Init(b), Last(b).bin, i, show) {
    }
    assert Joint(a, tail, |a|, show) == show(Last(a).confidence) + tail;
    assert Joint(b, tail', |b|, show) == show(Last(b).confidence) + tail';
  }

  lemma {:induction false} NoRecords(a: seq<Record>, tail: string, b: seq<Record>, tail': string, show: real -> string)
    requires (a == [] || b == []) && NoBar(tail) && NoBar(tail')
    ensures Stream(a, show) + tail == Stream(b, show) + tail' <==> SegmentsAgree(a, tail, b, tail', show)
  {
    StreamHasBar(a, tail, show);
    StreamHasBar(b, tail', show);
    if a == b {
      assert Stream(a, show) + tail == tail && Stream(b, show) + tail' == tail';
      assert Joint(a, tail, 0, show) == tail && Joint(b, tail', 0, show) == tail';
    }
  }

  lemma {:induction false} StreamHasBar(sorted: seq<Record>, tail: string, show: real -> string)
    ensures sorted != [] ==> !NoBar(Stream(sorted, show) + tail)
  {
    if sorted != [] {
      StreamUnfolds(sorted, tail, show);
      assert (Stream(sorted, show) + tail)[|Stream(Init(sorted), show) + Last(sorted).bin|] == '|';
    }
  }

  /** Records that the digest cannot tell apart. */
  predicate SameKey(r: Record, s: Record) {
    r.bin == s.bin && r.source == s.source && r.sourceVersion == s.sourceVersion && r.confidence == s.confidence
  }

  ghost predicate SameKeys(a: seq<Record>, b: seq<Record>) {
    |a| == |b| && forall i :: 0 <= i < |a| ==> SameKey(a[i], b[i])
  }

  lemma {:induction false} InsertKeepsKeys(a: seq<Record>, b: seq<Record>, r: Record, s: Record)
    requires SameKeys(a, b) && SameKey(r, s)
    ensures SameKeys(Place(a, r, BinBelow), Place(b, s, BinBelow))
    decreases |a|
  {
    if a != [] {
      InsertKeepsKeys(Init(a), Init(b), r, s);
    }
  }

  lemma {:induction false} SortKeepsKeys(a: seq<Record>, b: seq<Record>)
    requires SameKeys(a, b)
    ensures SameKeys(SortByBin(a), SortByBin(b))
    decreases |a|
  {
    if a != [] {
      SortKeepsKeys(Init(a), Init(b));
      InsertKeepsKeys(SortByBin(Init(a)), SortByBin(Init(b)), Last(a), Last(b));
    }
  }

  lemma {:induction false} StreamOfKeys(a: seq<Record>, b: seq<Record>, show: real -> string)
    requires SameKeys(a, b)
    ensures Stream(a, show) == Stream(b, show)
    decreases |a|
  {
    if a != [] {
      StreamOfKeys(Init(a), Init(b), show);
    }
  }

  /** The stamp does not depend on any field but the BIN, the source, its version and the confidence. */
  lemma {:induction false} PreimageIgnoresOtherFields(a: seq<Record>, b: seq<Record>, show: real -> string)
    requires SameKeys(a, b)
    ensures Preimage(a, show) == Preimage(b, show)
  {
    SortKeepsKeys(a, b);
    StreamOfKeys(SortByBin(a), SortByBin(b), show);
  }

  /** Different confidences in the two loads print differently. */
  ghost predicate PrintApart(a: seq<Record>, b: seq<Record>, show: real -> string) {
    forall r, s :: r in a && s in b && show(r.confidence) == show(s.confidence) ==> r.confidence == s.confidence
  }

  lemma {:induction false} SortIsClean(records: seq<Record>, show: real -> string)
    ensures IsClean(SortByBin(records), show) <==> IsClean(records, show)
  {
    SortContents(records, BinBelow);
  }

  /** Which loads share a stamp: those whose sorted records agree between any two bars. */
  lemma {:induction false} PreimagesEqualIff(a: seq<Record>, b: seq<Record>, show: real -> string)
    requires IsClean(a, show) && IsClean(b, show)
    ensures Preimage(a, show) == Preimage(b, show) <==> SegmentsAgree(SortByBin(a), "", SortByBin(b), "", show)
  {
    SortIsClean(a, show);
    SortIsClean(b, show);
    StreamsEqualIff(SortByBin(a), "", SortByBin(b), "", show);
    assert Stream(SortByBin(a), show) + "" == Stream(SortByBin(a), show);
    assert Stream(SortByBin(b), show) + "" == Stream(SortByBin(b), show);
  }

  ghost predicate SameLengths(a: seq<Record>, b: seq<Record>) {
    |a| == |b| && forall i :: 0 <= i < |a| ==> |a[i].bin| == |b[i].bin|
  }

  /** Equal keys are equal segments cut at the same places. */
  lemma {:induction false} SameKeysIff(a: seq<Record>, b: seq<Record>, show: real -> string)
    requires PrintApart(a, b, show)
    ensures SameKeys(a, b) <==> SegmentsAgree(a, "", b, "", show) && SameLengths(a, b)
  {
    if SegmentsAgree(a, "", b, "", show) && SameLengths(a, b) {
      forall i | 0 <= i < |a| ensures SameKey(a[i], b[i]) {
        SameJoint(a, b, i, show);
        SameJoint(a, b, i + 1, show);
        assert a[i] in a && b[i] in b;
      }
    }
  }

  lemma {:induction false} SameJoint(a: seq<Record>, b: seq<Record>, i: nat, show: real -> string)
    requires SameLengths(a, b) && i <= |a| && Joint(a, "", i, show) == Joint(b, "", i, show)
    ensures i < |a| ==> a[i].bin == b[i].bin
    ensures i > 0 ==> show(a[i - 1].confidence) == show(b[i - 1].confidence)
  {
    var x, y := if i > 0 then show(a[i - 1].confidence) else "", if i > 0 then show(b[i - 1].confidence) else "";
    var u, v := if i < |a| then a[i].bin else "", if i < |a| then b[i].bin else "";
    assert |x| == |y| && (x + u)[..|x|] == x && (y + v)[..|y|] == y;
    assert (x + u)[|x|..] == u && (y + v)[|y|..] == v;
  }

  /** Sharing a stamp means sharing all keys exactly when the BINs, in order, have the same lengths. */
  lemma {:induction false} SharedStampMeansSameKeysIff(a: seq<Record>, b: seq<Record>, show: real -> string)
    requires IsClean(a, show) && IsClean(b, show) && PrintApart(a, b, show)
    requires Preimage(a, show) == Preimage(b, show)
    ensures SameKeys(SortByBin(a), SortByBin(b)) <==> SameLengths(SortByBin(a), SortByBin(b))
  {
    PreimagesEqualIff(a, b, show);
    SortContents(a, BinBelow);
    SortContents(b, BinBelow);
    SameKeysIff(SortByBin(a), SortByBin(b), show);
  }

  /** All BINs have n digits. */
  ghost predicate HasLength(records: seq<Record>, n: nat) {
    forall r :: r in records ==> |r.bin| == n
  }

  /** Among records whose BINs all have one length, two loads share a stamp exactly when they share all keys. */
  lemma {:induction false} StampIdentifiesKeys(a: seq<Record>, b: seq<Record>, n: nat, show: real -> string)
    requires IsClean(a, show) && IsClean(b, show) && PrintApart(a, b, show) && HasLength(a, n) && HasLength(b, n)
    ensures Preimage(a, show) == Preimage(b, show) <==> SameKeys(SortByBin(a), SortByBin(b))
  {
    hide SameKeys;
    PreimagesEqualIff(a, b, show);
    SortContents(a, BinBelow);
    SortContents(b, BinBelow);
    SameKeysIff(SortByBin(a), SortByBin(b), show);
  }

  /** Normalization rounds every confidence to a whole number from 0 to 100. */
  predicate IsPercentage(c: real) {
    0.0 <= c <= 100.0 && c.Floor as real == c
  }

  /** A load of valid normalized records with clean fields and BINs of the given lengths. */
  ghost predicate IsLoadOf(records: seq<Record>, lengths: set<nat>, show: real -> string) {
    && IsClean(records, show)
    && forall r :: r in records ==> ValidateRecord(r) && IsPercentage(r.confidence) && |r.bin| in lengths
  }

  /** Whether loads with BINs of the given lengths share a stamp only if they share all keys. */
  ghost predicate StampIdentifies(lengths: set<nat>, show: real -> string) {
    forall a, b ::
      IsLoadOf(a, lengths, show) && IsLoadOf(b, lengths, show) && Preimage(a, show) == Preimage(b, show)
      ==> SameKeys(SortByBin(a), SortByBin(b))
  }

  /** The whole numbers from 0 to 100 print differently, and 1, 10 and 100 in decimal. */
  ghost predicate PrintsPercentages(show: real -> string) {
    && (forall c, d :: IsPercentage(c) && IsPercentage(d) && show(c) == show(d) ==> c == d)
    && show(1.0) == "1" && show(10.0) == "10" && show(100.0) == "100"
  }

  lemma {:induction false} OneLengthIdentifies(a: seq<Record>, b: seq<Record>, lengths: set<nat>, show: real -> string)
    requires IsLoadOf(a, lengths, show) && IsLoadOf(b, lengths, show) && PrintsPercentages(show)
    requires (forall m, n :: m in lengths && n in lengths ==> m == n) && Preimage(a, show) == Preimage(b, show)
    ensures SameKeys(SortByBin(a), SortByBin(b))
  {
    hide SameKeys;
    hide Preimage;
    hide SortByBin;
    hide ValidateRecord;
    var n := if lengths == {} then 0 else var l :| l in lengths; l;
    StampIdentifiesKeys(a, b, n, show);
  }

  /**
   Among valid records with clean fields the stamp identifies what was loaded exactly if only one of
   the allowed BIN lengths is in use.
   */
  lemma {:induction false} StampIdentifiesIff(lengths: set<nat>, show: real -> string)
    requires lengths <= {6, 7, 8} && PrintsPercentages(show)
    ensures StampIdentifies(lengths, show) <==> forall m, n :: m in lengths && n in lengths ==> m == n
  {
    hide SameKeys;
    hide Preimage;
    hide SortByBin;
    hide ValidateRecord;
    hide PrintsPercentages;
    if m, n :| m in lengths && n in lengths && m < n {
      var a, b := TwoLengthsCollide(m, n, show);
    } else {
      forall a, b | IsLoadOf(a, lengths, show) && IsLoadOf(b, lengths, show) && Preimage(a, show) == Preimage(b, show)
        ensures SameKeys(SortByBin(a), SortByBin(b))
      {
        OneLengthIdentifies(a, b, lengths, show);
      }
    }
  }

  // ---------- the printer ----------

  predicate IsDigits(s: string) {
    forall i :: 0 <= i < |s| ==> IsDigit(s[i])
  }

  function Digit(d: nat): char
    requires d < 10
  {
    '0' + d as char
  }

  function Decimal(n: nat): (s: string)
    ensures s != "" && IsDigits(s)
  {
    if n < 10 then [Digit(n)] else Decimal(n / 10) + [Digit(n % 10)]
  }

  /** How a whole number prints; the sign and the whole part of any other. */
  function Show(c: real): string {
    if c < 0.0 then "-" + Decimal((-c).Floor) else Decimal(c.Floor)
  }

  lemma {:induction false} DecimalIsInjective(m: nat, n: nat)
    requires Decimal(m) == Decimal(n)
    ensures m == n
    decreases m
  {
    assert Last(Decimal(m)) == Digit(m % 10) && Last(Decimal(n)) == Digit(n % 10);
    assert m >= 10 ==> Init(Decimal(m)) == Decimal(m / 10);
    assert n >= 10 ==> Init(Decimal(n)) == Decimal(n / 10);
    if m >= 10 && n >= 10 {
      DecimalIsInjective(m / 10, n / 10);
    }
  }

  lemma {:induction false} ShowPrintsPercentages()
    ensures PrintsPercentages(Show)
    ensures forall c :: IsPercentage(c) ==> NoBar(Show(c))
  {
    forall c, d | IsPercentage(c) && IsPercentage(d) && Show(c) == Show(d) ensures c == d {
      DecimalIsInjective(c.Floor, d.Floor);
    }
    assert Decimal(1) == "1" && Decimal(10) == Decimal(1) + "0" && Decimal(100) == Decimal(10) + "0";
    assert 1.0.Floor == 1 && 10.0.Floor == 10 && 100.0.Floor == 100;
  }

  /**
   Main result on stamps: with decimal printing, the stamp identifies BINs, sources, versions and
   confidences of valid records with clean fields exactly if only one BIN length is in use.
   */
  lemma {:induction false} DecimalStampIdentifiesIff(lengths: set<nat>)
    requires lengths <= {6, 7, 8}
    ensures StampIdentifies(lengths, Show) <==> forall m, n :: m in lengths && n in lengths ==> m == n
  {
    hide *;
    ShowPrintsPercentages();
    StampIdentifiesIff(lengths, Show);
  }

  // ---------- loads that collide ----------

  function SampleRecord(bin: string, source: string, sourceVersion: string, confidence: real): Record {
    Record(bin, None, None, None, None, None, None, None, Some("US"), None, None, None, None, None, None, None,
           source, sourceVersion, "", confidence)
  }

  function BinsOf(records: seq<Record>): set<string> {
    set r | r in records :: r.bin
  }

  /** The characters in `pad` may belong to the first confidence or to the second BIN. */
  lemma {:induction false} PaddingCollides(first: string, pad: string, second: string, c: real, d: real, show: real -> string)
    requires Below(first, second) && Below(first, pad + second) && pad != ""
    requires show(d) == show(c) + pad
    ensures var a := [SampleRecord(first, "", "", c), SampleRecord(pad + second, "", "", c)];
            var b := [SampleRecord(first, "", "", d), SampleRecord(second, "", "", c)];
            && Preimage(a, show) == Preimage(b, show) && !SameKeys(SortByBin(a), SortByBin(b))
            && pad + second in BinsOf(a) && pad + second !in BinsOf(b)
  {
    var a := [SampleRecord(first, "", "", c), SampleRecord(pad + second, "", "", c)];
    var b := [SampleRecord(first, "", "", d), SampleRecord(second, "", "", c)];
    BelowIsTotal(first, second);
    BelowIsTotal(first, pad + second);
    SortedPair(a[0], a[1], BinBelow);
    SortedPair(b[0], b[1], BinBelow);
    StreamOfPair(a, show);
    StreamOfPair(b, show);
    assert show(c) + (pad + second) == (show(c) + pad) + second;
    assert |pad + second| > |second|;
    assert a[1] in a;
  }

  lemma {:induction false} StreamOfPair(pair: seq<Record>, show: real -> string)
    requires |pair| == 2
    ensures var r, s := pair[0], pair[1];
            Stream(pair, show) ==
            r.bin + "|" + r.source + "|" + r.sourceVersion + "|" + (show(r.confidence) + s.bin) +
            "|" + s.source + "|" + s.sourceVersion + "|" + show(s.confidence)
  {
    assert Init(pair) == [pair[0]] && Init([pair[0]]) == [];
    assert Stream([pair[0]], show) == "" + Contribution(pair[0], show);
  }

  function Repeat(c: char, n: nat): string {
    seq(n, i => c)
  }

  lemma {:induction false} BelowAfterPad(pad: string, x: string, y: string)
    ensures Below(pad + x, pad + y) <==> Below(x, y)
    decreases |pad|
  {
    if pad == "" {
      assert pad + x == x && pad + y == y;
    } else {
      BelowAfterPad(pad[1..], x, y);
      assert (pad + x)[1..] == pad[1..] + x && (pad + y)[1..] == pad[1..] + y;
    }
  }

  lemma {:induction false} PairIsLoad(x: string, c: real, y: string, d: real, lengths: set<nat>, show: real -> string)
    requires IsDigits(x) && IsDigits(y) && IsDigits(show(c)) && IsDigits(show(d))
    requires IsPercentage(c) && IsPercentage(d)
    requires |x| in lengths && |y| in lengths && lengths <= {6, 7, 8}
    ensures IsLoadOf([SampleRecord(x, "", "", c), SampleRecord(y, "", "", d)], lengths, show)
  {
  }

  /** For two different BIN lengths there are two loads of valid records with one stamp and different BINs. */
  lemma {:induction false} TwoLengthsCollide(m: nat, n: nat, show: real -> string) returns (a: seq<Record>, b: seq<Record>)
    requires 6 <= m < n <= 8 && PrintsPercentages(show)
    ensures IsLoadOf(a, {m, n}, show) && IsLoadOf(b, {m, n}, show)
    ensures Preimage(a, show) == Preimage(b, show)
    ensures BinsOf(a) != BinsOf(b) && !SameKeys(SortByBin(a), SortByBin(b))
  {
    var pad, d := if n == m + 1 then "0" else "00", if n == m + 1 then 10.0 else 100.0;
    var first, second := pad + Repeat('0', m - |pad|), Repeat('9', m);
    BelowAfterPad(pad, Repeat('0', m - |pad|), second);
    hide *;
    a := [SampleRecord(first, "", "", 1.0), SampleRecord(pad + second, "", "", 1.0)];
    b := [SampleRecord(first, "", "", d), SampleRecord(second, "", "", 1.0)];
    PairIsLoad(first, 1.0, pad + second, 1.0, {m, n}, show);
    PairIsLoad(first, d, second, 1.0, {m, n}, show);
    PaddingCollides(first, pad, second, 1.0, d, show);
  }

  /** A bar inside a field collides as well, whatever the record and however confidences are printed. */
  lemma {:induction false} BarsCollide(r: Record, s: string, t: string, u: string, show: real -> string)
    ensures var a, b := [r.(source := s, sourceVersion := t + "|" + u)], [r.(source := s + "|" + t, sourceVersion := u)];
            Preimage(a, show) == Preimage(b, show) && !SameKeys(SortByBin(a), SortByBin(b))
  {
    var x, y := r.(source := s, sourceVersion := t + "|" + u), r.(source := s + "|" + t, sourceVersion := u);
    SortedSingleton(x, show);
    SortedSingleton(y, show);
    assert r.bin + "|" + s + "|" + (t + "|" + u) == r.bin + "|" + (s + "|" + t) + "|" + u;
    assert |s + "|" + t| > |s|;
  }

  lemma {:induction false} SortedSingleton(r: Record, show: real -> string)
    ensures SortByBin([r]) == [r] && Preimage([r], show) == Contribution(r, show)
  {
    assert Init([r]) == [];
    assert SortByBin([r]) == [] + [r];
    assert Stream([r], show) == "" + Contribution(r, show);
  }

  // ---------- what a shared stamp means for rollbacks ----------

  /**
   Rolling the second of two loads back removes a row of the first exactly if the loads share their
   stamp or the second one upserted that row too.
   */
  lemma {:induction false} RollbackReachesEarlierLoadIff(
    table: Table, a: seq<Record>, b: seq<Record>, o: Options, va: string, vb: string, w: World, w': World, bin: string)
    requires Touches(a, bin, o, w)
    ensures var afterA := Load(table, a, o, va, w).table;
            var rolledBack := WithoutVersion(Load(afterA, b, o, vb, w').table, vb);
            bin !in rolledBack <==> va == vb || Touches(b, bin, o, w')
  {
    hide Load;
    hide LastFor;
    hide Offered;
    hide Reaches;
    var afterA := Load(table, a, o, va, w).table;
    RollbackAfterLoad(afterA, b, o, vb, w');
    LoadedRow(table, a, o, va, w, bin);
    assert LastFor(b, bin, o, w') < 0 <==> !Touches(b, bin, o, w');
  }
}
