/**
 Completion percentages (src/analysis/metricsExtractor.ts, src/analysis/dataExtractor.ts): the
 overall figure, and the figures per category.
 */
module Completion {
  import opened Sequences

  datatype Reading = Number(value: real) | Text(text: string)

  datatype Metric = Metric(name: string, current: Reading, target: Reading)

  /** Only numeric metrics with a positive target count. */
  predicate Counts(m: Metric) {
    m.current.Number? && m.target.Number? && m.target.value > 0.0
  }

  function CompletionOf(m: Metric): real
    requires Counts(m)
  {
    var share := m.current.value / m.target.value * 100.0;
    if share < 100.0 then share else 100.0
  }

  function CountingMetrics(metrics: seq<Metric>): nat {
    if metrics == [] then 0 else CountingMetrics(Init(metrics)) + if Counts(Last(metrics)) then 1 else 0
  }

  function Total(metrics: seq<Metric>): real {
    if metrics == [] then 0.0
    else Total(Init(metrics)) + if Counts(Last(metrics)) then CompletionOf(Last(metrics)) else 0.0
  }

  function OverallCompletion(metrics: seq<Metric>): real {
    if CountingMetrics(metrics) == 0 then 0.0 else Total(metrics) / CountingMetrics(metrics) as real
  }

  predicate NonNegative(metrics: seq<Metric>) {
    forall m :: m in metrics && m.current.Number? ==> m.current.value >= 0.0
  }

  lemma {:induction false} ShareIsPercentage(m: Metric)
    requires Counts(m) && m.current.value >= 0.0
    ensures 0.0 <= CompletionOf(m) <= 100.0
  {
  }

  lemma {:induction false} TotalBounds(metrics: seq<Metric>)
    requires NonNegative(metrics)
    ensures 0.0 <= Total(metrics) <= 100.0 * CountingMetrics(metrics) as real
    ensures CountingMetrics(metrics) == 0 ==> Total(metrics) == 0.0
    decreases |metrics|
  {
    hide CompletionOf;
    if metrics != [] {
      TotalBounds(Init(metrics));
      assert Last(metrics) in metrics;
      if Counts(Last(metrics)) {
        ShareIsPercentage(Last(metrics));
      }
    }
  }

  /** The overall completion of non-negative metrics is a percentage. */
  lemma {:induction false} OverallIsPercentage(metrics: seq<Metric>)
    requires NonNegative(metrics)
    ensures 0.0 <= OverallCompletion(metrics) <= 100.0
  {
    TotalBounds(metrics);
    if CountingMetrics(metrics) > 0 {
      Quotient(Total(metrics), CountingMetrics(metrics) as real, 100.0);
    }
  }

  lemma {:induction false} Quotient(x: real, n: real, bound: real)
    requires n > 0.0 && 0.0 <= x <= bound * n
    ensures 0.0 <= x / n <= bound
  {
    var q := x / n;
    assert q * n == x;
    assert q > bound ==> (q - bound) * n > 0.0;
  }

  /** A metric's share: the current value as a percentage of the target, but at most 100. */
  lemma {:induction false} ShareIs(m: Metric)
    requires m.current.Number? && m.target.Number? && m.target.value > 0.0
    ensures Counts(m)
    ensures CompletionOf(m) * m.target.value ==
            if m.current.value >= m.target.value then 100.0 * m.target.value else 100.0 * m.current.value
  {
    var q := m.current.value / m.target.value;
    assert q * m.target.value == m.current.value;
    assert q * 100.0 < 100.0 <==> q < 1.0;
    if q < 1.0 {
      assert (1.0 - q) * m.target.value > 0.0;
      assert q * 100.0 * m.target.value == 100.0 * (q * m.target.value);
    } else {
      assert (q - 1.0) * m.target.value >= 0.0;
    }
  }

  function SumOfShares(metrics: seq<Metric>): real
    requires forall m :: m in metrics ==> Counts(m)
  {
    if metrics == [] then 0.0
    else
      assert forall m :: m in Init(metrics) ==> m in metrics;
      SumOfShares(Init(metrics)) + CompletionOf(Last(metrics))
  }

  /** The overall completion is the mean share of the numeric metrics with a positive target, 0 if there are none. */
  lemma {:induction false} OverallIsMean(metrics: seq<Metric>)
    ensures var counting := Filter(metrics, (m: Metric) => m.current.Number? && m.target.Number? && m.target.value > 0.0);
            OverallCompletion(metrics) == if counting == [] then 0.0 else SumOfShares(counting) / |counting| as real
  {
    TotalIsSum(metrics);
  }

  lemma {:induction false} TotalIsSum(metrics: seq<Metric>)
    ensures var counting := Filter(metrics, (m: Metric) => m.current.Number? && m.target.Number? && m.target.value > 0.0);
            CountingMetrics(metrics) == |counting| && Total(metrics) == SumOfShares(counting)
    decreases |metrics|
  {
    hide CompletionOf;
    if metrics != [] {
      var init, last := Init(metrics), Last(metrics);
      var p := (m: Metric) => m.current.Number? && m.target.Number? && m.target.value > 0.0;
      TotalIsSum(init);
      if Counts(last) {
        assert Init(Filter(init, p) + [last]) == Filter(init, p);
      } else {
        assert Filter(init, p) + [] == Filter(init, p);
      }
    }
  }

  // ---------- categories ----------

  type Grouping = map<string, seq<Metric>>

  function Lower(c: char): char {
    if 'A' <= c <= 'Z' then c + ('a' - 'A') else c
  }

  function ToLower(s: string): string {
    seq(|s|, i requires 0 <= i < |s| => Lower(s[i]))
  }

  predicate Includes(s: string, part: string) {
    part <= s || (s != "" && Includes(s[1..], part))
  }

  /** The category of the first keyword pair that the lower-cased name mentions. */
  function CategoryOf(m: Metric): string {
    var name := ToLower(m.name);
    if Includes(name, "test") || Includes(name, "coverage") then "Testing"
    else if Includes(name, "security") || Includes(name, "owasp") then "Security"
    else if Includes(name, "performance") || Includes(name, "response") then "Performance"
    else if Includes(name, "data") || Includes(name, "quality") then "Data Quality"
    else if Includes(name, "production") || Includes(name, "readiness") then "Production Readiness"
    else "General"
  }

  /** The keywords that decide, in order, with their categories. */
  const KEYWORDS: seq<(string, string, string)> := [
    ("test", "coverage", "Testing"), ("security", "owasp", "Security"), ("performance", "response", "Performance"),
    ("data", "quality", "Data Quality"), ("production", "readiness", "Production Readiness")]

  /** Somewhere in the name the keyword occurs, in capitals or not. */
  ghost predicate Mentions(name: string, keyword: string) {
    exists at :: MentionsAt(name, keyword, at)
  }

  predicate MentionsAt(name: string, keyword: string, at: int) {
    0 <= at <= |name| - |keyword| && forall i :: 0 <= i < |keyword| ==> SameLetter(name[at..][i], keyword[i])
  }

  /** The letter itself, or the capital letter of which it is the small one. */
  predicate SameLetter(c: char, small: char) {
    (c == small && !('A' <= c <= 'Z')) || ('A' <= c <= 'Z' && c as int + 32 == small as int)
  }

  lemma {:induction false} IncludesIff(name: string, keyword: string)
    ensures Includes(ToLower(name), keyword) <==> Mentions(name, keyword)
    decreases |name|
  {
    BeginsIff(name, keyword);
    if name != "" {
      assert ToLower(name)[1..] == ToLower(name[1..]);
      IncludesIff(name[1..], keyword);
      hide ToLower;
      if at :| MentionsAt(name[1..], keyword, at) {
        MentionsLater(name, keyword, at);
      }
      if at :| MentionsAt(name, keyword, at) && at > 0 {
        MentionsLater(name, keyword, at - 1);
      }
    }
  }

  lemma {:induction false} BeginsIff(name: string, keyword: string)
    ensures keyword <= ToLower(name) <==> MentionsAt(name, keyword, 0)
  {
    if |keyword| <= |name| {
      assert name[0..] == name;
      forall i | 0 <= i < |keyword| ensures SameLetter(name[i], keyword[i]) <==> ToLower(name)[i] == keyword[i] {
      }
      assert keyword <= ToLower(name) <==> forall i :: 0 <= i < |keyword| ==> ToLower(name)[i] == keyword[i];
    }
  }

  lemma {:induction false} MentionsLater(name: string, keyword: string, at: nat)
    requires name != ""
    ensures MentionsAt(name[1..], keyword, at) <==> MentionsAt(name, keyword, at + 1)
  {
    if at + 1 <= |name| - |keyword| {
      assert name[at + 1..] == name[1..][at..];
    }
  }

  /** Row k of the keywords is the first of which the name mentions a keyword; k is 5 if there is none. */
  ghost predicate DecidesAt(name: string, k: nat) {
    && k <= |KEYWORDS|
    && (forall j :: 0 <= j < k ==> !Mentions(name, KEYWORDS[j].0) && !Mentions(name, KEYWORDS[j].1))
    && (k < |KEYWORDS| ==> Mentions(name, KEYWORDS[k].0) || Mentions(name, KEYWORDS[k].1))
  }

  /** The category is that of the first row of keywords that the name mentions, "General" if it mentions none. */
  lemma {:induction false} CategoryIs(m: Metric) returns (k: nat)
    ensures DecidesAt(m.name, k) && CategoryOf(m) == if k < |KEYWORDS| then KEYWORDS[k].2 else "General"
  {
    hide Includes;
    hide ToLower;
    hide Mentions;
    forall j | 0 <= j < |KEYWORDS|
      ensures Includes(ToLower(m.name), KEYWORDS[j].0) <==> Mentions(m.name, KEYWORDS[j].0)
      ensures Includes(ToLower(m.name), KEYWORDS[j].1) <==> Mentions(m.name, KEYWORDS[j].1)
    {
      IncludesIff(m.name, KEYWORDS[j].0);
      IncludesIff(m.name, KEYWORDS[j].1);
    }
    var name := ToLower(m.name);
    k := if Includes(name, KEYWORDS[0].0) || Includes(name, KEYWORDS[0].1) then 0
         else if Includes(name, KEYWORDS[1].0) || Includes(name, KEYWORDS[1].1) then 1
         else if Includes(name, KEYWORDS[2].0) || Includes(name, KEYWORDS[2].1) then 2
         else if Includes(name, KEYWORDS[3].0) || Includes(name, KEYWORDS[3].1) then 3
         else if Includes(name, KEYWORDS[4].0) || Includes(name, KEYWORDS[4].1) then 4 else 5;
  }

  function GroupOf(metrics: seq<Metric>, categoryOf: Metric -> string, c: string): seq<Metric> {
    Filter(metrics, m => categoryOf(m) == c)
  }

  /** `order` lists the keys of the grouping in order of first appearance. */
  method GroupMetricsByCategory(metrics: seq<Metric>) returns (grouped: Grouping, order: seq<string>)
    ensures forall c :: c in grouped ==> grouped[c] == GroupOf(metrics, CategoryOf, c)
    ensures IsPartition(metrics, CategoryOf, order)
    ensures forall c :: c in grouped <==> c in order
  {
    hide CategoryOf;
    grouped, order := map[], [];
    for i := 0 to |metrics|
      invariant forall c :: c in grouped ==> grouped[c] == GroupOf(metrics[..i], CategoryOf, c)
      invariant IsPartition(metrics[..i], CategoryOf, order)
      invariant forall c :: c in grouped <==> c in order
    {
      var category := CategoryOf(metrics[i]);
      assert Init(metrics[..i + 1]) == metrics[..i];
      assert metrics[..i + 1] == metrics[..i] + [metrics[i]];
      if category !in grouped {
        NoGroup(metrics[..i], CategoryOf, order, category);
        grouped := grouped[category := []];
        order := order + [category];
      }
      grouped := grouped[category := grouped[category] + [metrics[i]]];
      forall c | c in grouped ensures grouped[c] == GroupOf(metrics[..i + 1], CategoryOf, c) {
        assert GroupOf(metrics[..i], CategoryOf, c) + [] == GroupOf(metrics[..i], CategoryOf, c);
      }
    }
    assert metrics[..|metrics|] == metrics;
  }

  /** The categories are distinct and cover every metric. */
  ghost predicate IsPartition(metrics: seq<Metric>, categoryOf: Metric -> string, order: seq<string>) {
    && (forall i, j :: 0 <= i < j < |order| ==> order[i] != order[j])
    && (forall m :: m in metrics ==> categoryOf(m) in order)
  }

  lemma {:induction false} NoGroup(metrics: seq<Metric>, categoryOf: Metric -> string, order: seq<string>, c: string)
    requires (forall m :: m in metrics ==> categoryOf(m) in order) && c !in order
    ensures GroupOf(metrics, categoryOf, c) == []
    decreases |metrics|
  {
    if metrics != [] {
      assert Last(metrics) in metrics;
      NoGroup(Init(metrics), categoryOf, order, c);
    }
  }

  /** The category figures weighted by the number of metrics that count. */
  function WeightedSum(metrics: seq<Metric>, categoryOf: Metric -> string, order: seq<string>): real {
    if order == [] then 0.0
    else
      var group := GroupOf(metrics, categoryOf, Last(order));
      WeightedSum(metrics, categoryOf, Init(order)) + OverallCompletion(group) * CountingMetrics(group) as real
  }

  function TotalOver(metrics: seq<Metric>, categoryOf: Metric -> string, order: seq<string>): real {
    if order == [] then 0.0
    else TotalOver(metrics, categoryOf, Init(order)) + Total(GroupOf(metrics, categoryOf, Last(order)))
  }

  lemma {:induction false} NumberZero(metrics: seq<Metric>)
    ensures CountingMetrics(metrics) == 0 ==> Total(metrics) == 0.0
    decreases |metrics|
  {
    if metrics != [] {
      NumberZero(Init(metrics));
    }
  }

  lemma {:induction false} OverallTimesNumber(metrics: seq<Metric>)
    ensures OverallCompletion(metrics) * CountingMetrics(metrics) as real == Total(metrics)
  {
    NumberZero(metrics);
  }

  lemma {:induction false} WeightedSumIsTotal(metrics: seq<Metric>, categoryOf: Metric -> string, order: seq<string>)
    ensures WeightedSum(metrics, categoryOf, order) == TotalOver(metrics, categoryOf, order)
    decreases |order|
  {
    hide OverallCompletion;
    hide Total;
    hide CountingMetrics;
    if order != [] {
      WeightedSumIsTotal(metrics, categoryOf, Init(order));
      OverallTimesNumber(GroupOf(metrics, categoryOf, Last(order)));
    }
  }

  function Share(m: Metric): real {
    if Counts(m) then CompletionOf(m) else 0.0
  }

  /** One more metric adds its share once, to the group of its category. */
  lemma {:induction false} TotalOverGrows(metrics: seq<Metric>, m: Metric, categoryOf: Metric -> string, order: seq<string>)
    requires forall i, j :: 0 <= i < j < |order| ==> order[i] != order[j]
    ensures TotalOver(metrics + [m], categoryOf, order) ==
            TotalOver(metrics, categoryOf, order) + if categoryOf(m) in order then Share(m) else 0.0
    decreases |order|
  {
    hide Share;
    hide Total;
    hide GroupOf;
    if order != [] {
      TotalOverGrows(metrics, m, categoryOf, Init(order));
      TotalOfGroupGrows(metrics, m, categoryOf, Last(order));
      assert order == Init(order) + [Last(order)];
    }
  }

  lemma {:induction false} TotalOfGroupGrows(metrics: seq<Metric>, m: Metric, categoryOf: Metric -> string, c: string)
    ensures Total(GroupOf(metrics + [m], categoryOf, c)) ==
            Total(GroupOf(metrics, categoryOf, c)) + if categoryOf(m) == c then Share(m) else 0.0
  {
    hide CompletionOf;
    assert Init(metrics + [m]) == metrics;
    var group := GroupOf(metrics, categoryOf, c);
    assert Init(group + [m]) == group && group + [] == group;
  }

  lemma {:induction false} TotalOverAll(metrics: seq<Metric>, categoryOf: Metric -> string, order: seq<string>)
    requires IsPartition(metrics, categoryOf, order)
    ensures TotalOver(metrics, categoryOf, order) == Total(metrics)
    decreases |metrics|
  {
    hide CompletionOf;
    if metrics == [] {
      EmptyTotals(categoryOf, order);
    } else {
      var init, last := Init(metrics), Last(metrics);
      assert metrics == init + [last];
      TotalOverAll(init, categoryOf, order);
      TotalOverGrows(init, last, categoryOf, order);
    }
  }

  lemma {:induction false} EmptyTotals(categoryOf: Metric -> string, order: seq<string>)
    ensures TotalOver([], categoryOf, order) == 0.0
    decreases |order|
  {
    if order != [] {
      EmptyTotals(categoryOf, Init(order));
    }
  }

  /** The overall completion is the mean of the category completions, weighted by the number of metrics that count. */
  lemma {:induction false} OverallIsWeightedMean(metrics: seq<Metric>, categoryOf: Metric -> string, order: seq<string>)
    requires IsPartition(metrics, categoryOf, order)
    ensures OverallCompletion(metrics) * CountingMetrics(metrics) as real == WeightedSum(metrics, categoryOf, order)
  {
    hide OverallCompletion;
    OverallTimesNumber(metrics);
    WeightedSumIsTotal(metrics, categoryOf, order);
    TotalOverAll(metrics, categoryOf, order);
  }
}
