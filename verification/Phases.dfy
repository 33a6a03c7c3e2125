/**
 The three phases of the plan and its critical path (src/analysis/wbsGenerator.ts), and the stable
 priority sort (src/analysis/taskBuilder.ts).
 */
module Phases {
  import opened Sequences
  import opened TaskGraph
  import opened Planner
  import opened Sorting

  // ---------- splitting the tasks ----------

  function ByPriority(tasks: seq<Task>, p: Priority): seq<Task> {
    Filter(tasks, (t: Task) => t.priority == p)
  }

  lemma {:induction false} MembersByPriority(tasks: seq<Task>)
    ensures forall t, p :: t in ByPriority(tasks, p) <==> t in tasks && t.priority == p
  {
  }

  lemma {:induction false} ByPriorityAppends(tasks: seq<Task>, t: Task, p: Priority)
    ensures ByPriority(tasks + [t], p) == ByPriority(tasks, p) + if t.priority == p then [t] else []
  {
    FilterAppends(tasks, t, (u: Task) => u.priority == p);
  }

  function Take(tasks: seq<Task>, n: nat): seq<Task> {
    if n < |tasks| then tasks[..n] else tasks
  }

  function Drop(tasks: seq<Task>, n: nat): seq<Task> {
    if n < |tasks| then tasks[n..] else []
  }

  function CriticalNonSecurity(tasks: seq<Task>): seq<Task> {
    Filter(ByPriority(tasks, Critical), (t: Task) => t.category != "Security")
  }

  function Phase1Tasks(tasks: seq<Task>): seq<Task> {
    Filter(ByPriority(tasks, Critical), (t: Task) => t.category == "Security") + Take(CriticalNonSecurity(tasks), 2)
  }

  function Phase2Tasks(tasks: seq<Task>): seq<Task> {
    Filter(ByPriority(tasks, High), (t: Task) => t.category == "Testing") +
    Filter(ByPriority(tasks, High), (t: Task) => t.category != "Testing") +
    Take(ByPriority(tasks, Medium), 5)
  }

  function Phase3Tasks(tasks: seq<Task>): seq<Task> {
    Drop(ByPriority(tasks, Medium), 5) + ByPriority(tasks, Low)
  }

  /** The tasks that no phase takes up. */
  function DroppedTasks(tasks: seq<Task>): seq<Task> {
    Drop(CriticalNonSecurity(tasks), 2)
  }

  lemma {:induction false} TakeAndDrop(tasks: seq<Task>, n: nat)
    ensures multiset(Take(tasks, n)) + multiset(Drop(tasks, n)) == multiset(tasks)
  {
    if n < |tasks| {
      assert tasks == tasks[..n] + tasks[n..];
    }
  }

  lemma {:induction false} FilterSplits(tasks: seq<Task>, p: Task -> bool, q: Task -> bool)
    requires forall t :: t in tasks ==> p(t) == !q(t)
    ensures multiset(Filter(tasks, p)) + multiset(Filter(tasks, q)) == multiset(tasks)
    decreases |tasks|
  {
    if tasks != [] {
      assert tasks == Init(tasks) + [Last(tasks)];
      FilterSplits(Init(tasks), p, q);
    }
  }

  lemma {:induction false} PrioritiesPartition(tasks: seq<Task>)
    ensures multiset(ByPriority(tasks, Critical)) + multiset(ByPriority(tasks, High)) +
            multiset(ByPriority(tasks, Medium)) + multiset(ByPriority(tasks, Low)) == multiset(tasks)
    decreases |tasks|
  {
    if tasks != [] {
      hide ByPriority;
      var init, last := Init(tasks), Last(tasks);
      assert tasks == init + [last];
      PrioritiesPartition(init);
      ByPriorityAppends(init, last, Critical);
      ByPriorityAppends(init, last, High);
      ByPriorityAppends(init, last, Medium);
      ByPriorityAppends(init, last, Low);
    }
  }

  /** Conservation: each task goes to exactly one phase, except the CRITICAL non-Security tasks after the first two. */
  lemma {:induction false} PhasesConserveTasks(tasks: seq<Task>)
    ensures multiset(Phase1Tasks(tasks)) + multiset(Phase2Tasks(tasks)) + multiset(Phase3Tasks(tasks)) +
            multiset(DroppedTasks(tasks)) == multiset(tasks)
  {
    PrioritiesPartition(tasks);
    FilterSplits(ByPriority(tasks, Critical), (t: Task) => t.category == "Security", (t: Task) => t.category != "Security");
    FilterSplits(ByPriority(tasks, High), (t: Task) => t.category == "Testing", (t: Task) => t.category != "Testing");
    hide ByPriority;
    hide Filter;
    TakeAndDrop(CriticalNonSecurity(tasks), 2);
    TakeAndDrop(ByPriority(tasks, Medium), 5);
    hide Take;
    hide Drop;
  }

  /** Which priorities make up each phase: the first takes CRITICAL tasks only, the second all HIGH and five MEDIUM ones, the third the rest. */
  lemma {:induction false} PhaseContents(tasks: seq<Task>)
    ensures multiset(Phase1Tasks(tasks)) + multiset(DroppedTasks(tasks)) == multiset(ByPriority(tasks, Critical))
    ensures multiset(Phase2Tasks(tasks)) == multiset(ByPriority(tasks, High)) + multiset(Take(ByPriority(tasks, Medium), 5))
    ensures multiset(Phase3Tasks(tasks)) == multiset(Drop(ByPriority(tasks, Medium), 5)) + multiset(ByPriority(tasks, Low))
  {
    hide ByPriority;
    hide Filter;
    hide Take;
    hide Drop;
    FilterSplits(ByPriority(tasks, Critical), (t: Task) => t.category == "Security", (t: Task) => t.category != "Security");
    FilterSplits(ByPriority(tasks, High), (t: Task) => t.category == "Testing", (t: Task) => t.category != "Testing");
    TakeAndDrop(CriticalNonSecurity(tasks), 2);
  }

  /** The tasks that no phase takes up are outside Security. */
  lemma {:induction false} SecurityIsNeverDropped(tasks: seq<Task>)
    ensures forall t :: t in DroppedTasks(tasks) ==> t.category != "Security" && t.priority == Critical
  {
    hide ByPriority;
    MembersByPriority(tasks);
    var outside := CriticalNonSecurity(tasks);
    assert forall t :: t in Drop(outside, 2) ==> t in outside;
  }

  /** No task is lost exactly when at most two CRITICAL tasks are outside Security. */
  lemma {:induction false} NoTaskIsLostIff(tasks: seq<Task>)
    ensures multiset(Phase1Tasks(tasks)) + multiset(Phase2Tasks(tasks)) + multiset(Phase3Tasks(tasks)) == multiset(tasks)
            <==> |CriticalNonSecurity(tasks)| <= 2
  {
    PhasesConserveTasks(tasks);
    hide Phase1Tasks;
    hide Phase2Tasks;
    hide Phase3Tasks;
    hide CriticalNonSecurity;
    var kept := multiset(Phase1Tasks(tasks)) + multiset(Phase2Tasks(tasks)) + multiset(Phase3Tasks(tasks));
    var dropped := DroppedTasks(tasks);
    assert |kept| + |multiset(dropped)| == |multiset(tasks)|;
  }

  predicate SecurityFirst(t: Task, u: Task) {
    t.category == "Security" && u.category != "Security"
  }

  predicate TestingFirst(t: Task, u: Task) {
    t.category == "Testing" && u.category != "Testing"
  }

  /**
   The order in which tasks are taken up: CRITICAL ones with Security first, cut off after the first two
   outside Security; HIGH ones with Testing first, then the first five MEDIUM ones; then the other MEDIUM
   ones and the LOW ones.  Within each of these groups the input order stays.
   */
  lemma {:induction false} TasksInOrder(tasks: seq<Task>)
    ensures IsStableSort(ByPriority(tasks, Critical), Phase1Tasks(tasks) + DroppedTasks(tasks), SecurityFirst)
    ensures exists high, medium, rest ::
              && IsStableSort(ByPriority(tasks, High), high, TestingFirst)
              && medium + rest == ByPriority(tasks, Medium) && (|medium| == 5 || (|medium| < 5 && rest == []))
              && Phase2Tasks(tasks) == high + medium && Phase3Tasks(tasks) == rest + ByPriority(tasks, Low)
  {
    hide *;
    CriticalInOrder(tasks);
    OthersInOrder(tasks);
  }

  lemma {:induction false} CriticalInOrder(tasks: seq<Task>)
    ensures IsStableSort(ByPriority(tasks, Critical), Phase1Tasks(tasks) + DroppedTasks(tasks), SecurityFirst)
  {
    hide ByPriority;
    hide Filter;
    hide IsStableSort;
    var critical := ByPriority(tasks, Critical);
    var security, others := Filter(critical, (t: Task) => t.category == "Security"), CriticalNonSecurity(tasks);
    FirstThenRest(critical, (t: Task) => t.category == "Security", (t: Task) => t.category != "Security", SecurityFirst);
    assert Take(others, 2) + Drop(others, 2) == others;
    Associative(security, Take(others, 2), Drop(others, 2));
  }

  lemma {:induction false} OthersInOrder(tasks: seq<Task>)
    ensures exists high, medium, rest ::
              && IsStableSort(ByPriority(tasks, High), high, TestingFirst)
              && medium + rest == ByPriority(tasks, Medium) && (|medium| == 5 || (|medium| < 5 && rest == []))
              && Phase2Tasks(tasks) == high + medium && Phase3Tasks(tasks) == rest + ByPriority(tasks, Low)
  {
    hide ByPriority;
    hide Filter;
    hide IsStableSort;
    var high, all := ByPriority(tasks, High), ByPriority(tasks, Medium);
    FirstThenRest(high, (t: Task) => t.category == "Testing", (t: Task) => t.category != "Testing", TestingFirst);
    var sorted := Filter(high, (t: Task) => t.category == "Testing") + Filter(high, (t: Task) => t.category != "Testing");
    assert Take(all, 5) + Drop(all, 5) == all;
    assert Phase2Tasks(tasks) == sorted + Take(all, 5) && Phase3Tasks(tasks) == Drop(all, 5) + ByPriority(tasks, Low);
  }

  /** Those that satisfy p followed by the others is the stable sort that puts those first. */
  lemma {:induction false} FirstThenRest(tasks: seq<Task>, p: Task -> bool, q: Task -> bool, before: (Task, Task) -> bool)
    requires forall t, u :: before(t, u) <==> p(t) && q(u)
    requires forall t :: p(t) == !q(t)
    ensures IsStableSort(tasks, Filter(tasks, p) + Filter(tasks, q), before)
  {
    forall t: Task ensures Ties(Filter(tasks, p) + Filter(tasks, q), t, before) == Ties(tasks, t, before) {
      TiesOfBoth(tasks, p, q, before, t);
    }
    hide Ties;
    OrderedConcat(Filter(tasks, p), Filter(tasks, q), p, q, before);
  }

  lemma {:induction false} TiesOfBoth(tasks: seq<Task>, p: Task -> bool, q: Task -> bool, before: (Task, Task) -> bool, t: Task)
    requires forall t, u :: before(t, u) <==> p(t) && q(u)
    requires forall t :: p(t) == !q(t)
    ensures Ties(Filter(tasks, p) + Filter(tasks, q), t, before) == Ties(tasks, t, before)
  {
    hide *;
    var first, rest := Filter(tasks, p), Filter(tasks, q);
    var r := if p(t) then p else q;
    TiesAre(first + rest, t, before, r);
    TiesAre(tasks, t, before, r);
    FilterSum(first, rest, r);
    FilterTwice(tasks, p, r, p(t));
    FilterTwice(tasks, q, r, q(t));
    assert first + [] == first && [] + rest == rest;
  }

  lemma {:induction false} OrderedConcat(first: seq<Task>, rest: seq<Task>, p: Task -> bool, q: Task -> bool, before: (Task, Task) -> bool)
    requires forall t, u :: before(t, u) <==> p(t) && q(u)
    requires (forall t :: t in first ==> p(t) && !q(t)) && (forall t :: t in rest ==> q(t) && !p(t))
    ensures IsOrdered(first + rest, before)
  {
    var all := first + rest;
    forall i, j | 0 <= i < j < |all| ensures !before(all[j], all[i]) {
      assert i < |first| ==> all[i] in first;
      assert j >= |first| ==> all[j] in rest;
    }
  }

  /** Of three CRITICAL tasks outside Security the last is in no phase. */
  lemma {:induction false} ThirdCriticalTaskIsLost(x: Task, y: Task, z: Task)
    requires forall t :: t in {x, y, z} ==> t.priority == Critical && t.category != "Security"
    requires z != x && z != y
    ensures z !in Phase1Tasks([x, y, z]) && z !in Phase2Tasks([x, y, z]) && z !in Phase3Tasks([x, y, z])
  {
    var tasks := [x, y, z];
    AllPass(tasks, (t: Task) => t.priority == Critical);
    AllPass(tasks, (t: Task) => t.category != "Security");
    assert CriticalNonSecurity(tasks)[..2] == [x, y];
    MembersByPriority(tasks);
    hide ByPriority;
  }

  lemma {:induction false} AllPass(tasks: seq<Task>, p: Task -> bool)
    requires forall t :: t in tasks ==> p(t)
    ensures Filter(tasks, p) == tasks
    decreases |tasks|
  {
    if tasks != [] {
      AllPass(Init(tasks), p);
      assert tasks == Init(tasks) + [Last(tasks)];
    }
  }

  // ---------- the stable sort by priority ----------

  function PriorityRank(p: Priority): nat {
    match p
    case Critical => 0
    case High => 1
    case Medium => 2
    case Low => 3
  }

  predicate RanksBefore(t: Task, u: Task) {
    PriorityRank(t.priority) < PriorityRank(u.priority)
  }

  /** CRITICAL comes before HIGH, HIGH before MEDIUM, MEDIUM before LOW. */
  predicate MoreUrgent(p: Priority, q: Priority) {
    (p, q) in {(Critical, High), (Critical, Medium), (Critical, Low), (High, Medium), (High, Low), (Medium, Low)}
  }

  lemma {:induction false} RanksBeforeIff(t: Task, u: Task)
    ensures RanksBefore(t, u) <==> MoreUrgent(t.priority, u.priority)
  {
  }

  function SortTasksByPriority(tasks: seq<Task>): seq<Task> {
    ByPriority(tasks, Critical) + ByPriority(tasks, High) + ByPriority(tasks, Medium) + ByPriority(tasks, Low)
  }

  lemma {:induction false} TiesHavePriority(tasks: seq<Task>, t: Task)
    ensures Ties(tasks, t, RanksBefore) == ByPriority(tasks, t.priority)
  {
    TiesAre(tasks, t, RanksBefore, (u: Task) => u.priority == t.priority);
  }

  lemma {:induction false} OrderedIsGrouped(sorted: seq<Task>)
    requires IsOrdered(sorted, RanksBefore)
    ensures SortTasksByPriority(sorted) == sorted
  {
    StableSortIsUnique(sorted, sorted);
  }

  lemma {:induction false} FilterOfFilter(tasks: seq<Task>, p: Priority, q: Priority)
    ensures ByPriority(ByPriority(tasks, p), q) == if p == q then ByPriority(tasks, p) else []
  {
    FilterTwice(tasks, (t: Task) => t.priority == p, (t: Task) => t.priority == q, p == q);
  }

  lemma {:induction false} FilterOfSum(s: seq<Task>, t: seq<Task>, p: Priority)
    ensures ByPriority(s + t, p) == ByPriority(s, p) + ByPriority(t, p)
  {
    FilterSum(s, t, (u: Task) => u.priority == p);
  }

  lemma {:induction false} ByPriorityOfGroups(c: seq<Task>, h: seq<Task>, m: seq<Task>, l: seq<Task>, p: Priority)
    ensures ByPriority(c + h + m + l, p) == ByPriority(c, p) + ByPriority(h, p) + ByPriority(m, p) + ByPriority(l, p)
  {
    FilterOfSum(c + h + m, l, p);
    FilterOfSum(c + h, m, p);
    FilterOfSum(c, h, p);
  }

  /** The grouping by priority is a stable sort, and there is no other. */
  lemma {:induction false} StableSortIsUnique(tasks: seq<Task>, sorted: seq<Task>)
    ensures IsStableSort(tasks, sorted, RanksBefore) <==> sorted == SortTasksByPriority(tasks)
  {
    GroupingIsStable(tasks);
    hide IsStableSort;
    Sorting.StableSortIsUnique(tasks, sorted, RanksBefore);
    Sorting.StableSortIsUnique(tasks, SortTasksByPriority(tasks), RanksBefore);
  }

  lemma {:induction false} GroupingIsStable(tasks: seq<Task>)
    ensures IsStableSort(tasks, SortTasksByPriority(tasks), RanksBefore)
  {
    hide ByPriority;
    MembersByPriority(tasks);
    var c, h, m, l := ByPriority(tasks, Critical), ByPriority(tasks, High), ByPriority(tasks, Medium), ByPriority(tasks, Low);
    GroupsAreOrdered(c, h, m, l);
    forall t: Task ensures Ties(c + h + m + l, t, RanksBefore) == Ties(tasks, t, RanksBefore) {
      var p := t.priority;
      TiesHavePriority(c + h + m + l, t);
      TiesHavePriority(tasks, t);
      ByPriorityOfGroups(c, h, m, l, p);
      FilterOfFilter(tasks, Critical, p);
      FilterOfFilter(tasks, High, p);
      FilterOfFilter(tasks, Medium, p);
      FilterOfFilter(tasks, Low, p);
    }
  }

  lemma {:induction false} GroupsAreOrdered(c: seq<Task>, h: seq<Task>, m: seq<Task>, l: seq<Task>)
    requires forall t :: t in c ==> t.priority == Critical
    requires forall t :: t in h ==> t.priority == High
    requires forall t :: t in m ==> t.priority == Medium
    requires forall t :: t in l ==> t.priority == Low
    ensures IsOrdered(c + h + m + l, RanksBefore)
  {
  }

  /** Sorting a phase never moves a task: every phase is already in priority order. */
  lemma {:induction false} PhasesAreSorted(tasks: seq<Task>)
    ensures SortTasksByPriority(Phase1Tasks(tasks)) == Phase1Tasks(tasks)
    ensures SortTasksByPriority(Phase2Tasks(tasks)) == Phase2Tasks(tasks)
    ensures SortTasksByPriority(Phase3Tasks(tasks)) == Phase3Tasks(tasks)
  {
    hide SortTasksByPriority;
    Phase1IsOrdered(tasks);
    Phase2IsOrdered(tasks);
    Phase3IsOrdered(tasks);
    OrderedIsGrouped(Phase1Tasks(tasks));
    OrderedIsGrouped(Phase2Tasks(tasks));
    OrderedIsGrouped(Phase3Tasks(tasks));
  }

  lemma {:induction false} Phase1IsOrdered(tasks: seq<Task>)
    ensures IsOrdered(Phase1Tasks(tasks), RanksBefore)
  {
    MembersByPriority(tasks);
    hide Filter;
    hide ByPriority;
    GroupsAreOrdered(Phase1Tasks(tasks), [], [], []);
    assert Phase1Tasks(tasks) + [] + [] + [] == Phase1Tasks(tasks);
  }

  lemma {:induction false} Phase2IsOrdered(tasks: seq<Task>)
    ensures IsOrdered(Phase2Tasks(tasks), RanksBefore)
  {
    MembersByPriority(tasks);
    hide ByPriority;
    var high := Filter(ByPriority(tasks, High), (t: Task) => t.category == "Testing") +
                Filter(ByPriority(tasks, High), (t: Task) => t.category != "Testing");
    hide Filter;
    GroupsAreOrdered([], high, Take(ByPriority(tasks, Medium), 5), []);
    assert [] + high + Take(ByPriority(tasks, Medium), 5) + [] == Phase2Tasks(tasks);
  }

  lemma {:induction false} Phase3IsOrdered(tasks: seq<Task>)
    ensures IsOrdered(Phase3Tasks(tasks), RanksBefore)
  {
    MembersByPriority(tasks);
    hide ByPriority;
    GroupsAreOrdered([], [], Drop(ByPriority(tasks, Medium), 5), ByPriority(tasks, Low));
    assert [] + [] + Drop(ByPriority(tasks, Medium), 5) + ByPriority(tasks, Low) == Phase3Tasks(tasks);
  }

  // ---------- building the plan ----------

  datatype PhasePlan = PhasePlan(
    id: string, startDay: int, endDay: int, duration: int, tasks: seq<Task>, dependencies: seq<string>)

  /** `duration` is the longest total over the inferred graph of the tasks, rounded up to whole days. */
  ghost predicate IsPhaseDuration(duration: int, tasks: seq<Task>) {
    exists d :: IsLongestTotal(d, tasks, InferredGraph(tasks)) && duration == Ceil(d)
  }

  /** The phases follow one another without a gap, each waiting for the one before. */
  ghost predicate Tiles(phases: seq<PhasePlan>, start: int, end: int) {
    if phases == [] then start == end
    else
      && phases[0].startDay == start
      && phases[0].endDay == start + phases[0].duration
      && phases[0].duration >= 0
      && Tiles(phases[1..], phases[0].endDay, end)
  }

  method BuildPhases(tasks: seq<Task>) returns (phases: seq<PhasePlan>)
    ensures |phases| == 3
    ensures phases[0].tasks == Phase1Tasks(tasks) && phases[1].tasks == Phase2Tasks(tasks) && phases[2].tasks == Phase3Tasks(tasks)
    ensures forall i :: 0 <= i < 3 ==> IsPhaseDuration(phases[i].duration, phases[i].tasks)
    ensures Tiles(phases, 0, phases[2].endDay)
    ensures phases[0].dependencies == [] && phases[1].dependencies == [phases[0].id] && phases[2].dependencies == [phases[1].id]
  {
    hide Phase1Tasks;
    hide Phase2Tasks;
    hide Phase3Tasks;
    hide SortTasksByPriority;
    hide Tiles;
    var phase1Tasks, phase2Tasks, phase3Tasks := Phase1Tasks(tasks), Phase2Tasks(tasks), Phase3Tasks(tasks);
    PhasesAreSorted(tasks);
    hide IsLongestTotal;
    var d1 := CalculatePhaseDuration(phase1Tasks);
    var d2 := CalculatePhaseDuration(phase2Tasks);
    var d3 := CalculatePhaseDuration(phase3Tasks);
    PhaseDurationIsNonNegative(d1, phase1Tasks);
    PhaseDurationIsNonNegative(d2, phase2Tasks);
    PhaseDurationIsNonNegative(d3, phase3Tasks);
    hide IsPhaseDuration;
    phases := [
      PhasePlan("phase-1", 0, d1, d1, SortTasksByPriority(phase1Tasks), []),
      PhasePlan("phase-2", d1, d1 + d2, d2, SortTasksByPriority(phase2Tasks), ["phase-1"]),
      PhasePlan("phase-3", d1 + d2, d1 + d2 + d3, d3, SortTasksByPriority(phase3Tasks), ["phase-2"])
    ];
    ThreePhasesTile(phases);
  }

  lemma {:induction false} ThreePhasesTile(phases: seq<PhasePlan>)
    requires |phases| == 3
    requires forall i :: 0 <= i < 3 ==> phases[i].duration >= 0 && phases[i].endDay == phases[i].startDay + phases[i].duration
    requires phases[1].startDay == phases[0].endDay && phases[2].startDay == phases[1].endDay
    ensures Tiles(phases, phases[0].startDay, phases[2].endDay)
  {
    assert phases[1..][1..] == phases[2..] && phases[2..][1..] == [];
    assert Tiles(phases[2..], phases[2].startDay, phases[2].endDay);
    assert Tiles(phases[1..], phases[1].startDay, phases[2].endDay);
  }

  /** Without explicit dependencies the duration of a phase is the closed form, rounded up. */
  lemma {:induction false} PhaseDurationIsClosedForm(duration: int, tasks: seq<Task>)
    requires Plain(tasks)
    ensures IsPhaseDuration(duration, tasks) <==> duration == Ceil(ClosedForm(tasks))
  {
    hide IsLongestTotal;
    hide ClosedForm;
    PhaseDurationInClosedForm(tasks, ClosedForm(tasks));
    if d :| IsLongestTotal(d, tasks, InferredGraph(tasks)) && duration == Ceil(d) {
      PhaseDurationInClosedForm(tasks, d);
    }
  }

  lemma {:induction false} PhaseDurationIsNonNegative(duration: int, tasks: seq<Task>)
    requires IsPhaseDuration(duration, tasks)
    ensures duration >= 0
  {
  }

  function SumOfSpans(phases: seq<PhasePlan>): int {
    if phases == [] then 0 else phases[0].endDay - phases[0].startDay + SumOfSpans(phases[1..])
  }

  lemma {:induction false} SpansAddUp(phases: seq<PhasePlan>, start: int, end: int)
    requires Tiles(phases, start, end)
    ensures SumOfSpans(phases) == end - start
    decreases |phases|
  {
    if phases != [] {
      SpansAddUp(phases[1..], phases[0].endDay, end);
    }
  }

  // ---------- the critical path of the plan ----------

  /** `path` is as long as any path to one of the tasks, and empty only if there are no tasks. */
  ghost predicate IsLongestOfPhase(path: seq<Id>, tasks: seq<Task>) {
    && (tasks != [] ==> exists t :: t in tasks && IsPath(path, t.id, {}, InferredGraph(tasks)))
    && (tasks == [] ==> path == [])
    && (forall t :: t in tasks ==> BoundsLengths(|path|, t.id, {}, InferredGraph(tasks)))
  }

  method LongestPathOfPhase(tasks: seq<Task>) returns (maxPath: seq<Id>)
    ensures IsLongestOfPhase(maxPath, tasks)
  {
    hide IsPath;
    hide BoundsLengths;
    var dependencies := CalculateDependencies(tasks);
    var taskMap := BuildTaskMap(tasks);
    var g := Graph(taskMap, dependencies);
    assert g == InferredGraph(tasks);
    maxPath := [];
    ghost var end := 0;
    for i := 0 to |tasks|
      invariant maxPath == [] ==> i == 0
      invariant maxPath != [] ==> end < i && IsPath(maxPath, tasks[end].id, {}, g)
      invariant forall k :: 0 <= k < i ==> BoundsLengths(|maxPath|, tasks[k].id, {}, g)
    {
      var path := FindLongestPath(tasks[i].id, g, {});
      PathIsNotEmpty(path, tasks[i].id, {}, g);
      var max := if |path| > |maxPath| then path else maxPath;
      RaiseLengthBound(|path|, |max|, tasks[i].id, {}, g);
      forall k | 0 <= k < i ensures BoundsLengths(|max|, tasks[k].id, {}, g) {
        RaiseLengthBound(|maxPath|, |max|, tasks[k].id, {}, g);
      }
      if |path| > |maxPath| {
        end := i;
      }
      maxPath := max;
    }
    assert tasks != [] ==> tasks[end] in tasks;
  }

  /** The plan's critical path strings together one longest path per phase, in phase order. */
  method IdentifyCriticalPath(phases: seq<PhasePlan>) returns (criticalPath: seq<Id>)
    ensures exists paths :: |paths| == |phases| && criticalPath == Flatten(paths) &&
                            forall i :: 0 <= i < |phases| ==> IsLongestOfPhase(paths[i], phases[i].tasks)
  {
    hide IsLongestOfPhase;
    criticalPath := [];
    ghost var paths: seq<seq<Id>> := [];
    for i := 0 to |phases|
      invariant |paths| == i && criticalPath == Flatten(paths)
      invariant forall k :: 0 <= k < i ==> IsLongestOfPhase(paths[k], phases[k].tasks)
    {
      var maxPath := LongestPathOfPhase(phases[i].tasks);
      assert Init(paths + [maxPath]) == paths;
      paths := paths + [maxPath];
      criticalPath := criticalPath + maxPath;
    }
  }

  datatype Wbs = Wbs(phases: seq<PhasePlan>, totalDuration: int, criticalPath: seq<Id>)

  /** The plan: three phases that tile [0, totalDuration]. */
  method GenerateWbs(tasks: seq<Task>) returns (wbs: Wbs)
    ensures |wbs.phases| == 3 && Tiles(wbs.phases, 0, wbs.totalDuration)
    ensures wbs.phases[0].tasks == Phase1Tasks(tasks)
    ensures wbs.phases[1].tasks == Phase2Tasks(tasks)
    ensures wbs.phases[2].tasks == Phase3Tasks(tasks)
    ensures forall i :: 0 <= i < 3 ==> IsPhaseDuration(wbs.phases[i].duration, wbs.phases[i].tasks)
    ensures exists paths :: |paths| == 3 && wbs.criticalPath == Flatten(paths) &&
                            forall i :: 0 <= i < 3 ==> IsLongestOfPhase(paths[i], wbs.phases[i].tasks)
  {
    hide IsPhaseDuration;
    hide IsLongestOfPhase;
    hide Phase1Tasks;
    hide Phase2Tasks;
    hide Phase3Tasks;
    var phases := BuildPhases(tasks);
    var totalDuration := SumOfSpans(phases);
    SpansAddUp(phases, 0, phases[2].endDay);
    var criticalPath := IdentifyCriticalPath(phases);
    wbs := Wbs(phases, totalDuration, criticalPath);
  }
}
