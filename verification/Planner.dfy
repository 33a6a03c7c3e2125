/**
 Dependencies and durations in the work breakdown structure (src/analysis/wbsGenerator.ts): what
 the planner infers from categories and priorities, and the closed form of a phase's duration.
 */
module Planner {
  import opened Sequences
  import opened TaskGraph

  // ---------- filters ----------

  function SecurityTasks(tasks: seq<Task>): seq<Task> {
    Filter(tasks, (t: Task) => t.category == "Security")
  }

  function CriticalSecurityTasks(tasks: seq<Task>): seq<Task> {
    Filter(tasks, (t: Task) => t.category == "Security" && t.priority == Critical)
  }

  /** Position of the first task with that id, or -1. */
  function IndexOfId(tasks: seq<Task>, id: Id): (k: int)
    ensures -1 <= k < |tasks|
    ensures k >= 0 ==> tasks[k].id == id && forall i :: 0 <= i < k ==> tasks[i].id != id
    ensures k < 0 ==> forall i :: 0 <= i < |tasks| ==> tasks[i].id != id
  {
    if tasks == [] then -1
    else
      var k := IndexOfId(Init(tasks), id);
      if k >= 0 then k else if Last(tasks).id == id then |tasks| - 1 else -1
  }

  // ---------- dependencies ----------

  /** Security tasks follow each other in order, Testing waits for the first CRITICAL Security task. */
  function InferredDeps(tasks: seq<Task>, t: Task): seq<Id> {
    var security := SecurityTasks(tasks);
    var k := IndexOfId(security, t.id);
    var critical := CriticalSecurityTasks(tasks);
    (if t.category == "Security" && k > 0 then [security[k - 1].id] else []) +
    (if t.category == "Testing" && |critical| > 0 then [critical[0].id] else []) +
    t.dependencies
  }

  /** The map of tasks by id; a later task with the same id replaces an earlier one. */
  function TaskMap(tasks: seq<Task>): map<Id, Task> {
    if tasks == [] then map[] else TaskMap(Init(tasks))[Last(tasks).id := Last(tasks)]
  }

  /** The dependencies, inferred from `tasks`, of the tasks in `some`. */
  function DependenciesOf(tasks: seq<Task>, some: seq<Task>): map<Id, seq<Id>> {
    map id | id in TaskMap(some) :: InferredDeps(tasks, TaskMap(some)[id])
  }

  function DependencyMap(tasks: seq<Task>): map<Id, seq<Id>> {
    DependenciesOf(tasks, tasks)
  }

  lemma {:induction false} NoDependencies(tasks: seq<Task>)
    ensures DependenciesOf(tasks, []) == map[]
  {
  }

  lemma {:induction false} DependenciesGrow(tasks: seq<Task>, i: nat)
    requires i < |tasks|
    ensures DependenciesOf(tasks, tasks[..i + 1]) == DependenciesOf(tasks, tasks[..i])[tasks[i].id := InferredDeps(tasks, tasks[i])]
  {
    hide InferredDeps;
    assert Init(tasks[..i + 1]) == tasks[..i];
  }

  function InferredGraph(tasks: seq<Task>): Graph {
    Graph(TaskMap(tasks), DependencyMap(tasks))
  }

  method CalculateDependencies(tasks: seq<Task>) returns (dependencies: map<Id, seq<Id>>)
    ensures dependencies == DependencyMap(tasks)
  {
    hide Filter;
    hide IndexOfId;
    hide DependenciesOf;
    dependencies := map[];
    assert tasks[..0] == [] && DependenciesOf(tasks, []) == map[] by { NoDependencies(tasks); }
    for i := 0 to |tasks|
      invariant dependencies == DependenciesOf(tasks, tasks[..i])
    {
      var task := tasks[i];
      var taskDeps: seq<Id> := [];
      if task.category == "Security" {
        var securityTasks := Filter(tasks, (t: Task) => t.category == "Security");
        assert securityTasks == SecurityTasks(tasks);
        var currentIndex := IndexOfId(securityTasks, task.id);
        if currentIndex > 0 {
          taskDeps := taskDeps + [securityTasks[currentIndex - 1].id];
        }
      }
      if task.category == "Testing" {
        var securityTasks := Filter(tasks, (t: Task) => t.category == "Security" && t.priority == Critical);
        assert securityTasks == CriticalSecurityTasks(tasks);
        if |securityTasks| > 0 {
          taskDeps := taskDeps + [securityTasks[0].id];
        }
      }
      taskDeps := taskDeps + task.dependencies;
      assert taskDeps == InferredDeps(tasks, task);
      dependencies := dependencies[task.id := taskDeps];
      DependenciesGrow(tasks, i);
    }
    assert tasks[..|tasks|] == tasks;
  }

  method BuildTaskMap(tasks: seq<Task>) returns (taskMap: map<Id, Task>)
    ensures taskMap == TaskMap(tasks)
  {
    taskMap := map[];
    for i := 0 to |tasks|
      invariant taskMap == TaskMap(tasks[..i])
    {
      taskMap := taskMap[tasks[i].id := tasks[i]];
      assert Init(tasks[..i + 1]) == tasks[..i];
    }
    assert tasks[..|tasks|] == tasks;
  }

  // ---------- phase duration ----------

  function Ceil(x: real): int {
    -((-x).Floor)
  }

  /** The least whole number that is not smaller. */
  lemma {:induction false} CeilIff(x: real, n: int)
    ensures n == Ceil(x) <==> x <= n as real < x + 1.0
  {
  }

  /** `d` is the larger of 0 and the most days that a known path to one of the tasks takes. */
  ghost predicate IsLongestTotal(d: real, tasks: seq<Task>, g: Graph) {
    && d >= 0.0
    && (forall t :: t in tasks ==> BoundsTotals(d, t.id, {}, g))
    && (d == 0.0 || exists t :: t in tasks && AttainsTotal(d, t.id, {}, g))
  }

  lemma {:induction false} TaskMapKeys(tasks: seq<Task>)
    ensures forall t :: t in tasks ==> t.id in TaskMap(tasks)
    ensures forall id :: id in TaskMap(tasks) ==> TaskMap(tasks)[id] in tasks && TaskMap(tasks)[id].id == id
  {
    if tasks != [] {
      TaskMapKeys(Init(tasks));
      assert forall t :: t in tasks <==> t in Init(tasks) || t == Last(tasks);
    }
  }

  ghost predicate IsLastWithId(tasks: seq<Task>, k: int, id: Id) {
    0 <= k < |tasks| && tasks[k].id == id && forall l :: k < l < |tasks| ==> tasks[l].id != id
  }

  /** An id stands for the last task that has it. */
  lemma {:induction false} TaskMapIsLast(tasks: seq<Task>, id: Id) returns (k: int)
    ensures if id in TaskMap(tasks) then IsLastWithId(tasks, k, id) && TaskMap(tasks)[id] == tasks[k]
            else forall l :: 0 <= l < |tasks| ==> tasks[l].id != id
    decreases |tasks|
  {
    k := -1;
    if tasks != [] {
      var init := Init(tasks);
      k := TaskMapIsLast(init, id);
      assert forall l :: 0 <= l < |init| ==> tasks[l] == init[l];
      if Last(tasks).id == id {
        k := |init|;
      }
    }
  }

  method CalculatePhaseDuration(tasks: seq<Task>) returns (duration: int)
    ensures exists d :: IsLongestTotal(d, tasks, InferredGraph(tasks)) && duration == Ceil(d)
  {
    hide BoundsTotals;
    hide AttainsTotal;
    if |tasks| == 0 {
      assert IsLongestTotal(0.0, tasks, InferredGraph(tasks));
      return 0;
    }
    var dependencies := CalculateDependencies(tasks);
    var taskMap := BuildTaskMap(tasks);
    var g := Graph(taskMap, dependencies);
    TaskMapKeys(tasks);
    var maxDuration := 0.0;
    for i := 0 to |tasks|
      invariant IsLongestTotal(maxDuration, tasks[..i], g)
    {
      var duration := TaskDurationWithDeps(tasks[i].id, g, {});
      var max := if maxDuration < duration then duration else maxDuration;
      RaiseBound(duration, max, tasks[i].id, {}, g);
      forall t | t in tasks[..i] ensures BoundsTotals(max, t.id, {}, g) {
        RaiseBound(maxDuration, max, t.id, {}, g);
      }
      assert tasks[..i + 1] == tasks[..i] + [tasks[i]];
      maxDuration := max;
    }
    assert tasks[..|tasks|] == tasks;
    duration := Ceil(maxDuration);
  }

  lemma {:induction false} LongestTotalIsUnique(d: real, e: real, tasks: seq<Task>, g: Graph)
    requires IsLongestTotal(d, tasks, g) && IsLongestTotal(e, tasks, g)
    ensures d == e
  {
  }

  // ---------- the inferred graph in closed form ----------

  ghost predicate DistinctIds(tasks: seq<Task>) {
    forall i, j :: 0 <= i < j < |tasks| ==> tasks[i].id != tasks[j].id
  }

  /** Task j is the last Security task before task i. */
  ghost predicate IsPreviousSecurity(tasks: seq<Task>, j: int, i: int) {
    && 0 <= j < i < |tasks| && tasks[j].category == "Security"
    && forall l :: j < l < i ==> tasks[l].category != "Security"
  }

  /** Task j is the first CRITICAL Security task. */
  ghost predicate IsFirstCriticalSecurity(tasks: seq<Task>, j: int) {
    && 0 <= j < |tasks| && tasks[j].category == "Security" && tasks[j].priority == Critical
    && forall l :: 0 <= l < j ==> !(tasks[l].category == "Security" && tasks[l].priority == Critical)
  }

  /**
   What task i waits for: a Security task for the Security task before it, a Testing task for the first
   CRITICAL Security task, and every task for what it names itself.
   */
  lemma {:induction false} DependsIff(tasks: seq<Task>, i: nat, dep: Id)
    requires DistinctIds(tasks) && i < |tasks|
    ensures tasks[i].id in InferredGraph(tasks).tasks
    ensures dep in InferredGraph(tasks).Deps(tasks[i].id) <==>
            || dep in tasks[i].dependencies
            || (tasks[i].category == "Security" && exists j :: IsPreviousSecurity(tasks, j, i) && tasks[j].id == dep)
            || (tasks[i].category == "Testing" && exists j :: IsFirstCriticalSecurity(tasks, j) && tasks[j].id == dep)
  {
    hide SecurityTasks;
    hide CriticalSecurityTasks;
    hide IndexOfId;
    hide TaskMap;
    hide IsPreviousSecurity;
    hide IsFirstCriticalSecurity;
    TaskMapOfDistinct(tasks, i);
    var k, j := PreviousSecurityIs(tasks, i);
    var c := FirstCriticalSecurityIs(tasks);
    if tasks[i].category == "Security" {
      PreviousExistsIff(tasks, i, j, k > 0, dep);
    }
    FirstExistsIff(tasks, c, CriticalSecurityTasks(tasks) != [], dep);
  }

  lemma {:induction false} PreviousExistsIff(tasks: seq<Task>, i: nat, j: int, found: bool, dep: Id)
    requires if found then IsPreviousSecurity(tasks, j, i) else forall l :: 0 <= l < i < |tasks| ==> tasks[l].category != "Security"
    ensures (exists l :: IsPreviousSecurity(tasks, l, i) && tasks[l].id == dep) <==> found && tasks[j].id == dep
  {
    forall l | IsPreviousSecurity(tasks, l, i) ensures found && l == j {
      OnePreviousSecurity(tasks, j, l, i);
    }
  }

  lemma {:induction false} FirstExistsIff(tasks: seq<Task>, c: int, found: bool, dep: Id)
    requires if found then IsFirstCriticalSecurity(tasks, c)
             else forall l :: 0 <= l < |tasks| ==> !(tasks[l].category == "Security" && tasks[l].priority == Critical)
    ensures (exists l :: IsFirstCriticalSecurity(tasks, l) && tasks[l].id == dep) <==> found && tasks[c].id == dep
  {
    forall l | IsFirstCriticalSecurity(tasks, l) ensures found && l == c {
      OneFirstCritical(tasks, c, l);
    }
  }

  lemma {:induction false} TaskMapOfDistinct(tasks: seq<Task>, k: nat)
    requires DistinctIds(tasks) && k < |tasks|
    ensures tasks[k].id in TaskMap(tasks) && TaskMap(tasks)[tasks[k].id] == tasks[k]
  {
    TaskMapKeys(tasks);
    var found := TaskMap(tasks)[tasks[k].id];
    var m :| 0 <= m < |tasks| && tasks[m] == found;
  }

  /** Task j is the previous Security task of Security task i, if there is one; then it is just before it among them. */
  lemma {:induction false} PreviousSecurityIs(tasks: seq<Task>, i: nat) returns (k: int, j: int)
    requires DistinctIds(tasks) && i < |tasks|
    ensures tasks[i].category == "Security" ==>
              var security := SecurityTasks(tasks);
              && k == IndexOfId(security, tasks[i].id) && k >= 0
              && (if k > 0 then IsPreviousSecurity(tasks, j, i) && security[k - 1] == tasks[j]
                  else forall l :: 0 <= l < i ==> tasks[l].category != "Security")
  {
    hide Filter;
    hide IndexOfId;
    k, j := -1, -1;
    if tasks[i].category == "Security" {
      var p := (t: Task) => t.category == "Security";
      var at := FilterIs(tasks, p);
      k := PositionOf(at, tasks, p, i);
      NothingBetween(at, tasks, p, k);
      PlaceAmongFiltered(tasks, SecurityTasks(tasks), at, i, k);
      if k > 0 {
        j := at[k - 1];
      }
    }
  }

  lemma {:induction false} PlaceAmongFiltered(tasks: seq<Task>, filtered: seq<Task>, at: seq<nat>, i: nat, m: nat)
    requires DistinctIds(tasks) && i < |tasks| && |at| == |filtered| && m < |at| && at[m] == i
    requires forall k :: 0 <= k < |at| ==> at[k] < |tasks| && filtered[k] == tasks[at[k]]
    requires forall k, l :: 0 <= k < l < |at| ==> at[k] < at[l]
    ensures IndexOfId(filtered, tasks[i].id) == m
  {
    hide IndexOfId;
    var k := IndexOfId(filtered, tasks[i].id);
    assert filtered[m].id == tasks[i].id;
    assert at[k] == i;
  }

  lemma {:induction false} OnePreviousSecurity(tasks: seq<Task>, j: int, j': int, i: nat)
    requires IsPreviousSecurity(tasks, j', i)
    requires IsPreviousSecurity(tasks, j, i) || forall l :: 0 <= l < i ==> tasks[l].category != "Security"
    ensures j == j' && IsPreviousSecurity(tasks, j, i)
  {
    assert tasks[j'].category == "Security";
  }

  lemma {:induction false} FirstCriticalSecurityIs(tasks: seq<Task>) returns (c: int)
    ensures var critical := CriticalSecurityTasks(tasks);
            if critical == [] then forall l :: 0 <= l < |tasks| ==> !(tasks[l].category == "Security" && tasks[l].priority == Critical)
            else IsFirstCriticalSecurity(tasks, c) && critical[0] == tasks[c]
  {
    var critical, p := CriticalSecurityTasks(tasks), (t: Task) => t.category == "Security" && t.priority == Critical;
    var at := FilterIs(tasks, p);
    assert critical == Filter(tasks, p);
    hide CriticalSecurityTasks;
    hide Filter;
    c := -1;
    if critical == [] {
      forall l | 0 <= l < |tasks| ensures !p(tasks[l]) {
        assert l !in at;
      }
    } else {
      NothingBetween(at, tasks, p, 0);
      c := at[0];
    }
  }

  lemma {:induction false} OneFirstCritical(tasks: seq<Task>, c: int, c': int)
    requires IsFirstCriticalSecurity(tasks, c')
    requires IsFirstCriticalSecurity(tasks, c) ||
             forall l :: 0 <= l < |tasks| ==> !(tasks[l].category == "Security" && tasks[l].priority == Critical)
    ensures c == c' && IsFirstCriticalSecurity(tasks, c)
  {
    assert tasks[c'].category == "Security";
  }

  /** Distinct ids, no explicit dependencies, no negative estimate: what the gap analysis produces, given distinct ids. */
  ghost predicate Plain(tasks: seq<Task>) {
    && DistinctIds(tasks)
    && (forall t :: t in tasks ==> t.dependencies == [] && t.estimatedDays >= 0.0)
  }

  function SumDays(tasks: seq<Task>): real {
    if tasks == [] then 0.0 else SumDays(Init(tasks)) + Last(tasks).estimatedDays
  }

  function MaxReal(x: real, y: real): real {
    if x < y then y else x
  }

  function MaxDays(tasks: seq<Task>): real {
    if tasks == [] then 0.0 else MaxReal(MaxDays(Init(tasks)), Last(tasks).estimatedDays)
  }

  /** The days of the Security tasks up to and including the first CRITICAL one; 0 if there is none. */
  function DaysThroughFirstCritical(security: seq<Task>): real {
    if security == [] then 0.0
    else if exists t :: t in Init(security) && t.priority == Critical then DaysThroughFirstCritical(Init(security))
    else if Last(security).priority == Critical then SumDays(security)
    else 0.0
  }

  function TestingTasks(tasks: seq<Task>): seq<Task> {
    Filter(tasks, (t: Task) => t.category == "Testing")
  }

  function OtherTasks(tasks: seq<Task>): seq<Task> {
    Filter(tasks, (t: Task) => t.category != "Security" && t.category != "Testing")
  }

  function ClosedForm(tasks: seq<Task>): real {
    var security := SecurityTasks(tasks);
    MaxReal(SumDays(security),
            MaxReal(DaysThroughFirstCritical(security) + MaxDays(TestingTasks(tasks)), MaxDays(OtherTasks(tasks))))
  }

  /** The days that the longest path to one task takes. */
  function Cost(tasks: seq<Task>, t: Task): real {
    var security := SecurityTasks(tasks);
    if t.category == "Security" then SumDays(security[..IndexOfId(security, t.id) + 1])
    else if t.category == "Testing" then DaysThroughFirstCritical(security) + t.estimatedDays
    else t.estimatedDays
  }

  lemma {:induction false} PlainFilter(s: seq<Task>, p: Task -> bool)
    requires Plain(s)
    ensures Plain(Filter(s, p))
    decreases |s|
  {
    if s != [] {
      assert Plain(Init(s)) by {
        assert forall t :: t in Init(s) ==> t in s;
      }
      PlainFilter(Init(s), p);
      var r := Filter(Init(s), p);
      assert forall t :: t in r ==> t in Init(s) && t.id != Last(s).id;
    }
  }

  lemma {:induction false} IndexInPlain(s: seq<Task>, k: nat)
    requires Plain(s) && k < |s|
    ensures IndexOfId(s, s[k].id) == k
  {
  }

  lemma {:induction false} TaskMapOfPlain(tasks: seq<Task>, k: nat)
    requires Plain(tasks) && k < |tasks|
    ensures tasks[k].id in TaskMap(tasks) && TaskMap(tasks)[tasks[k].id] == tasks[k]
  {
    TaskMapKeys(tasks);
    var found := TaskMap(tasks)[tasks[k].id];
    var m :| 0 <= m < |tasks| && tasks[m] == found;
  }

  /** Where the first CRITICAL Security task stands among all Security tasks. */
  lemma {:induction false} FirstCriticalIndex(tasks: seq<Task>) returns (c: int)
    ensures var security, critical := SecurityTasks(tasks), CriticalSecurityTasks(tasks);
            if critical == [] then
              c == -1 && DaysThroughFirstCritical(security) == 0.0
            else
              0 <= c < |security| && security[c] == critical[0] &&
              DaysThroughFirstCritical(security) == SumDays(security[..c + 1])
    decreases |tasks|
  {
    var security := SecurityTasks(tasks);
    if tasks == [] {
      assert security == [] && CriticalSecurityTasks(tasks) == [];
      return -1;
    }
    SecurityTasksUnfold(tasks);
    var last, before := Last(tasks), SecurityTasks(Init(tasks));
    c := FirstCriticalIndex(Init(tasks));
    hide SecurityTasks;
    hide CriticalSecurityTasks;
    if c >= 0 {
      assert security[..c + 1] == before[..c + 1];
    } else if last.category == "Security" && last.priority == Critical {
      c := |security| - 1;
      assert security[..c + 1] == security;
    }
  }

  lemma {:induction false} SecurityTasksUnfold(tasks: seq<Task>)
    requires tasks != []
    ensures var before, criticalBefore := SecurityTasks(Init(tasks)), CriticalSecurityTasks(Init(tasks));
            var security, critical, last := SecurityTasks(tasks), CriticalSecurityTasks(tasks), Last(tasks);
            if last.category != "Security" then security == before && critical == criticalBefore
            else
              && security == before + [last]
              && critical == criticalBefore + (if last.priority == Critical then [last] else [])
              && DaysThroughFirstCritical(security) ==
                 (if criticalBefore != [] then DaysThroughFirstCritical(before)
                  else if last.priority == Critical then SumDays(security)
                  else 0.0)
  {
    var before, criticalBefore := SecurityTasks(Init(tasks)), CriticalSecurityTasks(Init(tasks));
    if Last(tasks).category == "Security" {
      assert Init(SecurityTasks(tasks)) == before;
      assert forall t :: t in criticalBefore <==> t in before && t.priority == Critical;
      assert criticalBefore != [] ==> criticalBefore[0] in criticalBefore;
    }
  }

  /** The Security task at position k. */
  lemma {:induction false} SecurityTaskAt(tasks: seq<Task>, k: nat)
    requires Plain(tasks) && k < |SecurityTasks(tasks)|
    ensures var security := SecurityTasks(tasks);
            && security[k] in tasks && security[k].category == "Security"
            && IndexOfId(security, security[k].id) == k
            && (forall i :: 0 <= i < k ==> security[i].id != security[k].id)
            && SumDays(security[..k + 1]) == SumDays(security[..k]) + security[k].estimatedDays
            && SumDays(security[..k]) >= 0.0
  {
    var security := SecurityTasks(tasks);
    PlainFilter(tasks, (t: Task) => t.category == "Security");
    IndexInPlain(security, k);
    assert security[k] in security;
    assert Init(security[..k + 1]) == security[..k];
    SumDaysNonNegative(security[..k]);
  }

  /** In a plain phase every task waits for at most one other. */
  lemma {:induction false} PlainDeps(tasks: seq<Task>, t: Task)
    requires Plain(tasks) && t in tasks
    ensures var security, critical := SecurityTasks(tasks), CriticalSecurityTasks(tasks);
            var k := IndexOfId(security, t.id);
            var g := InferredGraph(tasks);
            && t.estimatedDays >= 0.0 && t.id in g.tasks && g.tasks[t.id] == t
            && (t.category == "Security" ==> k >= 0 && security[k] == t)
            && g.Deps(t.id) ==
               (if t.category == "Security" && k > 0 then [security[k - 1].id]
                else if t.category == "Testing" && |critical| > 0 then [critical[0].id]
                else [])
  {
    hide TaskMap;
    hide IndexOfId;
    hide SecurityTasks;
    hide CriticalSecurityTasks;
    var i :| 0 <= i < |tasks| && tasks[i] == t;
    TaskMapOfPlain(tasks, i);
    if t.category == "Security" {
      SecurityTaskIndex(tasks, t);
    }
  }

  lemma {:induction false} SecurityTaskIndex(tasks: seq<Task>, t: Task)
    requires Plain(tasks) && t in tasks && t.category == "Security"
    ensures var k := IndexOfId(SecurityTasks(tasks), t.id);
            k >= 0 && SecurityTasks(tasks)[k] == t
  {
    hide Plain;
    hide IndexOfId;
    var security := SecurityTasks(tasks);
    var m :| 0 <= m < |security| && security[m] == t;
    SecurityTaskAt(tasks, m);
  }

  lemma {:induction false} PathsCostAtMost(tasks: seq<Task>, t: Task, path: seq<Id>, visited: set<Id>)
    requires Plain(tasks) && t in tasks
    requires IsKnownPath(path, t.id, visited, InferredGraph(tasks))
    ensures TotalDays(path, InferredGraph(tasks)) <= Cost(tasks, t)
    decreases |path|
  {
    hide Plain;
    hide InferredGraph;
    hide SecurityTasks;
    hide CriticalSecurityTasks;
    hide IndexOfId;
    hide SumDays;
    hide DaysThroughFirstCritical;
    var g, security := InferredGraph(tasks), SecurityTasks(tasks);
    PlainDeps(tasks, t);
    PathUnfolds(path, t.id, visited, g);
    var c := FirstCriticalIndex(tasks);
    var k := IndexOfId(security, t.id);
    if t.category == "Security" {
      SecurityTaskAt(tasks, k);
    }
    if c >= 0 {
      SecurityTaskAt(tasks, c);
      PlainDeps(tasks, security[c]);
    }
    if |path| == 1 {
      assert Init(path) == [];
    } else {
      var prev := if t.category == "Security" then k - 1 else c;
      SecurityTaskAt(tasks, prev);
      assert Init(path)[0] == path[0];
      hide IsPath;
      PathsCostAtMost(tasks, security[prev], Init(path), visited + {t.id});
    }
  }

  lemma {:induction false} SumDaysNonNegative(tasks: seq<Task>)
    requires forall t :: t in tasks ==> t.estimatedDays >= 0.0
    ensures SumDays(tasks) >= 0.0
    decreases |tasks|
  {
    if tasks != [] {
      SumDaysNonNegative(Init(tasks));
    }
  }

  /** The chain of Security tasks up to position k is a path. */
  lemma {:induction false} SecurityChain(tasks: seq<Task>, k: nat, visited: set<Id>)
    requires Plain(tasks) && k < |SecurityTasks(tasks)|
    requires forall i :: 0 <= i <= k ==> SecurityTasks(tasks)[i].id !in visited
    ensures AttainsTotal(SumDays(SecurityTasks(tasks)[..k + 1]), SecurityTasks(tasks)[k].id, visited, InferredGraph(tasks))
    decreases k
  {
    hide Plain;
    hide AttainsTotal;
    hide InferredGraph;
    hide SecurityTasks;
    hide IndexOfId;
    var g, security := InferredGraph(tasks), SecurityTasks(tasks);
    SecurityTaskAt(tasks, k);
    PlainDeps(tasks, security[k]);
    if k == 0 {
      assert security[..0] == [] && SumDays(security[..0]) == 0.0;
      SingletonAttained(security[k].id, visited, g);
    } else {
      hide SumDays;
      SecurityChain(tasks, k - 1, visited + {security[k].id});
      ExtendAttained(SumDays(security[..k]), security[k - 1].id, security[k].id, visited, g);
    }
  }

  lemma {:induction false} CostIsAttained(tasks: seq<Task>, t: Task)
    requires Plain(tasks) && t in tasks
    ensures AttainsTotal(Cost(tasks, t), t.id, {}, InferredGraph(tasks))
  {
    hide Plain;
    hide AttainsTotal;
    hide InferredGraph;
    hide SecurityTasks;
    hide CriticalSecurityTasks;
    hide IndexOfId;
    hide SumDays;
    hide DaysThroughFirstCritical;
    var g, security := InferredGraph(tasks), SecurityTasks(tasks);
    PlainDeps(tasks, t);
    var c := FirstCriticalIndex(tasks);
    if t.category == "Security" {
      SecurityChain(tasks, IndexOfId(security, t.id), {});
    } else if t.category == "Testing" && c >= 0 {
      forall i | 0 <= i <= c ensures security[i].id != t.id {
        SecurityTaskAt(tasks, i);
        PlainDeps(tasks, security[i]);
      }
      SecurityChain(tasks, c, {t.id});
      assert {} + {t.id} == {t.id};
      ExtendAttained(SumDays(security[..c + 1]), security[c].id, t.id, {}, g);
    } else {
      SingletonAttained(t.id, {}, g);
    }
  }

  lemma {:induction false} SumDaysMonotone(tasks: seq<Task>, k: nat)
    requires k <= |tasks| && forall t :: t in tasks ==> t.estimatedDays >= 0.0
    ensures SumDays(tasks[..k]) <= SumDays(tasks)
    decreases |tasks|
  {
    if k == |tasks| {
      assert tasks[..k] == tasks;
    } else {
      assert Init(tasks)[..k] == tasks[..k];
      SumDaysMonotone(Init(tasks), k);
    }
  }

  lemma {:induction false} MaxDaysMeaning(tasks: seq<Task>)
    requires forall t :: t in tasks ==> t.estimatedDays >= 0.0
    ensures forall t :: t in tasks ==> t.estimatedDays <= MaxDays(tasks)
    ensures tasks != [] ==> exists t :: t in tasks && t.estimatedDays == MaxDays(tasks)
    decreases |tasks|
  {
    if tasks != [] {
      MaxDaysMeaning(Init(tasks));
      assert Last(tasks) in tasks;
      assert forall t :: t in tasks <==> t in Init(tasks) || t == Last(tasks);
    }
  }

  /** No task costs more than the closed form. */
  lemma {:induction false} CostAtMostClosedForm(tasks: seq<Task>, t: Task)
    requires Plain(tasks) && t in tasks
    ensures 0.0 <= Cost(tasks, t) <= ClosedForm(tasks)
  {
    hide SecurityTasks;
    hide IndexOfId;
    ClosedFormParts(tasks);
    hide ClosedForm;
    PlainDeps(tasks, t);
    hide InferredGraph;
    var security := SecurityTasks(tasks);
    if t.category == "Security" {
      var k := IndexOfId(security, t.id);
      SumDaysMonotone(security, k + 1);
      SumDaysNonNegative(security[..k + 1]);
    } else {
      var c := FirstCriticalIndex(tasks);
      SumDaysNonNegative(security[..c + 1]);
    }
  }

  /** The three terms of the closed form, each over the tasks of its category. */
  lemma {:induction false} ClosedFormParts(tasks: seq<Task>)
    requires Plain(tasks)
    ensures SumDays(SecurityTasks(tasks)) <= ClosedForm(tasks)
    ensures forall t :: t in SecurityTasks(tasks) ==> t.estimatedDays >= 0.0
    ensures forall t :: t in tasks && t.category == "Testing" ==>
                          DaysThroughFirstCritical(SecurityTasks(tasks)) + t.estimatedDays <= ClosedForm(tasks)
    ensures forall t :: t in tasks && t.category != "Testing" && t.category != "Security" ==> t.estimatedDays <= ClosedForm(tasks)
  {
    hide SumDays;
    hide DaysThroughFirstCritical;
    MaxDaysMeaning(TestingTasks(tasks));
    MaxDaysMeaning(OtherTasks(tasks));
    hide MaxDays;
  }

  lemma {:induction false} LastSecurityCost(tasks: seq<Task>) returns (t: Task)
    requires Plain(tasks) && SecurityTasks(tasks) != []
    ensures t in tasks && Cost(tasks, t) == SumDays(SecurityTasks(tasks))
  {
    hide Plain;
    hide SecurityTasks;
    hide IndexOfId;
    hide SumDays;
    var security := SecurityTasks(tasks);
    t := Last(security);
    SecurityTaskAt(tasks, |security| - 1);
    assert security[..|security|] == security;
  }

  lemma {:induction false} LargestTestingCost(tasks: seq<Task>) returns (t: Task)
    requires Plain(tasks) && TestingTasks(tasks) != []
    ensures t in tasks && Cost(tasks, t) == DaysThroughFirstCritical(SecurityTasks(tasks)) + MaxDays(TestingTasks(tasks))
  {
    MaxDaysMeaning(TestingTasks(tasks));
    t :| t in TestingTasks(tasks) && t.estimatedDays == MaxDays(TestingTasks(tasks));
  }

  lemma {:induction false} LargestOtherCost(tasks: seq<Task>) returns (t: Task)
    requires Plain(tasks) && OtherTasks(tasks) != []
    ensures t in tasks && Cost(tasks, t) == MaxDays(OtherTasks(tasks))
  {
    MaxDaysMeaning(OtherTasks(tasks));
    t :| t in OtherTasks(tasks) && t.estimatedDays == MaxDays(OtherTasks(tasks));
  }

  /** Some task costs exactly the closed form, unless it is 0. */
  lemma {:induction false} ClosedFormIsSomeCost(tasks: seq<Task>)
    requires Plain(tasks)
    ensures ClosedForm(tasks) == 0.0 || exists t :: t in tasks && Cost(tasks, t) == ClosedForm(tasks)
  {
    var security, testing, other := SecurityTasks(tasks), TestingTasks(tasks), OtherTasks(tasks);
    EmptyDays(security, testing, other);
    hide Plain;
    hide SecurityTasks;
    hide TestingTasks;
    hide OtherTasks;
    hide Cost;
    hide MaxDays;
    hide SumDays;
    ClosedFormParts(tasks);
    var c := FirstCriticalIndex(tasks);
    SumDaysMonotone(security, c + 1);
    hide DaysThroughFirstCritical;
    if SumDays(security) == ClosedForm(tasks) && security != [] {
      var t := LastSecurityCost(tasks);
    } else if testing != [] && DaysThroughFirstCritical(security) + MaxDays(testing) == ClosedForm(tasks) {
      var t := LargestTestingCost(tasks);
    } else if other != [] && MaxDays(other) == ClosedForm(tasks) {
      var t := LargestOtherCost(tasks);
    }
  }

  lemma {:induction false} EmptyDays(security: seq<Task>, testing: seq<Task>, other: seq<Task>)
    ensures security == [] ==> SumDays(security) == 0.0
    ensures testing == [] ==> MaxDays(testing) == 0.0
    ensures other == [] ==> MaxDays(other) == 0.0
  {
  }

  /** Main result: the exhaustive search over the inferred graph computes the closed form. */
  lemma {:induction false} PhaseDurationInClosedForm(tasks: seq<Task>, d: real)
    requires Plain(tasks)
    ensures IsLongestTotal(d, tasks, InferredGraph(tasks)) <==> d == ClosedForm(tasks)
  {
    hide Plain;
    hide InferredGraph;
    hide IsKnownPath;
    hide AttainsTotal;
    hide ClosedForm;
    hide Cost;
    var g := InferredGraph(tasks);
    ClosedFormIsSomeCost(tasks);
    forall t | t in tasks
      ensures 0.0 <= Cost(tasks, t) <= ClosedForm(tasks)
      ensures BoundsTotals(ClosedForm(tasks), t.id, {}, g) && AttainsTotal(Cost(tasks, t), t.id, {}, g)
    {
      CostAtMostClosedForm(tasks, t);
      forall path | IsKnownPath(path, t.id, {}, g) ensures TotalDays(path, g) <= ClosedForm(tasks) {
        PathsCostAtMost(tasks, t, path, {});
      }
      CostIsAttained(tasks, t);
    }
    hide BoundsTotals;
    assert IsLongestTotal(ClosedForm(tasks), tasks, g);
    if IsLongestTotal(d, tasks, g) {
      LongestTotalIsUnique(d, ClosedForm(tasks), tasks, g);
    }
  }

  // ---------- the inferred graph is acyclic ----------

  /** Every element of the walk waits for the next one. */
  ghost predicate IsWalk(walk: seq<Id>, g: Graph) {
    forall i :: 0 <= i < |walk| - 1 ==> walk[i + 1] in g.Deps(walk[i])
  }

  function Rank(tasks: seq<Task>, id: Id): int {
    if id !in TaskMap(tasks) then 0
    else if TaskMap(tasks)[id].category == "Security" then IndexOfId(SecurityTasks(tasks), id)
    else |tasks|
  }

  lemma {:induction false} RankDecreases(tasks: seq<Task>, id: Id, dep: Id)
    requires Plain(tasks) && dep in InferredGraph(tasks).Deps(id)
    ensures Rank(tasks, dep) < Rank(tasks, id)
  {
    hide Plain;
    hide SecurityTasks;
    hide CriticalSecurityTasks;
    hide IndexOfId;
    TaskMapKeys(tasks);
    var t, security := TaskMap(tasks)[id], SecurityTasks(tasks);
    PlainDeps(tasks, t);
    var c := FirstCriticalIndex(tasks);
    hide InferredGraph;
    hide TaskMap;
    hide InferredDeps;
    RankOfSecurityTask(tasks, if t.category == "Security" then IndexOfId(security, id) - 1 else c);
  }

  lemma {:induction false} RankOfSecurityTask(tasks: seq<Task>, k: nat)
    requires Plain(tasks) && k < |SecurityTasks(tasks)|
    ensures Rank(tasks, SecurityTasks(tasks)[k].id) == k < |tasks|
  {
    hide Plain;
    hide SecurityTasks;
    SecurityTaskAt(tasks, k);
    PlainDeps(tasks, SecurityTasks(tasks)[k]);
    SecurityTasksAreFewer(tasks);
  }

  lemma {:induction false} SecurityTasksAreFewer(tasks: seq<Task>)
    ensures |SecurityTasks(tasks)| <= |tasks|
  {
  }

  lemma {:induction false} InferredGraphIsAcyclic(tasks: seq<Task>, walk: seq<Id>)
    requires Plain(tasks) && |walk| >= 2 && IsWalk(walk, InferredGraph(tasks))
    ensures Rank(tasks, Last(walk)) < Rank(tasks, walk[0])
    ensures walk[0] != Last(walk)
    decreases |walk|
  {
    var init := Init(walk);
    assert walk[|init|] in InferredGraph(tasks).Deps(walk[|init| - 1]);
    RankDecreases(tasks, Last(init), Last(walk));
    if |init| >= 2 {
      assert forall i :: 0 <= i < |init| ==> init[i] == walk[i];
      InferredGraphIsAcyclic(tasks, init);
    }
  }
}
