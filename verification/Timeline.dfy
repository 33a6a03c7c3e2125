/**
 The timeline's own notion of a critical path (src/analysis/timelineCalculator.ts), which walks
 the tasks' explicit dependencies only.  Its search starts at tasks that depend on nothing, so
 the path it reports is a single task.
 */
module Timeline {
  import opened Sequences
  import opened TaskGraph
  import opened Planner
  import opened Phases

  /** The graph of the explicit dependencies. */
  function ExplicitGraph(taskMap: map<Id, Task>): Graph {
    Graph(taskMap, map id | id in taskMap :: taskMap[id].dependencies)
  }

  /**
   The search adds its own task to the caller's visited set, `seen` on return; inner calls get
   copies.
   */
  method DfsLongestPath(taskId: Id, taskMap: map<Id, Task>, visited: set<Id>) returns (path: seq<Id>, seen: set<Id>)
    ensures taskId in visited ==> path == []
    ensures taskId !in visited ==> IsLongestPath(path, taskId, visited, ExplicitGraph(taskMap))
    ensures seen == visited + {taskId}
    decreases taskMap.Keys - visited
  {
    hide IsPath;
    hide BoundsLengths;
    if taskId in visited { return [], visited; }
    ghost var g := ExplicitGraph(taskMap);
    seen := visited + {taskId};
    PathFromPrefix([], taskId, visited, g);
    assert [] + [taskId] == [taskId];
    if taskId !in taskMap || taskMap[taskId].dependencies == [] {
      ExtendLengthBound(0, taskId, visited, g);
      return [taskId], seen;
    }
    var deps := taskMap[taskId].dependencies;
    var maxPath := [];
    for i := 0 to |deps|
      invariant maxPath != [] ==> Last(maxPath) in deps && IsPath(maxPath, Last(maxPath), seen, g)
      invariant forall k :: 0 <= k < i ==> BoundsLengths(|maxPath|, deps[k], seen, g)
    {
      var depPath, _ := DfsLongestPath(deps[i], taskMap, seen);
      PathEnd(depPath, deps[i], seen, g);
      var max := if |depPath| > |maxPath| then depPath else maxPath;
      if deps[i] in seen {
        VisitedLengthBound(|max|, deps[i], seen, g);
      } else {
        RaiseLengthBound(|depPath|, |max|, deps[i], seen, g);
      }
      forall k | 0 <= k < i ensures BoundsLengths(|max|, deps[k], seen, g) {
        RaiseLengthBound(|maxPath|, |max|, deps[k], seen, g);
      }
      maxPath := max;
    }
    ExtendLengthBound(|maxPath|, taskId, visited, g);
    PathFromPrefix(maxPath, taskId, visited, g);
    path := maxPath + [taskId];
  }

  function StartTasks(tasks: seq<Task>): seq<Task> {
    Filter(tasks, (t: Task) => t.dependencies == [])
  }

  /** The first task that depends on nothing; failing that, the first task. */
  function StartTask(tasks: seq<Task>): Task
    requires tasks != []
  {
    if StartTasks(tasks) == [] then tasks[0] else StartTasks(tasks)[0]
  }

  lemma {:induction false} MapOfDistinct(tasks: seq<Task>, t: Task)
    requires DistinctIds(tasks) && t in tasks
    ensures t.id in TaskMap(tasks) && TaskMap(tasks)[t.id] == t
  {
    TaskMapKeys(tasks);
    var found := TaskMap(tasks)[t.id];
    var i :| 0 <= i < |tasks| && tasks[i] == t;
    var j :| 0 <= j < |tasks| && tasks[j] == found;
  }

  /** Nothing leads to a task without dependencies. */
  lemma {:induction false} PathToStart(path: seq<Id>, t: Task, visited: set<Id>, taskMap: map<Id, Task>)
    requires t.id in taskMap && taskMap[t.id] == t && t.dependencies == []
    requires IsPath(path, t.id, visited, ExplicitGraph(taskMap))
    ensures path == [t.id]
  {
    PathUnfolds(path, t.id, visited, ExplicitGraph(taskMap));
  }

  function IdsOf(tasks: seq<Task>): set<Id> {
    set t | t in tasks :: t.id
  }

  /** No path that avoids the earlier starts and leads to start j is longer, or as long if j comes before k. */
  ghost predicate BoundsStart(path: seq<Id>, k: nat, starts: seq<Task>, j: nat, g: Graph)
    requires path != [] && j < |starts|
  {
    BoundsLengths(if j < k then |path| - 1 else |path|, starts[j].id, IdsOf(starts[..j]), g)
  }

  /** A path to start k that avoids the earlier starts, longer than any to those and as long as any to the first n ones. */
  ghost predicate IsFirstLongest(path: seq<Id>, k: nat, n: nat, starts: seq<Task>, g: Graph) {
    && k < n <= |starts| && path != []
    && IsPath(path, starts[k].id, IdsOf(starts[..k]), g)
    && forall j :: 0 <= j < n ==> BoundsStart(path, k, starts, j, g)
  }

  /** The first longest among the paths to the start tasks, each of which avoids the earlier start tasks. */
  ghost predicate IsTimelinePath(path: seq<Id>, tasks: seq<Task>)
    requires tasks != []
  {
    var starts := StartTasks(tasks);
    if starts == [] then path == [tasks[0].id]
    else exists k :: IsFirstLongest(path, k, |starts|, starts, ExplicitGraph(TaskMap(tasks)))
  }

  lemma {:induction false} NextStart(maxPath: seq<Id>, k: nat, path: seq<Id>, i: nat, starts: seq<Task>, g: Graph)
    returns (k': nat)
    requires i < |starts|
    requires if i == 0 then maxPath == [] else IsFirstLongest(maxPath, k, i, starts, g)
    requires if starts[i].id in IdsOf(starts[..i]) then path == []
             else IsLongestPath(path, starts[i].id, IdsOf(starts[..i]), g)
    ensures IsFirstLongest(if |path| > |maxPath| then path else maxPath, k', i + 1, starts, g)
  {
    hide BoundsLengths;
    hide IdsOf;
    if starts[i].id in IdsOf(starts[..i]) {
      NoEarlierStart(starts, i);
      VisitedLengthBound(|maxPath|, starts[i].id, IdsOf(starts[..i]), g);
    } else {
      PathIsNotEmpty(path, starts[i].id, IdsOf(starts[..i]), g);
    }
    hide IsPath;
    if |path| > |maxPath| {
      k' := i;
      forall j | 0 <= j < i ensures BoundsStart(path, k', starts, j, g) {
        assert BoundsStart(maxPath, k, starts, j, g);
        RaiseLengthBound(if j < k then |maxPath| - 1 else |maxPath|, |path| - 1, starts[j].id, IdsOf(starts[..j]), g);
      }
    } else {
      k' := k;
      if starts[i].id !in IdsOf(starts[..i]) {
        RaiseLengthBound(|path|, |maxPath|, starts[i].id, IdsOf(starts[..i]), g);
      }
    }
  }

  lemma {:induction false} NoEarlierStart(starts: seq<Task>, i: nat)
    requires i < |starts| && starts[i].id in IdsOf(starts[..i])
    ensures i > 0
  {
  }

  lemma {:induction false} NextIds(starts: seq<Task>, i: nat)
    requires i < |starts|
    ensures IdsOf(starts[..i + 1]) == IdsOf(starts[..i]) + {starts[i].id}
  {
    assert starts[..i + 1] == starts[..i] + [starts[i]];
  }

  /** What the source calls the longest path through the dependencies. */
  method CriticalPathForPhase(tasks: seq<Task>) returns (maxPath: seq<Id>)
    ensures tasks == [] ==> maxPath == []
    ensures tasks != [] ==> IsTimelinePath(maxPath, tasks)
  {
    hide IsPath;
    hide BoundsLengths;
    hide IsFirstLongest;
    hide IdsOf;
    if |tasks| == 0 { return []; }
    var taskMap := BuildTaskMap(tasks);
    var visited: set<Id> := {};
    var startTasks := StartTasks(tasks);
    if |startTasks| == 0 { return [tasks[0].id]; }
    maxPath := [];
    ghost var k := 0;
    NoIds();
    assert startTasks[..0] == [];
    for i := 0 to |startTasks|
      invariant visited == IdsOf(startTasks[..i])
      invariant if i == 0 then maxPath == [] else IsFirstLongest(maxPath, k, i, startTasks, ExplicitGraph(taskMap))
    {
      var path, seen := DfsLongestPath(startTasks[i].id, taskMap, visited);
      k := NextStart(maxPath, k, path, i, startTasks, ExplicitGraph(taskMap));
      NextIds(startTasks, i);
      visited := seen;
      if |path| > |maxPath| {
        maxPath := path;
      }
    }
  }

  lemma {:induction false} NoIds()
    ensures IdsOf([]) == {}
  {
  }

  /** With distinct ids that path is one task, whatever the dependencies. */
  lemma {:induction false} TimelinePathIsOneTask(tasks: seq<Task>, path: seq<Id>)
    requires tasks != [] && DistinctIds(tasks)
    ensures IsTimelinePath(path, tasks) <==> path == [StartTask(tasks).id]
  {
    var starts, taskMap := StartTasks(tasks), TaskMap(tasks);
    var g := ExplicitGraph(taskMap);
    if starts != [] {
      forall t | t in starts ensures t.id in taskMap && taskMap[t.id] == t {
        MapOfDistinct(tasks, t);
      }
      OneTaskIsFirstLongest(starts, taskMap);
      hide *;
      if k: nat :| IsFirstLongest(path, k, |starts|, starts, g) {
        FirstLongestOfStarts(path, k, starts, taskMap);
      }
    }
  }

  lemma {:induction false} FirstLongestOfStarts(path: seq<Id>, k: nat, starts: seq<Task>, taskMap: map<Id, Task>)
    requires forall t :: t in starts ==> t.dependencies == [] && t.id in taskMap && taskMap[t.id] == t
    requires IsFirstLongest(path, k, |starts|, starts, ExplicitGraph(taskMap))
    ensures path == [starts[0].id]
  {
    var g := ExplicitGraph(taskMap);
    assert starts[k] in starts;
    PathToStart(path, starts[k], IdsOf(starts[..k]), taskMap);
    NoIds();
    assert starts[..0] == [];
    PathFromPrefix([], starts[0].id, {}, g);
    assert [] + [starts[0].id] == [starts[0].id];
    hide IsPath;
    assert BoundsStart(path, k, starts, 0, g);
  }

  lemma {:induction false} OneTaskIsFirstLongest(starts: seq<Task>, taskMap: map<Id, Task>)
    requires starts != [] && forall t :: t in starts ==> t.dependencies == [] && t.id in taskMap && taskMap[t.id] == t
    ensures IsFirstLongest([starts[0].id], 0, |starts|, starts, ExplicitGraph(taskMap))
  {
    var g := ExplicitGraph(taskMap);
    NoIds();
    assert starts[..0] == [];
    PathFromPrefix([], starts[0].id, {}, g);
    assert [] + [starts[0].id] == [starts[0].id];
    forall j | 0 <= j < |starts| ensures BoundsStart([starts[0].id], 0, starts, j, g) {
      assert starts[j] in starts;
      forall path | IsPath(path, starts[j].id, IdsOf(starts[..j]), g) ensures |path| <= 1 {
        PathToStart(path, starts[j], IdsOf(starts[..j]), taskMap);
      }
    }
  }

  /** The days of the first task with that id, 0 if there is none. */
  function DaysOfFirst(tasks: seq<Task>, id: Id): real {
    var k := IndexOfId(tasks, id);
    if k < 0 then 0.0 else tasks[k].estimatedDays
  }

  function SumAlong(path: seq<Id>, tasks: seq<Task>): real {
    if path == [] then 0.0 else SumAlong(Init(path), tasks) + DaysOfFirst(tasks, Last(path))
  }

  method CalculateTimelinePhaseDuration(tasks: seq<Task>) returns (duration: real)
    ensures tasks == [] ==> duration == 0.0
    ensures tasks != [] ==> exists path :: IsTimelinePath(path, tasks) && duration == SumAlong(path, tasks)
    ensures tasks != [] && DistinctIds(tasks) ==> duration == StartTask(tasks).estimatedDays
  {
    hide IsTimelinePath;
    hide StartTask;
    if |tasks| == 0 { return 0.0; }
    var criticalPath := CriticalPathForPhase(tasks);
    duration := SumAlong(criticalPath, tasks);
    if DistinctIds(tasks) {
      TimelinePathIsOneTask(tasks, criticalPath);
      StartIsTask(tasks);
      FirstOfDistinct(tasks, StartTask(tasks));
      assert Init(criticalPath) == [] && Last(criticalPath) == StartTask(tasks).id;
      assert SumAlong(Init(criticalPath), tasks) == 0.0;
    }
  }

  lemma {:induction false} StartIsTask(tasks: seq<Task>)
    requires tasks != []
    ensures StartTask(tasks) in tasks
  {
    assert StartTasks(tasks) != [] ==> StartTasks(tasks)[0] in StartTasks(tasks);
  }

  lemma {:induction false} FirstOfDistinct(tasks: seq<Task>, t: Task)
    requires DistinctIds(tasks) && t in tasks
    ensures IndexOfId(tasks, t.id) >= 0 && tasks[IndexOfId(tasks, t.id)] == t
  {
    var i :| 0 <= i < |tasks| && tasks[i] == t;
    hide IndexOfId;
  }

  /** The timeline never gives a phase more days than the work breakdown structure does. */
  lemma {:induction false} TimelineIsWithinPlan(tasks: seq<Task>, d: real)
    requires tasks != [] && DistinctIds(tasks)
    requires IsLongestTotal(d, tasks, InferredGraph(tasks))
    ensures StartTask(tasks).estimatedDays <= d <= Ceil(d) as real
  {
    var t, g := StartTask(tasks), InferredGraph(tasks);
    assert t in tasks;
    MapOfDistinct(tasks, t);
    SingletonAttained(t.id, {}, g);
  }

  /** What decides whether the first task is all that a phase takes: it lasts whole days, and no chain of tasks lasts longer. */
  predicate FirstTaskIsAll(tasks: seq<Task>)
    requires tasks != []
  {
    var days := tasks[0].estimatedDays;
    && days.Floor as real == days
    && SumDays(SecurityTasks(tasks)) <= days
    && DaysThroughFirstCritical(SecurityTasks(tasks)) + MaxDays(TestingTasks(tasks)) <= days
    && MaxDays(OtherTasks(tasks)) <= days
  }

  /** Without explicit dependencies the two calculators agree on a phase exactly if its first task is all that it takes. */
  lemma {:induction false} TimelineEqualsPlanIff(tasks: seq<Task>, duration: int)
    requires tasks != [] && Plain(tasks) && IsPhaseDuration(duration, tasks)
    ensures StartTask(tasks).estimatedDays == duration as real <==> FirstTaskIsAll(tasks)
  {
    hide *;
    var days, longest := tasks[0].estimatedDays, ClosedForm(tasks);
    StartOfPlain(tasks);
    PhaseDurationIsClosedForm(duration, tasks);
    PhaseDurationInClosedForm(tasks, longest);
    PlainIsDistinct(tasks);
    TimelineIsWithinPlan(tasks, longest);
    RoundedUpIffWhole(days, longest);
    ClosedFormWithin(tasks);
  }

  lemma {:induction false} PlainIsDistinct(tasks: seq<Task>)
    requires Plain(tasks)
    ensures DistinctIds(tasks)
  {
  }

  lemma {:induction false} RoundedUpIffWhole(days: real, longest: real)
    requires days <= longest
    ensures days == Ceil(longest) as real <==> days.Floor as real == days && longest <= days
  {
    hide *;
    CeilIff(longest, Ceil(longest));
    WholeIsOwnCeiling(days, longest, Ceil(longest));
  }

  lemma {:induction false} WholeIsOwnCeiling(days: real, longest: real, c: int)
    requires days <= longest <= c as real < longest + 1.0
    ensures days == c as real <==> days.Floor as real == days && longest <= days
  {
    var k := days.Floor;
    if k as real == days && longest <= days {
      assert k <= c < k + 1;
    }
  }

  lemma {:induction false} ClosedFormWithin(tasks: seq<Task>)
    requires tasks != []
    ensures var days := tasks[0].estimatedDays;
            FirstTaskIsAll(tasks) <==> days.Floor as real == days && ClosedForm(tasks) <= days
  {
  }

  lemma {:induction false} StartOfPlain(tasks: seq<Task>)
    requires tasks != [] && Plain(tasks)
    ensures StartTask(tasks) == tasks[0]
  {
    AllPass(tasks, (t: Task) => t.dependencies == []);
  }

  /** Two Security tasks without explicit dependencies: the plan does one after the other, the timeline counts one. */
  lemma {:induction false} TimelineMissesSecurityOrder(first: Task, second: Task, duration: int)
    requires Plain([first, second]) && first.category == second.category == "Security" && second.estimatedDays > 0.0
    requires IsPhaseDuration(duration, [first, second])
    ensures StartTask([first, second]).estimatedDays < duration as real
  {
    var tasks := [first, second];
    TimelineEqualsPlanIff(tasks, duration);
    AllPass(tasks, (t: Task) => t.category == "Security");
    assert Init(tasks) == [first] && Init([first]) == [];
    assert SumDays([first]) == 0.0 + first.estimatedDays;
    assert SumDays(tasks) == first.estimatedDays + second.estimatedDays;
    var d :| IsLongestTotal(d, tasks, InferredGraph(tasks)) && duration == Ceil(d);
    TimelineIsWithinPlan(tasks, d);
    StartOfPlain(tasks);
  }

  /** The timeline's one-task path is a longest one exactly when no task depends on another. */
  lemma {:induction false} TimelinePathIsLongestIff(tasks: seq<Task>)
    requires tasks != [] && DistinctIds(tasks)
    ensures (forall t :: t in tasks ==> BoundsLengths(1, t.id, {}, ExplicitGraph(TaskMap(tasks))))
            <==> forall t, dep :: t in tasks && dep in t.dependencies ==> dep == t.id
  {
    var g := ExplicitGraph(TaskMap(tasks));
    forall t | t in tasks
      ensures BoundsLengths(1, t.id, {}, g) <==> forall dep :: dep in t.dependencies ==> dep == t.id
    {
      MapOfDistinct(tasks, t);
      OneTaskPathIsLongestIff(t, g);
    }
  }

  lemma {:induction false} OneTaskPathIsLongestIff(t: Task, g: Graph)
    requires t.id in g.tasks && g.Deps(t.id) == t.dependencies
    ensures BoundsLengths(1, t.id, {}, g) <==> forall dep :: dep in t.dependencies ==> dep == t.id
  {
    hide IsPath;
    if dep :| dep in t.dependencies && dep != t.id {
      PathFromPrefix([], dep, {} + {t.id}, g);
      PathFromPrefix([] + [dep], t.id, {}, g);
      assert |[] + [dep] + [t.id]| == 2;
    } else {
      forall path | IsPath(path, t.id, {}, g) ensures |path| <= 1 {
        DependsOnItselfOnly(path, t.id, g);
      }
    }
  }

  lemma {:induction false} DependsOnItselfOnly(path: seq<Id>, id: Id, g: Graph)
    requires forall dep :: dep in g.Deps(id) ==> dep == id
    requires IsPath(path, id, {}, g)
    ensures |path| <= 1
  {
    PathUnfolds(path, id, {}, g);
  }

  lemma {:induction false} DependencyIsInferred(tasks: seq<Task>, t: Task, dep: Id)
    requires DistinctIds(tasks) && t in tasks && dep in t.dependencies
    ensures t.id in InferredGraph(tasks).tasks && dep in InferredGraph(tasks).Deps(t.id)
  {
    MapOfDistinct(tasks, t);
  }

  lemma {:induction false} StartOfPair(first: Task, second: Task)
    requires first.dependencies == [] && second.dependencies != []
    ensures StartTask([first, second]) == first
  {
    FilterAppends([first], second, (t: Task) => t.dependencies == []);
    FilterAppends([], first, (t: Task) => t.dependencies == []);
    assert [] + [first] == [first] && [first] + [second] == [first, second];
  }

  /** Two tasks of which one depends on the other: the timeline's path is one task, the plan's is longer. */
  lemma {:induction false} TimelineMissesDependency(first: Task, second: Task, path: seq<Id>)
    requires first.id != second.id && first.dependencies == [] && second.dependencies == [first.id]
    requires IsLongestOfPhase(path, [first, second])
    ensures DistinctIds([first, second]) && StartTask([first, second]) == first
    ensures |path| > |[StartTask([first, second]).id]|
  {
    hide IsPath;
    hide InferredGraph;
    hide StartTask;
    var tasks := [first, second];
    var g := InferredGraph(tasks);
    StartOfPair(first, second);
    DependencyIsInferred(tasks, second, first.id);
    PathFromPrefix([], first.id, {} + {second.id}, g);
    PathFromPrefix([] + [first.id], second.id, {}, g);
    assert second in tasks && |[] + [first.id] + [second.id]| == 2;
  }
}
