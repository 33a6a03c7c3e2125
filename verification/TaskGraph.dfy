/**
 Longest dependency paths (src/analysis/wbsGenerator.ts and src/analysis/timelineCalculator.ts).

 The planner walks the dependency graph with an exhaustive depth-first search whose visited set
 is copied at every branch.  The graph may be cyclic, may name unknown tasks and may list a
 dependency twice.
 */
module TaskGraph {
  import opened Sequences

  type Id = string

  datatype Priority = Critical | High | Medium | Low

  datatype Task = Task(id: Id, priority: Priority, category: string, estimatedDays: real, dependencies: seq<Id>)

  datatype Graph = Graph(tasks: map<Id, Task>, deps: map<Id, seq<Id>>)
  {
    function Deps(id: Id): seq<Id> {
      if id in deps then deps[id] else []
    }
  }

  // ---------- the reference: simple paths ----------

  /**
   A path is written as the planner prints it: every element is a dependency of the next one,
   and the last is the task asked about.  No id repeats, none was visited before, and all but
   the first are known tasks.
   */
  ghost predicate IsPath(path: seq<Id>, end: Id, visited: set<Id>, g: Graph) {
    && path != []
    && Last(path) == end
    && (forall i, j :: 0 <= i < j < |path| ==> path[i] != path[j])
    && (forall i :: 0 <= i < |path| ==> path[i] !in visited)
    && (forall i :: 0 < i < |path| ==> path[i] in g.tasks && path[i - 1] in g.Deps(path[i]))
  }

  /** A path all of whose elements are known tasks. */
  ghost predicate IsKnownPath(path: seq<Id>, end: Id, visited: set<Id>, g: Graph) {
    IsPath(path, end, visited, g) && path[0] in g.tasks
  }

  function Days(id: Id, g: Graph): real {
    if id in g.tasks then g.tasks[id].estimatedDays else 0.0
  }

  function TotalDays(path: seq<Id>, g: Graph): real {
    if path == [] then 0.0 else TotalDays(Init(path), g) + Days(Last(path), g)
  }

  lemma {:induction false} PathUnfolds(path: seq<Id>, end: Id, visited: set<Id>, g: Graph)
    requires path != []
    ensures IsPath(path, end, visited, g) <==>
            && Last(path) == end && end !in visited
            && (|path| == 1 || (&& end in g.tasks
                                && Last(Init(path)) in g.Deps(end)
                                && IsPath(Init(path), Last(Init(path)), visited + {end}, g)))
  {
    var init := Init(path);
    if |path| > 1 && Last(path) == end && IsPath(init, Last(init), visited + {end}, g) && end in g.tasks
       && end !in visited && Last(init) in g.Deps(end) {
      forall i | 0 <= i < |path| ensures path[i] !in visited {
        assert i < |init| ==> path[i] == init[i];
      }
      forall i, j | 0 <= i < j < |path| ensures path[i] != path[j] {
        assert path[i] == init[i];
        assert j < |init| ==> path[j] == init[j];
      }
      forall i | 0 < i < |path| ensures path[i] in g.tasks && path[i - 1] in g.Deps(path[i]) {
        assert i < |init| ==> path[i] == init[i];
        assert path[i - 1] == init[i - 1];
      }
    }
    if IsPath(path, end, visited, g) && |path| > 1 {
      assert forall i :: 0 <= i < |init| ==> init[i] == path[i];
    }
  }

  lemma {:induction false} PathFromPrefix(prefix: seq<Id>, end: Id, visited: set<Id>, g: Graph)
    requires end !in visited
    requires prefix != [] ==> end in g.tasks && Last(prefix) in g.Deps(end)
    requires prefix != [] ==> IsPath(prefix, Last(prefix), visited + {end}, g)
    ensures IsPath(prefix + [end], end, visited, g)
    ensures TotalDays(prefix + [end], g) == TotalDays(prefix, g) + Days(end, g)
  {
    var path := prefix + [end];
    assert Init(path) == prefix;
    hide IsPath;
    PathUnfolds(path, end, visited, g);
  }

  lemma {:induction false} PathIsNotVisited(path: seq<Id>, end: Id, visited: set<Id>, g: Graph)
    requires IsPath(path, end, visited, g)
    ensures end !in visited
  {
    assert path[|path| - 1] == end;
  }

  // ---------- duration including dependencies ----------

  /** No known path to `end` takes more than `d` days. */
  ghost predicate BoundsTotals(d: real, end: Id, visited: set<Id>, g: Graph) {
    forall path :: IsKnownPath(path, end, visited, g) ==> TotalDays(path, g) <= d
  }

  /** Some known path to `end` takes exactly `d` days. */
  ghost predicate AttainsTotal(d: real, end: Id, visited: set<Id>, g: Graph) {
    exists path :: IsKnownPath(path, end, visited, g) && TotalDays(path, g) == d
  }

  /** A search at a visited or unknown task contributes nothing. */
  lemma {:induction false} NothingToBound(end: Id, visited: set<Id>, g: Graph)
    requires end in visited || end !in g.tasks
    ensures forall path :: !IsKnownPath(path, end, visited, g)
  {
  }

  /** Extending a best path through a dependency. */
  lemma {:induction false} ExtendAttained(d: real, dep: Id, end: Id, visited: set<Id>, g: Graph)
    requires end !in visited && end in g.tasks && dep in g.Deps(end)
    requires AttainsTotal(d, dep, visited + {end}, g)
    ensures AttainsTotal(d + g.tasks[end].estimatedDays, end, visited, g)
  {
    var path :| IsKnownPath(path, dep, visited + {end}, g) && TotalDays(path, g) == d;
    PathFromPrefix(path, end, visited, g);
    assert IsKnownPath(path + [end], end, visited, g);
  }

  lemma {:induction false} SingletonAttained(end: Id, visited: set<Id>, g: Graph)
    requires end !in visited && end in g.tasks
    ensures AttainsTotal(g.tasks[end].estimatedDays, end, visited, g)
  {
    PathFromPrefix([], end, visited, g);
    assert IsKnownPath([] + [end], end, visited, g);
  }

  /** A bound over all dependencies gives a bound for the task. */
  lemma {:induction false} ExtendBound(d: real, end: Id, visited: set<Id>, g: Graph)
    requires end !in visited && end in g.tasks && d >= 0.0
    requires forall dep :: dep in g.Deps(end) ==> BoundsTotals(d, dep, visited + {end}, g)
    ensures BoundsTotals(d + g.tasks[end].estimatedDays, end, visited, g)
  {
    forall path | IsKnownPath(path, end, visited, g)
      ensures TotalDays(path, g) <= d + g.tasks[end].estimatedDays
    {
      PathUnfolds(path, end, visited, g);
      if |path| > 1 {
        hide IsPath;
        var init := Init(path);
        assert init[0] == path[0];
        assert BoundsTotals(d, Last(init), visited + {end}, g);
        assert IsKnownPath(init, Last(init), visited + {end}, g);
      } else {
        assert Init(path) == [];
      }
    }
  }

  /**
   On any graph the search returns the most days that a path to the task can take; for a
   visited or unknown task it returns 0.
   */
  method TaskDurationWithDeps(taskId: Id, g: Graph, visited: set<Id>) returns (d: real)
    ensures taskId in visited || taskId !in g.tasks ==> d == 0.0
    ensures taskId !in visited && taskId in g.tasks ==>
              BoundsTotals(d, taskId, visited, g) && AttainsTotal(d, taskId, visited, g)
    decreases g.tasks.Keys - visited
  {
    hide BoundsTotals;
    hide AttainsTotal;
    if taskId in visited { return 0.0; }
    var visited' := visited + {taskId};
    if taskId !in g.tasks { return 0.0; }
    var deps := g.Deps(taskId);
    var maxDepDuration := 0.0;
    var days := g.tasks[taskId].estimatedDays;
    SingletonAttained(taskId, visited, g);
    for i := 0 to |deps|
      invariant maxDepDuration >= 0.0
      invariant AttainsTotal(maxDepDuration + days, taskId, visited, g)
      invariant forall k :: 0 <= k < i ==> BoundsTotals(maxDepDuration, deps[k], visited', g)
    {
      var depDuration := TaskDurationWithDeps(deps[i], g, visited');
      var max := if maxDepDuration < depDuration then depDuration else maxDepDuration;
      if deps[i] in visited' || deps[i] !in g.tasks {
        EmptyBound(max, deps[i], visited', g);
      } else {
        RaiseBound(depDuration, max, deps[i], visited', g);
        ExtendAttained(depDuration, deps[i], taskId, visited, g);
      }
      forall k | 0 <= k < i ensures BoundsTotals(max, deps[k], visited', g) {
        RaiseBound(maxDepDuration, max, deps[k], visited', g);
      }
      maxDepDuration := max;
    }
    ExtendBound(maxDepDuration, taskId, visited, g);
    d := maxDepDuration + days;
  }

  lemma {:induction false} RaiseBound(d: real, e: real, end: Id, visited: set<Id>, g: Graph)
    requires BoundsTotals(d, end, visited, g) && d <= e
    ensures BoundsTotals(e, end, visited, g)
  {
  }

  lemma {:induction false} EmptyBound(d: real, end: Id, visited: set<Id>, g: Graph)
    requires end in visited || end !in g.tasks
    ensures BoundsTotals(d, end, visited, g)
  {
    NothingToBound(end, visited, g);
  }

  // ---------- longest path by number of tasks ----------

  /** No path to `end` has more than `n` elements. */
  ghost predicate BoundsLengths(n: nat, end: Id, visited: set<Id>, g: Graph) {
    forall path :: IsPath(path, end, visited, g) ==> |path| <= n
  }

  ghost predicate IsLongestPath(path: seq<Id>, end: Id, visited: set<Id>, g: Graph) {
    IsPath(path, end, visited, g) && BoundsLengths(|path|, end, visited, g)
  }

  lemma {:induction false} ExtendLengthBound(n: nat, end: Id, visited: set<Id>, g: Graph)
    requires end !in visited
    requires end in g.tasks ==> forall dep :: dep in g.Deps(end) ==> BoundsLengths(n, dep, visited + {end}, g)
    ensures BoundsLengths(if end in g.tasks then n + 1 else 1, end, visited, g)
  {
    forall path | IsPath(path, end, visited, g) ensures |path| <= if end in g.tasks then n + 1 else 1 {
      PathUnfolds(path, end, visited, g);
      if |path| > 1 {
        hide IsPath;
        assert BoundsLengths(n, Last(Init(path)), visited + {end}, g);
      }
    }
  }

  lemma {:induction false} VisitedLengthBound(n: nat, end: Id, visited: set<Id>, g: Graph)
    requires end in visited
    ensures BoundsLengths(n, end, visited, g)
  {
    forall path | IsPath(path, end, visited, g) ensures false {
      PathIsNotVisited(path, end, visited, g);
    }
  }

  lemma {:induction false} RaiseLengthBound(n: nat, m: nat, end: Id, visited: set<Id>, g: Graph)
    requires BoundsLengths(n, end, visited, g) && n <= m
    ensures BoundsLengths(m, end, visited, g)
  {
  }

  /** The generator's search: a longest path, or nothing for a visited task. */
  method FindLongestPath(taskId: Id, g: Graph, visited: set<Id>) returns (path: seq<Id>)
    ensures taskId in visited ==> path == []
    ensures taskId !in visited ==> IsLongestPath(path, taskId, visited, g)
    decreases g.tasks.Keys - visited
  {
    hide IsPath;
    hide BoundsLengths;
    if taskId in visited { return []; }
    var visited' := visited + {taskId};
    PathFromPrefix([], taskId, visited, g);
    assert [] + [taskId] == [taskId];
    if taskId !in g.tasks {
      ExtendLengthBound(0, taskId, visited, g);
      return [taskId];
    }
    var deps := g.Deps(taskId);
    if |deps| == 0 {
      ExtendLengthBound(0, taskId, visited, g);
      return [taskId];
    }
    var maxPath := [];
    for i := 0 to |deps|
      invariant maxPath != [] ==> Last(maxPath) in deps && IsPath(maxPath, Last(maxPath), visited', g)
      invariant forall k :: 0 <= k < i ==> BoundsLengths(|maxPath|, deps[k], visited', g)
    {
      var depPath := FindLongestPath(deps[i], g, visited');
      PathEnd(depPath, deps[i], visited', g);
      var max := if |depPath| > |maxPath| then depPath else maxPath;
      if deps[i] in visited' {
        VisitedLengthBound(|max|, deps[i], visited', g);
      } else {
        RaiseLengthBound(|depPath|, |max|, deps[i], visited', g);
      }
      forall k | 0 <= k < i ensures BoundsLengths(|max|, deps[k], visited', g) {
        RaiseLengthBound(|maxPath|, |max|, deps[k], visited', g);
      }
      maxPath := max;
    }
    ExtendLengthBound(|maxPath|, taskId, visited, g);
    PathFromPrefix(maxPath, taskId, visited, g);
    path := maxPath + [taskId];
  }

  lemma {:induction false} PathIsNotEmpty(path: seq<Id>, end: Id, visited: set<Id>, g: Graph)
    requires IsPath(path, end, visited, g)
    ensures path != []
  {
  }

  lemma {:induction false} PathEnd(path: seq<Id>, end: Id, visited: set<Id>, g: Graph)
    requires path != [] ==> IsPath(path, end, visited, g)
    ensures path != [] ==> Last(path) == end
  {
  }
}
