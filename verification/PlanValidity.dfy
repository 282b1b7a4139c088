/** Valid dependency graphs: every dependency is another Assignment of the plan, and a
    depth-first search with two sets finds that no Assignment waits for itself. */
module PlanValidity {
  import opened Planning
  import opened PlanAdmission

  /** Every dependency is the id of some Assignment. */
  ghost predicate IsClosed(graph: Graph) {
    forall id, next :: next in Successors(graph, id) ==> next in graph
  }

  ghost predicate IsAcyclic(graph: Graph) {
    forall id :: !Reaches(graph, id, id)
  }

  // ----- paths, edge by edge

  lemma ReachesTransitively(graph: Graph, a: string, b: string, c: string)
    requires Reaches(graph, a, b) && Reaches(graph, b, c)
    ensures Reaches(graph, a, c)
  {
    var first :| IsPath(graph, first) && first[0] == a && first[|first| - 1] == b;
    var second :| IsPath(graph, second) && second[0] == b && second[|second| - 1] == c;
    JoinedPaths(graph, first, second);
  }

  lemma JoinedPaths(graph: Graph, first: seq<string>, second: seq<string>)
    requires IsPath(graph, first) && IsPath(graph, second) && first[|first| - 1] == second[0]
    ensures Reaches(graph, first[0], second[|second| - 1])
  {
    var path, n := first + second[1..], |first|;
    assert forall i :: 0 <= i < n ==> path[i] == first[i];
    assert forall i :: n <= i < |path| ==> path[i] == second[i - n + 1];
    forall i | 0 <= i < |path| - 1 ensures path[i + 1] in Successors(graph, path[i]) {
      if i >= n - 1 {
        assert path[i] == second[i - n + 1] && path[i + 1] == second[i - n + 2];
      }
    }
    assert IsPath(graph, path);
  }

  /** A path starts with an edge. */
  lemma FirstEdge(graph: Graph, from: string, target: string) returns (next: string)
    requires Reaches(graph, from, target)
    ensures next in Successors(graph, from) && (next == target || Reaches(graph, next, target))
  {
    var path :| IsPath(graph, path) && path[0] == from && path[|path| - 1] == target;
    next := path[1];
    if |path| > 2 {
      var later := path[1..];
      assert forall i :: 0 <= i < |later| ==> later[i] == path[i + 1];
      assert IsPath(graph, later);
    }
  }

  // ----- the search

  /** No cycle can be reached from here. */
  ghost predicate IsClear(graph: Graph, id: string) {
    forall met :: met == id || Reaches(graph, id, met) ==> !Reaches(graph, met, met)
  }

  ghost predicate AllClear(graph: Graph, ids: set<string>) {
    forall id :: id in ids ==> IsClear(graph, id)
  }

  lemma ClearPassesOn(graph: Graph, id: string, next: string)
    requires next in Successors(graph, id)
    ensures IsClear(graph, id) ==> IsClear(graph, next)
  {
    EdgeReaches(graph, id, next);
    forall met | met == next || Reaches(graph, next, met) ensures Reaches(graph, id, met) {
      if met != next {
        ReachesTransitively(graph, id, next, met);
      }
    }
  }

  lemma ClearByDependencies(graph: Graph, id: string, nexts: seq<string>)
    requires nexts == Successors(graph, id) && FirstAreClear(graph, nexts, |nexts|)
    ensures IsClear(graph, id)
  {
    forall met | met == id || Reaches(graph, id, met) ensures !Reaches(graph, met, met) {
      if Reaches(graph, id, met) {
        var next := FirstEdge(graph, id, met);
      }
    }
  }

  /** Everything on the way to this id leads to it. */
  ghost predicate LeadsTo(graph: Graph, visiting: set<string>, id: string) {
    forall earlier :: earlier in visiting ==> Reaches(graph, earlier, id)
  }

  lemma LeadsOn(graph: Graph, visiting: set<string>, id: string, next: string)
    requires LeadsTo(graph, visiting, id) && next in Successors(graph, id)
    ensures LeadsTo(graph, visiting + {id}, next)
  {
    forall earlier | earlier in visiting + {id} ensures Reaches(graph, earlier, next) {
      EdgeExtends(graph, earlier, id, next);
    }
  }

  lemma FewerLeft(all: set<string>, visiting: set<string>, id: string)
    requires id in all && id !in visiting
    ensures |all - (visiting + {id})| < |all - visiting|
  {
    SubsetIsSmaller(all - (visiting + {id}), all - visiting);
  }

  ghost predicate FirstAreClear(graph: Graph, nexts: seq<string>, k: nat)
    requires k <= |nexts|
  {
    forall i :: 0 <= i < k ==> IsClear(graph, nexts[i])
  }

  /** Visits an id on the way through `visiting`; what was found clear is not visited again.
      The answer is exact: no cycle can be reached from the id. */
  method Visit(graph: Graph, id: string, visiting: set<string>, visitedBefore: set<string>)
    returns (acyclic: bool, visited: set<string>)
    requires IsClosed(graph) && id in graph && LeadsTo(graph, visiting, id)
    requires AllClear(graph, visitedBefore)
    ensures acyclic <==> IsClear(graph, id)
    ensures visitedBefore <= visited && AllClear(graph, visited) && (acyclic ==> id in visited)
    decreases |graph.Keys - visiting|, 0
  {
    visited := visitedBefore;
    if id in visited {
      return true, visited;
    }
    if id in visiting {
      assert Reaches(graph, id, id);
      return false, visited;
    }
    FewerLeft(graph.Keys, visiting, id);
    acyclic, visited := VisitAll(graph, id, visiting, visited);
    if acyclic {
      visited := visited + {id};
    }
  }

  /** Visits the dependencies of an id until one leads to a cycle. */
  method VisitAll(graph: Graph, id: string, visiting: set<string>, visitedBefore: set<string>)
    returns (acyclic: bool, visited: set<string>)
    requires IsClosed(graph) && id in graph && LeadsTo(graph, visiting, id)
    requires AllClear(graph, visitedBefore)
    ensures acyclic <==> IsClear(graph, id)
    ensures visitedBefore <= visited && AllClear(graph, visited)
    decreases |graph.Keys - (visiting + {id})|, 1
  {
    visited := visitedBefore;
    var nexts := Successors(graph, id);
    for k := 0 to |nexts|
      invariant visitedBefore <= visited && AllClear(graph, visited) && FirstAreClear(graph, nexts, k)
    {
      var next := nexts[k];
      assert next in Successors(graph, id);
      LeadsOn(graph, visiting, id, next);
      ClearPassesOn(graph, id, next);
      acyclic, visited := Visit(graph, next, visiting + {id}, visited);
      if !acyclic {
        return;
      }
    }
    ClearByDependencies(graph, id, nexts);
    return true, visited;
  }

  lemma ClearMeansAcyclic(graph: Graph)
    requires AllClear(graph, graph.Keys)
    ensures IsAcyclic(graph)
  {
    forall id | Reaches(graph, id, id) ensures id in graph {
      var next := FirstEdge(graph, id, id);
    }
    assert forall id :: id in graph ==> IsClear(graph, id);
  }

  /** Visits every id, in whatever order the map yields them. */
  method EnsureAcyclic(plan: Plan) returns (ok: bool)
    requires IsClosed(DependencyGraph(plan))
    ensures ok <==> IsAcyclic(DependencyGraph(plan))
  {
    var graph := DependencyGraph(plan);
    var remaining, visited := graph.Keys, {};
    while remaining != {}
      invariant remaining <= graph.Keys && AllClear(graph, visited)
      invariant forall id :: id in graph && id !in remaining ==> IsClear(graph, id)
      decreases |remaining|
    {
      var id :| id in remaining;
      var acyclic;
      acyclic, visited := Visit(graph, id, {}, visited);
      if !acyclic {
        return false;
      }
      remaining := remaining - {id};
    }
    ClearMeansAcyclic(graph);
    return true;
  }

  // ----- dependencies by name

  ghost predicate HasId(plan: Plan, id: string) {
    exists k :: 0 <= k < |plan| && plan[k].id == id
  }

  predicate NamesOthers(assignment: PlannedAssignment, ids: set<string>) {
    forall d | d in assignment.dependencies :: d != assignment.id && d in ids
  }

  ghost predicate IsNamed(plan: Plan, assignment: PlannedAssignment) {
    forall d :: d in assignment.dependencies ==> d != assignment.id && HasId(plan, d)
  }

  /** Every dependency is the id of another Assignment. */
  ghost predicate DependenciesAreNamed(plan: Plan) {
    forall k :: 0 <= k < |plan| ==> IsNamed(plan, plan[k])
  }

  method ValidateDependencies(plan: Plan) returns (ok: bool)
    ensures ok <==> DependenciesAreNamed(plan)
  {
    var ids := set k | 0 <= k < |plan| :: plan[k].id;
    assert forall id :: id in ids <==> HasId(plan, id);
    for k := 0 to |plan|
      invariant forall i :: 0 <= i < k ==> IsNamed(plan, plan[i])
    {
      assert NamesOthers(plan[k], ids) <==> IsNamed(plan, plan[k]);
      if !NamesOthers(plan[k], ids) {
        return false;
      }
    }
    return true;
  }

  lemma {:induction false} GraphKeys(plan: Plan, id: string)
    ensures id in DependencyGraph(plan) <==> HasId(plan, id)
  {
    if plan != [] {
      var rest, last := plan[..|plan| - 1], plan[|plan| - 1];
      GraphKeys(rest, id);
      if k :| 0 <= k < |rest| && rest[k].id == id {
        assert plan[k].id == id;
      }
      if k :| 0 <= k < |plan| && plan[k].id == id {
        assert k < |rest| ==> rest[k].id == id;
      }
    }
  }

  lemma NamedIsClosed(plan: Plan)
    requires DependenciesAreNamed(plan)
    ensures IsClosed(DependencyGraph(plan))
  {
    var graph := DependencyGraph(plan);
    forall id, next | next in Successors(graph, id) ensures next in graph {
      GraphEdgesAreDeclared(plan, id, next);
      var k :| 0 <= k < |plan| && plan[k].id == id && next in plan[k].dependencies;
      assert IsNamed(plan, plan[k]);
      GraphKeys(plan, next);
    }
  }

  /** The two checks in the order in which they are made: the second relies on the first. */
  method ValidateGraph(plan: Plan) returns (ok: bool)
    ensures ok <==> DependenciesAreNamed(plan) && IsAcyclic(DependencyGraph(plan))
  {
    ok := ValidateDependencies(plan);
    if ok {
      NamedIsClosed(plan);
      ok := EnsureAcyclic(plan);
    }
  }

  ghost predicate WaitsForItself(plan: Plan, id: string) {
    DependsTransitively(plan, id, id)
  }

  /** Acyclic, in terms of what the plan declares: no Assignment waits for itself, directly
      or through others. */
  lemma AcyclicAsDeclared(plan: Plan)
    requires UniqueIds(plan)
    ensures IsAcyclic(DependencyGraph(plan)) <==> forall id :: !WaitsForItself(plan, id)
  {
    forall id ensures Reaches(DependencyGraph(plan), id, id) <==> WaitsForItself(plan, id) {
      if Reaches(DependencyGraph(plan), id, id) {
        ReachabilityIsDeclared(plan, id, id);
      }
      if WaitsForItself(plan, id) {
        DeclaredIsReachable(plan, id, id);
      }
    }
  }
}
