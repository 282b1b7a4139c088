/** Planner proposals: expansion into a full plan, the depth-first dependency
    search, and the check that overlapping writers are ordered. */
module Planning {
  import opened Prelude
  import opened Scopes
  import opened Frontier

  datatype ProposedAssignment = ProposedAssignment(
    id: string,
    goal: string,
    criterionIds: seq<string>,
    writeScopes: seq<string>,
    readScopes: seq<string>,
    dependencies: seq<string>)

  datatype Purpose = CriticalPath | UncertaintyReduction

  datatype AssignmentResources = AssignmentResources(
    concurrencySlots: u64,
    maxStorageBytes: u64,
    maxModelSpendCents: u64,
    maxPaidServiceSpendCents: u64)

  /** What a plan may ask of the Worker, by name; a planner's proposal asks nothing. */
  datatype WorkerRequirements = WorkerRequirements(requireConfigurations: seq<string>, excludeConfigurations: seq<string>)

  const NO_REQUIREMENTS := WorkerRequirements([], [])

  datatype PlannedAssignment = PlannedAssignment(
    id: string,
    goal: string,
    dependencies: seq<string>,
    criterionIds: seq<string>,
    purpose: Purpose,
    readScopes: seq<string>,
    writeScopes: seq<string>,
    resources: AssignmentResources,
    workerRequirements: WorkerRequirements,
    competition: Option<Competition>)

  type Plan = seq<PlannedAssignment>

  lemma DivisionBounds(n: nat, divisor: nat)
    requires divisor > 0
    ensures divisor * (n / divisor) <= n < divisor * (n / divisor + 1)
    ensures n / divisor >= 1 <==> divisor <= n
  {
  }

  /** The even share of the mandate's storage that each Assignment receives. */
  function StorageShare(count: nat, maxStorageBytes: u64): (share: u64)
    ensures share >= 1
    ensures count > 0 ==> maxStorageBytes < count * (share + 1)
    ensures count == 0 && maxStorageBytes >= 1 ==> share == maxStorageBytes
    ensures share > 1 ==> count * share <= maxStorageBytes
    ensures 0 < count <= maxStorageBytes ==> count * share <= maxStorageBytes
  {
    var divisor := if count < 1 then 1 else count;
    var share := maxStorageBytes / divisor;
    DivisionBounds(maxStorageBytes, divisor);
    if share < 1 then 1 else share
  }

  function CompletePlan(proposed: seq<ProposedAssignment>, maxStorageBytes: u64): (plan: Plan)
    ensures |plan| == |proposed|
    ensures forall i :: 0 <= i < |plan| ==>
      && plan[i].writeScopes == proposed[i].writeScopes && plan[i].id == proposed[i].id
      && plan[i].dependencies == proposed[i].dependencies && plan[i].competition == None
      && plan[i].goal == proposed[i].goal && plan[i].criterionIds == proposed[i].criterionIds
      && plan[i].readScopes == proposed[i].readScopes
      && plan[i].purpose == CriticalPath && plan[i].workerRequirements == NO_REQUIREMENTS
      && plan[i].resources == AssignmentResources(1, StorageShare(|proposed|, maxStorageBytes), 0, 0)
  {
    var storage := StorageShare(|proposed|, maxStorageBytes);
    seq(|proposed|, i requires 0 <= i < |proposed| =>
      var assignment := proposed[i];
      PlannedAssignment(
        assignment.id, assignment.goal, assignment.dependencies, assignment.criterionIds, CriticalPath,
        assignment.readScopes, assignment.writeScopes, AssignmentResources(1, storage, 0, 0),
        NO_REQUIREMENTS, None))
  }

  // ----- the dependency graph

  /** Declared dependencies by id; an id may be missing, repeated or part of a cycle. */
  type Graph = map<string, seq<string>>

  /** Collecting into a map keeps the last Assignment of a repeated id. */
  function DependencyGraph(plan: Plan): Graph {
    if plan == [] then map[]
    else
      var last := plan[|plan| - 1];
      DependencyGraph(plan[..|plan| - 1])[last.id := last.dependencies]
  }

  function Successors(graph: Graph, id: string): seq<string> {
    if id in graph then graph[id] else []
  }

  ghost predicate IsPath(graph: Graph, path: seq<string>) {
    && |path| >= 2
    && forall i :: 0 <= i < |path| - 1 ==> path[i + 1] in Successors(graph, path[i])
  }

  /** A non-empty dependency path leads from one id to the other. */
  ghost predicate Reaches(graph: Graph, from: string, target: string) {
    exists path :: IsPath(graph, path) && path[0] == from && path[|path| - 1] == target
  }

  lemma EdgeReaches(graph: Graph, from: string, next: string)
    requires next in Successors(graph, from)
    ensures Reaches(graph, from, next)
  {
    assert IsPath(graph, [from, next]);
  }

  lemma EdgeExtends(graph: Graph, from: string, middle: string, next: string)
    requires from == middle || Reaches(graph, from, middle)
    requires next in Successors(graph, middle)
    ensures Reaches(graph, from, next)
  {
    if from == middle {
      EdgeReaches(graph, from, next);
    } else {
      var path :| IsPath(graph, path) && path[0] == from && path[|path| - 1] == middle;
      assert IsPath(graph, path + [next]);
    }
  }

  /** A set closed under dependencies and clear of the target keeps the target out of reach. */
  lemma {:induction false} ClosedSetBlocks(graph: Graph, closed: set<string>, target: string, path: seq<string>, i: nat)
    requires forall id :: id in closed ==> Expanded(graph, id, closed, target)
    requires IsPath(graph, path) && path[0] in closed && i < |path|
    ensures path[i] in closed
    ensures i > 0 ==> path[i] != target
  {
    if i > 0 {
      ClosedSetBlocks(graph, closed, target, path, i - 1);
      assert Expanded(graph, path[i - 1], closed, target);
    }
  }

  ghost predicate Expanded(graph: Graph, id: string, seen: set<string>, target: string) {
    forall next :: next in Successors(graph, id) ==> next in seen && next != target
  }

  lemma SearchExhausted(graph: Graph, from: string, target: string, seen: set<string>)
    requires forall id :: id == from || id in seen ==> Expanded(graph, id, seen, target)
    ensures !Reaches(graph, from, target)
  {
    if path :| IsPath(graph, path) && path[0] == from && path[|path| - 1] == target {
      var closed := seen + {from};
      forall id | id in closed ensures Expanded(graph, id, closed, target) {
        assert Expanded(graph, id, seen, target);
      }
      ClosedSetBlocks(graph, closed, target, path, |path| - 1);
    }
  }

  /** What the search has established about the ids it has met. */
  ghost predicate AllReached(graph: Graph, from: string, seen: set<string>) {
    seen <= AllSuccessors(graph) && forall id :: id in seen ==> Reaches(graph, from, id)
  }

  ghost function AllSuccessors(graph: Graph): (ids: set<string>)
    ensures forall id, next :: next in Successors(graph, id) ==> next in ids
  {
    set id, next | id in graph && next in graph[id] :: next
  }

  lemma SubsetIsSmaller(a: set<string>, b: set<string>)
    requires a <= b
    ensures |a| <= |b|
    ensures a != b ==> |a| < |b|
  {
    assert b == a + (b - a);
  }

  ghost predicate Stacked(stack: seq<string>, from: string, seen: set<string>) {
    forall id :: id in stack ==> id == from || id in seen
  }

  /** Whatever was met still waits on the stack or has been popped. */
  ghost predicate Accounted(stack: seq<string>, from: string, seen: set<string>, popped: set<string>) {
    forall id :: id == from || id in seen ==> id in stack || id in popped
  }

  ghost predicate AllExpanded(graph: Graph, popped: set<string>, seen: set<string>, target: string) {
    forall id :: id in popped ==> Expanded(graph, id, seen, target)
  }

  lemma PushKeeps(graph: Graph, from: string, seen: set<string>, stack: seq<string>, popped: set<string>, next: string)
    requires Stacked(stack, from, seen) && Accounted(stack, from, seen, popped) && AllReached(graph, from, seen)
    requires Reaches(graph, from, next) && next in AllSuccessors(graph)
    ensures Stacked(stack + [next], from, seen + {next}) && Accounted(stack + [next], from, seen + {next}, popped)
    ensures AllReached(graph, from, seen + {next})
  {
  }

  lemma PopAccounts(stack: seq<string>, from: string, seen: set<string>, popped: set<string>)
    requires stack != [] && Stacked(stack, from, seen) && Accounted(stack, from, seen, popped)
    ensures var last := |stack| - 1;
      Stacked(stack[..last], from, seen) && Accounted(stack[..last], from, seen, popped + {stack[last]})
  {
    assert stack == stack[..|stack| - 1] + [stack[|stack| - 1]];
  }

  /** The first `k` dependencies have been met, and none is the target. */
  ghost predicate Visited(nexts: seq<string>, k: nat, seen: set<string>, target: string)
    requires k <= |nexts|
  {
    forall i :: 0 <= i < k ==> nexts[i] in seen && nexts[i] != target
  }

  lemma PopKeeps(graph: Graph, current: string, popped: set<string>, before: set<string>, seen: set<string>, target: string)
    requires AllExpanded(graph, popped, before, target) && before <= seen
    requires Visited(Successors(graph, current), |Successors(graph, current)|, seen, target)
    ensures AllExpanded(graph, popped + {current}, seen, target)
  {
    assert Expanded(graph, current, seen, target);
    forall id | id in popped ensures Expanded(graph, id, seen, target) {
      assert Expanded(graph, id, before, target);
    }
  }

  /** The depth-first search: terminates on every graph and finds exactly reachability. */
  method DependsOn(graph: Graph, from: string, target: string) returns (found: bool)
    ensures found <==> Reaches(graph, from, target)
  {
    var seen: set<string> := {};
    var stack := [from];
    ghost var popped: set<string> := {};
    while stack != []
      invariant Stacked(stack, from, seen) && Accounted(stack, from, seen, popped)
      invariant AllReached(graph, from, seen) && AllExpanded(graph, popped, seen, target)
      decreases |AllSuccessors(graph)| - |seen|, |stack|
    {
      PopAccounts(stack, from, seen, popped);
      var current := stack[|stack| - 1];
      stack := stack[..|stack| - 1];
      var nexts := Successors(graph, current);
      ghost var seenBefore, stackBefore, expanding := seen, stack, popped + {current};
      for k := 0 to |nexts|
        invariant seenBefore <= seen
        invariant seen == seenBefore ==> stack == stackBefore
        invariant Stacked(stack, from, seen) && Accounted(stack, from, seen, expanding) && AllReached(graph, from, seen)
        invariant Visited(nexts, k, seen, target)
      {
        var next := nexts[k];
        EdgeExtends(graph, from, current, next);
        if next == target {
          return true;
        }
        if next !in seen {
          PushKeeps(graph, from, seen, stack, expanding, next);
          seen := seen + {next};
          stack := stack + [next];
        }
      }
      PopKeeps(graph, current, popped, seenBefore, seen, target);
      popped := expanding;
      SubsetIsSmaller(seenBefore, seen);
      SubsetIsSmaller(seen, AllSuccessors(graph));
    }
    SearchExhausted(graph, from, target, seen);
    return false;
  }

  // ----- the ordering check

  predicate ScopeMeetsAny(scope: string, others: seq<string>) {
    exists j :: 0 <= j < |others| && ScopesOverlap([scope], [others[j]])
  }

  lemma OverlapByScope(left: seq<string>, right: seq<string>)
    ensures ScopesOverlap(left, right) <==> exists i :: 0 <= i < |left| && ScopeMeetsAny(left[i], right)
  {
    if ScopesOverlap(left, right) {
      var i, j :| 0 <= i < |left| && 0 <= j < |right| &&
        (PathIsWithinScope(left[i], right[j]) || PathIsWithinScope(right[j], left[i]));
      assert [left[i]][0] == left[i] && [right[j]][0] == right[j];
      assert ScopesOverlap([left[i]], [right[j]]);
      assert ScopeMeetsAny(left[i], right);
    }
  }

  /** The first scope on the left that meets some scope on the right. */
  method FindOverlap(left: seq<string>, right: seq<string>) returns (scope: Option<string>)
    ensures scope.Some? <==> ScopesOverlap(left, right)
    ensures scope.Some? ==> scope.value in left && ScopeMeetsAny(scope.value, right)
  {
    OverlapByScope(left, right);
    for i := 0 to |left|
      invariant forall j :: 0 <= j < i ==> !ScopeMeetsAny(left[j], right)
    {
      if ScopeMeetsAny(left[i], right) {
        return Some(left[i]);
      }
    }
    return None;
  }

  datatype OrderCheck = Ordered | Unordered(left: nat, right: nat, scope: string)

  ghost predicate PairIsOrdered(plan: Plan, i: nat, j: nat)
    requires i < |plan| && j < |plan|
  {
    var graph := DependencyGraph(plan);
    ScopesOverlap(plan[i].writeScopes, plan[j].writeScopes) ==>
      Reaches(graph, plan[i].id, plan[j].id) || Reaches(graph, plan[j].id, plan[i].id)
  }

  /** The scope two Assignments both write although neither waits for the other, if any. */
  method UnorderedOverlap(plan: Plan, graph: Graph, i: nat, j: nat) returns (scope: Option<string>)
    requires i < j < |plan| && graph == DependencyGraph(plan)
    ensures scope.None? <==> PairIsOrdered(plan, i, j)
    ensures scope.Some? ==> scope.value in plan[i].writeScopes && ScopeMeetsAny(scope.value, plan[j].writeScopes)
  {
    var left, right := plan[i], plan[j];
    scope := FindOverlap(left.writeScopes, right.writeScopes);
    if scope.Some? {
      var ordered := DependsOn(graph, left.id, right.id);
      if !ordered {
        ordered := DependsOn(graph, right.id, left.id);
      }
      if ordered {
        scope := None;
      }
    }
  }

  ghost predicate RowIsOrdered(plan: Plan, i: nat, end: nat)
    requires i < |plan| && end <= |plan|
  {
    forall j :: i < j < end ==> PairIsOrdered(plan, i, j)
  }

  ghost predicate RowsAreOrdered(plan: Plan, end: nat)
    requires end <= |plan|
  {
    forall i :: 0 <= i < end ==> RowIsOrdered(plan, i, |plan|)
  }

  ghost predicate OverlapsAreOrdered(plan: Plan) {
    RowsAreOrdered(plan, |plan|)
  }

  /** Every pair before `(i, j)` is ordered, and `(i, j)` is not. */
  ghost predicate FirstUnordered(plan: Plan, i: nat, j: nat) {
    && i < j < |plan|
    && RowsAreOrdered(plan, i)
    && RowIsOrdered(plan, i, j)
    && !PairIsOrdered(plan, i, j)
  }

  lemma UnorderedPairRefutes(plan: Plan, i: nat, j: nat)
    requires i < j < |plan| && !PairIsOrdered(plan, i, j)
    ensures !OverlapsAreOrdered(plan)
  {
    assert !RowIsOrdered(plan, i, |plan|);
  }

  lemma RowGrows(plan: Plan, i: nat, j: nat)
    requires i < j < |plan| && RowIsOrdered(plan, i, j) && PairIsOrdered(plan, i, j)
    ensures RowIsOrdered(plan, i, j + 1)
  {
  }

  /** The inner loop: the first later Assignment that overlaps Assignment `i` without an order. */
  method FindUnordered(plan: Plan, graph: Graph, i: nat) returns (check: OrderCheck)
    requires i < |plan| && graph == DependencyGraph(plan)
    ensures check.Ordered? ==> RowIsOrdered(plan, i, |plan|)
    ensures check.Unordered? ==>
      && check.left == i < check.right < |plan|
      && RowIsOrdered(plan, i, check.right)
      && !PairIsOrdered(plan, i, check.right)
      && check.scope in plan[i].writeScopes
      && ScopeMeetsAny(check.scope, plan[check.right].writeScopes)
  {
    for j := i + 1 to |plan|
      invariant RowIsOrdered(plan, i, j)
    {
      var unordered := UnorderedOverlap(plan, graph, i, j);
      if unordered.Some? {
        return Unordered(i, j, unordered.value);
      }
      RowGrows(plan, i, j);
    }
    return Ordered;
  }

  /** Accepts exactly the plans whose overlapping writers are ordered, and
      otherwise names the first unordered pair and a scope that both write. */
  method EnsureOverlapsAreOrdered(plan: Plan) returns (check: OrderCheck)
    ensures check.Ordered? <==> OverlapsAreOrdered(plan)
    ensures check.Unordered? ==>
      && FirstUnordered(plan, check.left, check.right)
      && check.scope in plan[check.left].writeScopes
      && ScopeMeetsAny(check.scope, plan[check.right].writeScopes)
  {
    var graph := DependencyGraph(plan);
    for i := 0 to |plan|
      invariant RowsAreOrdered(plan, i)
    {
      check := FindUnordered(plan, graph, i);
      if check.Unordered? {
        UnorderedPairRefutes(plan, i, check.right);
        return;
      }
    }
    return Ordered;
  }
}
