/** From a planner's proposal to the frontier: what acceptance of a plan
    guarantees when its Assignments are dispatched. */
module PlanAdmission {
  import opened Prelude
  import opened Scopes
  import opened Frontier
  import opened FrontierOptimality
  import opened Planning
  import opened Scheduling

  // ----- dependencies as the plan declares them

  ghost predicate Declares(plan: Plan, id: string, dependency: string) {
    exists k :: 0 <= k < |plan| && plan[k].id == id && dependency in plan[k].dependencies
  }

  ghost predicate DeclaredPath(plan: Plan, path: seq<string>) {
    && |path| >= 2
    && forall i :: 0 <= i < |path| - 1 ==> Declares(plan, path[i], path[i + 1])
  }

  ghost predicate DependsTransitively(plan: Plan, from: string, target: string) {
    exists path :: DeclaredPath(plan, path) && path[0] == from && path[|path| - 1] == target
  }

  /** The collected map has no edge that the plan does not declare. */
  lemma {:induction false} GraphEdgesAreDeclared(plan: Plan, id: string, next: string)
    requires next in Successors(DependencyGraph(plan), id)
    ensures Declares(plan, id, next)
  {
    var rest, last := plan[..|plan| - 1], plan[|plan| - 1];
    if last.id == id {
      assert plan[|plan| - 1].id == id && next in plan[|plan| - 1].dependencies;
    } else {
      GraphEdgesAreDeclared(rest, id, next);
      var k :| 0 <= k < |rest| && rest[k].id == id && next in rest[k].dependencies;
      assert plan[k] == rest[k];
    }
  }

  lemma ReachabilityIsDeclared(plan: Plan, from: string, target: string)
    requires Reaches(DependencyGraph(plan), from, target)
    ensures DependsTransitively(plan, from, target)
  {
    var graph := DependencyGraph(plan);
    var path :| IsPath(graph, path) && path[0] == from && path[|path| - 1] == target;
    forall i | 0 <= i < |path| - 1 ensures Declares(plan, path[i], path[i + 1]) {
      GraphEdgesAreDeclared(plan, path[i], path[i + 1]);
    }
    assert DeclaredPath(plan, path);
  }

  lemma {:induction false} GraphHoldsDependencies(plan: Plan, m: nat)
    requires UniqueIds(plan) && m < |plan|
    ensures Successors(DependencyGraph(plan), plan[m].id) == plan[m].dependencies
  {
    var rest, last := plan[..|plan| - 1], plan[|plan| - 1];
    if m < |plan| - 1 {
      assert rest[m] == plan[m];
      GraphHoldsDependencies(rest, m);
    }
  }

  lemma DeclaredIsReachable(plan: Plan, from: string, target: string)
    requires UniqueIds(plan) && DependsTransitively(plan, from, target)
    ensures Reaches(DependencyGraph(plan), from, target)
  {
    var path :| DeclaredPath(plan, path) && path[0] == from && path[|path| - 1] == target;
    forall i | 0 <= i < |path| - 1 ensures path[i + 1] in Successors(DependencyGraph(plan), path[i]) {
      assert Declares(plan, path[i], path[i + 1]);
      var m :| 0 <= m < |plan| && plan[m].id == path[i] && path[i + 1] in plan[m].dependencies;
      GraphHoldsDependencies(plan, m);
    }
    assert IsPath(DependencyGraph(plan), path);
  }

  ghost predicate SharingIsOrdered(plan: Plan, i: nat, j: nat)
    requires i < |plan| && j < |plan|
  {
    ShareAPath(plan[i].writeScopes, plan[j].writeScopes) ==>
      DependsTransitively(plan, plan[i].id, plan[j].id) || DependsTransitively(plan, plan[j].id, plan[i].id)
  }

  lemma PairIsOrderedAsDeclared(plan: Plan, i: nat, j: nat)
    requires UniqueIds(plan) && i < |plan| && j < |plan|
    ensures PairIsOrdered(plan, i, j) <==> SharingIsOrdered(plan, i, j)
  {
    var a, b := plan[i], plan[j];
    OverlapIsSharedPath(a.writeScopes, b.writeScopes);
    if Reaches(DependencyGraph(plan), a.id, b.id) {
      ReachabilityIsDeclared(plan, a.id, b.id);
    }
    if Reaches(DependencyGraph(plan), b.id, a.id) {
      ReachabilityIsDeclared(plan, b.id, a.id);
    }
    if DependsTransitively(plan, a.id, b.id) {
      DeclaredIsReachable(plan, a.id, b.id);
    }
    if DependsTransitively(plan, b.id, a.id) {
      DeclaredIsReachable(plan, b.id, a.id);
    }
  }

  /** A plan with unique ids is accepted exactly when any two Assignments that may write
      one path are ordered by a chain of declared dependencies. */
  lemma AcceptanceIsDeclared(plan: Plan)
    requires UniqueIds(plan)
    ensures OverlapsAreOrdered(plan) <==> forall i, j :: 0 <= i < j < |plan| ==> SharingIsOrdered(plan, i, j)
  {
    forall i, j | 0 <= i < j < |plan| ensures PairIsOrdered(plan, i, j) <==> SharingIsOrdered(plan, i, j) {
      PairIsOrderedAsDeclared(plan, i, j);
    }
    if OverlapsAreOrdered(plan) {
      forall i, j | 0 <= i < j < |plan| ensures SharingIsOrdered(plan, i, j) {
        assert RowIsOrdered(plan, i, |plan|) && PairIsOrdered(plan, i, j);
      }
    }
    if forall i, j :: 0 <= i < j < |plan| ==> SharingIsOrdered(plan, i, j) {
      forall i | 0 <= i < |plan| ensures RowIsOrdered(plan, i, |plan|) {
        forall j | i < j < |plan| ensures PairIsOrdered(plan, i, j) {
          assert SharingIsOrdered(plan, i, j);
        }
      }
    }
  }

  ghost predicate AreMembers(plan: Plan, members: seq<nat>) {
    forall i :: 0 <= i < |members| ==> members[i] < |plan|
  }

  /** Distinct Assignments of a plan none of which waits for another. */
  ghost predicate Antichain(plan: Plan, members: seq<nat>) {
    && AreMembers(plan, members)
    && (forall i, j :: 0 <= i < |members| && 0 <= j < |members| && i != j ==>
          members[i] != members[j] && !DependsTransitively(plan, plan[members[i]].id, plan[members[j]].id))
  }

  // ----- what runs or is ready is an antichain

  ghost predicate UniqueIds(plan: Plan) {
    forall i, j :: 0 <= i < j < |plan| ==> plan[i].id != plan[j].id
  }

  ghost predicate DependenciesDone(plan: Plan, done: set<string>, k: nat)
    requires k < |plan|
  {
    forall d :: d in plan[k].dependencies ==> d in done
  }

  /** Nothing is done before what it depends on. */
  ghost predicate DoneIsClosed(plan: Plan, done: set<string>) {
    forall k :: 0 <= k < |plan| && plan[k].id in done ==> DependenciesDone(plan, done, k)
  }

  lemma {:induction false} DependencyPathIsDone(plan: Plan, done: set<string>, k: nat, path: seq<string>, i: nat)
    requires UniqueIds(plan) && DoneIsClosed(plan, done) && DeclaredPath(plan, path)
    requires k < |plan| && plan[k].id == path[0] && DependenciesDone(plan, done, k)
    requires 0 < i < |path|
    ensures path[i] in done
  {
    assert Declares(plan, path[i - 1], path[i]);
    var m :| 0 <= m < |plan| && plan[m].id == path[i - 1] && path[i] in plan[m].dependencies;
    if i > 1 {
      DependencyPathIsDone(plan, done, k, path, i - 1);
    }
    assert DependenciesDone(plan, done, m);
  }

  /** Assignments that are not done but whose dependencies are form an antichain. */
  lemma ReadyWorkIsIndependent(plan: Plan, done: set<string>, members: seq<nat>)
    requires UniqueIds(plan) && DoneIsClosed(plan, done) && AreMembers(plan, members) && Distinct(members)
    requires forall i :: 0 <= i < |members| ==> DependenciesDone(plan, done, members[i]) && plan[members[i]].id !in done
    ensures Antichain(plan, members)
  {
    forall i, j | 0 <= i < |members| && 0 <= j < |members| && i != j
      ensures members[i] != members[j] && !DependsTransitively(plan, plan[members[i]].id, plan[members[j]].id)
    {
      if path :| DeclaredPath(plan, path) && path[0] == plan[members[i]].id && path[|path| - 1] == plan[members[j]].id {
        DependencyPathIsDone(plan, done, members[i], path, |path| - 1);
      }
    }
  }

  // ----- an accepted plan keeps antichains apart

  lemma AntichainMembersDoNotOverlap(plan: Plan, members: seq<nat>, i: nat, j: nat)
    requires OverlapsAreOrdered(plan) && Antichain(plan, members)
    requires i < |members| && j < |members| && i != j
    ensures !ScopesOverlap(plan[members[i]].writeScopes, plan[members[j]].writeScopes)
  {
    var a, b := members[i], members[j];
    var low, high := if a < b then a else b, if a < b then b else a;
    OverlapIsSymmetric(plan[a].writeScopes, plan[b].writeScopes);
    assert RowIsOrdered(plan, low, |plan|) && PairIsOrdered(plan, low, high);
    if ScopesOverlap(plan[a].writeScopes, plan[b].writeScopes) {
      if Reaches(DependencyGraph(plan), plan[a].id, plan[b].id) {
        ReachabilityIsDeclared(plan, plan[a].id, plan[b].id);
      } else {
        ReachabilityIsDeclared(plan, plan[b].id, plan[a].id);
      }
    }
  }

  // ----- dispatching members of a plan

  /** Host demand of an Assignment follows from its route, so it is an input here. */
  datatype Demand = Demand(cpuMillis: u64, memoryMib: u64)

  ghost function WorkFor(assignment: PlannedAssignment, demand: Demand): Task {
    Work(assignment.id, assignment.writeScopes, assignment.competition,
         Resources(assignment.resources.concurrencySlots, assignment.resources.maxStorageBytes,
                   demand.cpuMillis, demand.memoryMib))
  }

  ghost function WorksFor(plan: Plan, members: seq<nat>, demand: nat -> Demand): (works: seq<Task>)
    requires AreMembers(plan, members)
    ensures |works| == |members|
    ensures forall i :: 0 <= i < |works| ==> works[i] == WorkFor(plan[members[i]], demand(members[i]))
  {
    if members == [] then []
    else [WorkFor(plan[members[0]], demand(members[0]))] + WorksFor(plan, members[1..], demand)
  }

  lemma MembersDoNotConflict(plan: Plan, members: seq<nat>, demand: nat -> Demand, i: nat, j: nat)
    requires OverlapsAreOrdered(plan) && Antichain(plan, members)
    requires i < |members| && j < |members| && i != j
    ensures !Conflicts(Occupy(WorkFor(plan[members[i]], demand(members[i]))), Occupy(WorkFor(plan[members[j]], demand(members[j]))))
  {
    AntichainMembersDoNotOverlap(plan, members, i, j);
  }

  lemma NoConflictWithRunning(plan: Plan, running: seq<nat>, ready: seq<nat>, demand: nat -> Demand, k: nat)
    requires OverlapsAreOrdered(plan) && Antichain(plan, running + ready) && k < |ready|
    requires AreMembers(plan, running) && AreMembers(plan, ready)
    ensures !ConflictsWithAny(WorksFor(plan, ready, demand)[k], Occupied(WorksFor(plan, running, demand)))
  {
    var work, occupied := WorksFor(plan, ready, demand)[k], Occupied(WorksFor(plan, running, demand));
    var members := running + ready;
    assert members[|running| + k] == ready[k];
    forall j | 0 <= j < |occupied| ensures !Conflicts(Occupy(work), occupied[j]) {
      assert members[j] == running[j];
      MembersDoNotConflict(plan, members, demand, |running| + k, j);
    }
  }

  lemma AntichainSuffix(plan: Plan, front: seq<nat>, back: seq<nat>)
    requires Antichain(plan, front + back)
    ensures Antichain(plan, back)
  {
    var members := front + back;
    assert forall i :: 0 <= i < |back| ==> back[i] == members[|front| + i];
  }

  lemma NoConflictBelow(plan: Plan, ready: seq<nat>, demand: nat -> Demand, choice: seq<bool>, k: nat)
    requires OverlapsAreOrdered(plan) && Antichain(plan, ready) && k < |ready| == |choice|
    ensures !ConflictsBelow(WorksFor(plan, ready, demand), choice, k)
  {
    var works := WorksFor(plan, ready, demand);
    forall j | 0 <= j < k ensures !Conflicts(Occupy(works[k]), Occupy(works[j])) {
      MembersDoNotConflict(plan, ready, demand, k, j);
    }
  }

  /** While running and ready Assignments of an accepted plan are independent of
      each other, the frontier never holds one for a declared write overlap. */
  lemma AcceptedPlanIsNeverHeldForOverlap(plan: Plan, running: seq<nat>, ready: seq<nat>, demand: nat -> Demand,
                                          used: Resources, ceilings: Resources, k: nat)
    requires OverlapsAreOrdered(plan) && Antichain(plan, running + ready) && k < |ready|
    requires AreMembers(plan, running) && AreMembers(plan, ready)
    ensures Greedy(WorksFor(plan, ready, demand), Occupied(WorksFor(plan, running, demand)), used, ceilings)[k]
         != Held(DeclaredWriteOverlap)
  {
    var works, occupied := WorksFor(plan, ready, demand), Occupied(WorksFor(plan, running, demand));
    var choice := Choice(works, occupied, used, ceilings);
    NoConflictWithRunning(plan, running, ready, demand, k);
    AntichainSuffix(plan, running, ready);
    NoConflictBelow(plan, ready, demand, choice, k);
    OverlapHoldsAreExact(works, occupied, used, ceilings, k);
  }

  ghost function AllTrue(n: nat): (mask: seq<bool>)
    ensures |mask| == n && forall i :: 0 <= i < n ==> mask[i]
  {
    seq(n, i => true)
  }

  lemma {:induction false} PickAll(works: seq<Task>, mask: seq<bool>)
    requires |mask| == |works| && forall i :: 0 <= i < |mask| ==> mask[i]
    ensures Pick(works, mask) == works
  {
    if works != [] {
      PickAll(works[1..], mask[1..]);
    }
  }

  ghost predicate AdmittedWhole(works: seq<Task>, occupied: seq<OccupiedWork>, used: Resources, ceilings: Resources) {
    forall k :: 0 <= k < |works| ==> Greedy(works, occupied, used, ceilings)[k].Admitted?
  }

  /** The frontier admits a whole list exactly when the list may run together. */
  lemma WholeAdmissionIsFeasibility(works: seq<Task>, occupied: seq<OccupiedWork>, used: Resources, ceilings: Resources)
    ensures AdmittedWhole(works, occupied, used, ceilings) <==> Feasible(works, occupied, used, ceilings)
  {
    var choice, all := Choice(works, occupied, used, ceilings), AllTrue(|works|);
    PickAll(works, all);
    if AdmittedWhole(works, occupied, used, ceilings) {
      PickAll(works, choice);
      GreedyIsFeasible(works, occupied, used, ceilings);
    } else if Feasible(works, occupied, used, ceilings) {
      GreedyIsLexicographicallyFirst(works, occupied, used, ceilings, all);
    }
  }

  lemma {:induction false} UniformLoad(plan: Plan, members: seq<nat>, demand: nat -> Demand, share: u64)
    requires forall i :: 0 <= i < |plan| ==>
      plan[i].resources.concurrencySlots == 1 && plan[i].resources.maxStorageBytes == share
    requires AreMembers(plan, members)
    ensures TotalLoad(WorksFor(plan, members, demand)).concurrency == |members|
    ensures TotalLoad(WorksFor(plan, members, demand)).storage == |members| * share
  {
    if members != [] {
      UniformLoad(plan, members[1..], demand, share);
      assert |members| * share == share + |members[1..]| * share;
    }
  }

  ghost predicate Distinct(members: seq<nat>) {
    forall i, j :: 0 <= i < j < |members| ==> members[i] != members[j]
  }

  lemma {:induction false} DistinctBelow(members: seq<nat>, n: nat)
    requires Distinct(members) && forall i :: 0 <= i < |members| ==> members[i] < n
    ensures |members| <= n
    decreases n
  {
    if members != [] {
      assert members[0] < n;
      if p :| 0 <= p < |members| && members[p] == n - 1 {
        DistinctBelow(members[..p] + members[p + 1..], n - 1);
      } else {
        DistinctBelow(members, n - 1);
      }
    }
  }

  /** What remains on the host, beside a Commission that holds nothing yet. */
  ghost predicate HostHasRoom(used: Resources, load: Load, ceilings: Resources) {
    used.cpuMillis + load.cpuMillis <= ceilings.cpuMillis && used.memoryMib + load.memoryMib <= ceilings.memoryMib
  }

  lemma AntichainIsCompatible(plan: Plan, members: seq<nat>, demand: nat -> Demand)
    requires OverlapsAreOrdered(plan) && Antichain(plan, members)
    ensures PairwiseCompatible(WorksFor(plan, members, demand))
  {
    var works := WorksFor(plan, members, demand);
    forall i, j | 0 <= i < j < |works| ensures !Conflicts(Occupy(works[i]), Occupy(works[j])) {
      AntichainMembersDoNotOverlap(plan, members, i, j);
    }
  }

  lemma ShareScales(size: nat, count: nat, share: u64, maxStorageBytes: u64)
    requires 0 < size <= count && share == StorageShare(count, maxStorageBytes)
    ensures size * share <= maxStorageBytes <==> size <= maxStorageBytes
  {
    if share > 1 {
      assert size * share <= count * share;
      assert size <= size * share;
    }
  }

  lemma AntichainIsNoLarger(plan: Plan, members: seq<nat>)
    requires Antichain(plan, members)
    ensures |members| <= |plan|
  {
    DistinctBelow(members, |plan|);
  }

  /** Compatible work on an idle Commission is limited by resources alone. */
  lemma CompatibleAdmission(works: seq<Task>, used: Resources, ceilings: Resources)
    requires PairwiseCompatible(works) && works != []
    ensures AdmittedWhole(works, [], used, ceilings) <==> AtMost(Plus(AsLoad(used), TotalLoad(works)), AsLoad(ceilings))
  {
    WholeAdmissionIsFeasibility(works, [], used, ceilings);
  }

  lemma UniformAdmission(plan: Plan, members: seq<nat>, demand: nat -> Demand, share: u64, used: Resources, ceilings: Resources)
    requires OverlapsAreOrdered(plan) && Antichain(plan, members) && members != []
    requires forall i :: 0 <= i < |plan| ==>
      plan[i].resources.concurrencySlots == 1 && plan[i].resources.maxStorageBytes == share
    requires used.concurrency == 0 && used.storage == 0
    ensures var works := WorksFor(plan, members, demand);
      AdmittedWhole(works, [], used, ceilings) <==>
        |members| <= ceilings.concurrency && |members| * share <= ceilings.storage && HostHasRoom(used, TotalLoad(works), ceilings)
  {
    var works := WorksFor(plan, members, demand);
    AntichainIsCompatible(plan, members, demand);
    CompatibleAdmission(works, used, ceilings);
    UniformLoad(plan, members, demand, share);
  }

  /** An independent set of Assignments of an accepted proposal is admitted whole
      by an idle Commission exactly when its size is within the concurrency and
      storage ceilings and the host has room for it. */
  lemma AntichainIsAdmittedWhole(proposed: seq<ProposedAssignment>, members: seq<nat>, demand: nat -> Demand,
                                 used: Resources, ceilings: Resources)
    requires var plan := CompletePlan(proposed, ceilings.storage); OverlapsAreOrdered(plan) && Antichain(plan, members)
    requires used.concurrency == 0 && used.storage == 0 && members != []
    ensures var works := WorksFor(CompletePlan(proposed, ceilings.storage), members, demand);
      AdmittedWhole(works, [], used, ceilings) <==>
        |members| <= ceilings.concurrency && |members| <= ceilings.storage && HostHasRoom(used, TotalLoad(works), ceilings)
  {
    var plan, share := CompletePlan(proposed, ceilings.storage), StorageShare(|proposed|, ceilings.storage);
    UniformAdmission(plan, members, demand, share, used, ceilings);
    AntichainIsNoLarger(plan, members);
    ShareScales(|members|, |plan|, share, ceilings.storage);
  }
}
