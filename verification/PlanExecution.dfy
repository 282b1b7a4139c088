/** A Commission that executes an accepted plan: Assignments become ready when all
    their dependencies are settled, each dispatch starts the first Assignment that
    the frontier selects, Attempts end in any order, accepted or to be retried, and
    an Assignment that keeps failing is superseded by a recovery Assignment. */
module PlanExecution {
  import opened Scopes
  import opened Frontier
  import opened Planning
  import opened Scheduling
  import opened PlanAdmission

  // ----- recovery

  function Redirect(dependencies: seq<string>, superseded: string, recovery: string): (r: seq<string>)
    ensures |r| == |dependencies|
    ensures forall i :: 0 <= i < |r| ==> r[i] == if dependencies[i] == superseded then recovery else dependencies[i]
  {
    seq(|dependencies|, i requires 0 <= i < |dependencies| =>
      if dependencies[i] == superseded then recovery else dependencies[i])
  }

  /** The live plan after Assignment `k` is superseded: the recovery Assignment has its
      scopes and dependencies under a new id, and its dependents wait for that id.
      The superseded row itself is referred to by nothing any more. */
  function Recover(plan: Plan, k: nat, recovery: string): (recovered: Plan)
    requires k < |plan|
    ensures |recovered| == |plan|
    ensures forall i :: 0 <= i < |plan| ==>
      && recovered[i].id == (if i == k then recovery else plan[i].id)
      && recovered[i].writeScopes == plan[i].writeScopes
      && recovered[i].dependencies == Redirect(plan[i].dependencies, plan[k].id, recovery)
  {
    seq(|plan|, i requires 0 <= i < |plan| =>
      plan[i].(id := if i == k then recovery else plan[i].id,
               dependencies := Redirect(plan[i].dependencies, plan[k].id, recovery)))
  }

  /** An id that no Assignment has or depends on. */
  ghost predicate IsFresh(plan: Plan, id: string) {
    forall i :: 0 <= i < |plan| ==> plan[i].id != id && id !in plan[i].dependencies
  }

  function Renamed(id: string, superseded: string, recovery: string): string {
    if id == superseded then recovery else id
  }

  ghost function RenamedPath(path: seq<string>, superseded: string, recovery: string): (r: seq<string>)
    ensures |r| == |path|
    ensures forall i :: 0 <= i < |r| ==> r[i] == Renamed(path[i], superseded, recovery)
  {
    seq(|path|, i requires 0 <= i < |path| => Renamed(path[i], superseded, recovery))
  }

  lemma RedirectKeeps(dependencies: seq<string>, superseded: string, recovery: string, next: string)
    requires next in dependencies
    ensures Renamed(next, superseded, recovery) in Redirect(dependencies, superseded, recovery)
  {
    var i :| 0 <= i < |dependencies| && dependencies[i] == next;
    assert Redirect(dependencies, superseded, recovery)[i] == Renamed(next, superseded, recovery);
  }

  lemma RecoveryKeepsIdsUnique(plan: Plan, k: nat, recovery: string)
    requires UniqueIds(plan) && k < |plan| && IsFresh(plan, recovery)
    ensures UniqueIds(Recover(plan, k, recovery))
  {
  }

  lemma DeclaringAssignment(plan: Plan, id: string, next: string) returns (m: nat)
    requires next in Successors(DependencyGraph(plan), id)
    ensures m < |plan| && plan[m].id == id && next in plan[m].dependencies
  {
    GraphEdgesAreDeclared(plan, id, next);
    m :| 0 <= m < |plan| && plan[m].id == id && next in plan[m].dependencies;
  }

  lemma RecoveredEdge(plan: Plan, k: nat, recovery: string, m: nat, next: string)
    requires UniqueIds(plan) && k < |plan| && IsFresh(plan, recovery)
    requires m < |plan| && next in plan[m].dependencies
    ensures Renamed(next, plan[k].id, recovery)
         in Successors(DependencyGraph(Recover(plan, k, recovery)), Recover(plan, k, recovery)[m].id)
  {
    RecoveryKeepsIdsUnique(plan, k, recovery);
    GraphHoldsDependencies(Recover(plan, k, recovery), m);
    RedirectKeeps(plan[m].dependencies, plan[k].id, recovery, next);
  }

  lemma RecoveredId(plan: Plan, k: nat, recovery: string, m: nat)
    requires UniqueIds(plan) && k < |plan| && m < |plan|
    ensures Recover(plan, k, recovery)[m].id == Renamed(plan[m].id, plan[k].id, recovery)
  {
    assert plan[m].id == plan[k].id <==> m == k;
  }

  lemma EdgeSurvives(plan: Plan, k: nat, recovery: string, from: string, next: string)
    requires UniqueIds(plan) && k < |plan| && IsFresh(plan, recovery)
    requires next in Successors(DependencyGraph(plan), from)
    ensures var gone := plan[k].id;
      Renamed(next, gone, recovery) in Successors(DependencyGraph(Recover(plan, k, recovery)), Renamed(from, gone, recovery))
  {
    var m := DeclaringAssignment(plan, from, next);
    RecoveredEdge(plan, k, recovery, m, next);
    RecoveredId(plan, k, recovery, m);
  }

  /** Every dependency path of the plan is one of the recovered plan, renamed. */
  lemma ReachabilitySurvives(plan: Plan, k: nat, recovery: string, from: string, target: string)
    requires UniqueIds(plan) && k < |plan| && IsFresh(plan, recovery)
    requires Reaches(DependencyGraph(plan), from, target)
    ensures var gone := plan[k].id;
      Reaches(DependencyGraph(Recover(plan, k, recovery)), Renamed(from, gone, recovery), Renamed(target, gone, recovery))
  {
    var graph := DependencyGraph(plan);
    var path :| IsPath(graph, path) && path[0] == from && path[|path| - 1] == target;
    var renamed := RenamedPath(path, plan[k].id, recovery);
    forall i | 0 <= i < |renamed| - 1 ensures renamed[i + 1] in Successors(DependencyGraph(Recover(plan, k, recovery)), renamed[i]) {
      EdgeSurvives(plan, k, recovery, path[i], path[i + 1]);
    }
    assert IsPath(DependencyGraph(Recover(plan, k, recovery)), renamed);
  }

  lemma PairStaysOrdered(plan: Plan, k: nat, recovery: string, i: nat, j: nat)
    requires UniqueIds(plan) && k < |plan| && IsFresh(plan, recovery)
    requires i < |plan| && j < |plan| && PairIsOrdered(plan, i, j)
    ensures PairIsOrdered(Recover(plan, k, recovery), i, j)
  {
    var graph := DependencyGraph(plan);
    if Reaches(graph, plan[i].id, plan[j].id) {
      ReachabilitySurvives(plan, k, recovery, plan[i].id, plan[j].id);
    }
    if Reaches(graph, plan[j].id, plan[i].id) {
      ReachabilitySurvives(plan, k, recovery, plan[j].id, plan[i].id);
    }
    assert plan[i].id == plan[k].id <==> i == k;
    assert plan[j].id == plan[k].id <==> j == k;
  }

  /** Recovery keeps ids unique and overlapping writers ordered. */
  lemma RecoveryKeepsPlanAccepted(plan: Plan, k: nat, recovery: string)
    requires UniqueIds(plan) && OverlapsAreOrdered(plan) && k < |plan| && IsFresh(plan, recovery)
    ensures UniqueIds(Recover(plan, k, recovery)) && OverlapsAreOrdered(Recover(plan, k, recovery))
  {
    var recovered := Recover(plan, k, recovery);
    RecoveryKeepsIdsUnique(plan, k, recovery);
    forall i, j | 0 <= i < j < |recovered| ensures PairIsOrdered(recovered, i, j) {
      assert RowIsOrdered(plan, i, |plan|);
      PairStaysOrdered(plan, k, recovery, i, j);
    }
    forall i | 0 <= i < |recovered| ensures RowIsOrdered(recovered, i, |recovered|) {
    }
  }

  // ----- execution

  /** `settled` are the ids of accepted and superseded Assignments. */
  datatype Progress = Progress(plan: Plan, settled: set<string>, running: seq<nat>)

  ghost predicate IsReady(s: Progress, k: nat) {
    && k < |s.plan| && k !in s.running
    && s.plan[k].id !in s.settled && DependenciesDone(s.plan, s.settled, k)
  }

  /** Some of the ready Assignments, in the order they are considered. */
  ghost predicate ReadyList(s: Progress, ready: seq<nat>) {
    Distinct(ready) && forall i :: 0 <= i < |ready| ==> IsReady(s, ready[i])
  }

  /** What the frontier decides about a ready list, beside what is running. */
  ghost function Decisions(s: Progress, ready: seq<nat>, demand: nat -> Demand,
                           used: Resources, ceilings: Resources): (decisions: seq<Decision>)
    requires AreMembers(s.plan, s.running) && AreMembers(s.plan, ready)
    ensures |decisions| == |ready|
  {
    Greedy(WorksFor(s.plan, ready, demand), Occupied(WorksFor(s.plan, s.running, demand)), used, ceilings)
  }

  datatype Event =
    | Dispatched(ready: seq<nat>, demand: nat -> Demand, used: Resources, ceilings: Resources, first: nat)
    | Ended(index: nat, accepted: bool)
    | Superseded(assignment: nat, recovery: string)

  ghost predicate Step(s: Progress, event: Event, s': Progress) {
    match event
    case Dispatched(ready, demand, used, ceilings, first) =>
      && ReadyList(s, ready) && AreMembers(s.plan, s.running) && first < |ready|
      && var decisions := Decisions(s, ready, demand, used, ceilings);
      && decisions[first].Admitted? && (forall i :: 0 <= i < first ==> !decisions[i].Admitted?)
      && s' == s.(running := s.running + [ready[first]])
    case Ended(index, accepted) =>
      && index < |s.running| && s.running[index] < |s.plan|
      && s' == s.(settled := if accepted then s.settled + {s.plan[s.running[index]].id} else s.settled,
                  running := s.running[..index] + s.running[index + 1..])
    case Superseded(k, recovery) =>
      && IsReady(s, k) && IsFresh(s.plan, recovery) && recovery !in s.settled
      && s' == s.(plan := Recover(s.plan, k, recovery), settled := s.settled + {s.plan[k].id})
  }

  /** A running Assignment waits for nothing and is not settled. */
  ghost predicate IsUnderway(s: Progress, k: nat) {
    k < |s.plan| && s.plan[k].id !in s.settled && DependenciesDone(s.plan, s.settled, k)
  }

  ghost predicate Sound(s: Progress) {
    && UniqueIds(s.plan) && OverlapsAreOrdered(s.plan)
    && DoneIsClosed(s.plan, s.settled)
    && Distinct(s.running)
    && forall i :: 0 <= i < |s.running| ==> IsUnderway(s, s.running[i])
  }

  lemma EndKeepsSound(s: Progress, index: nat, accepted: bool, s': Progress)
    requires Sound(s) && Step(s, Ended(index, accepted), s')
    ensures Sound(s')
  {
    var plan, ended := s.plan, s.running[index];
    assert IsUnderway(s, ended);
    forall i | 0 <= i < |s'.running| ensures IsUnderway(s', s'.running[i]) {
      var j := if i < index then i else i + 1;
      assert s'.running[i] == s.running[j] && IsUnderway(s, s.running[j]);
      assert s.running[j] != ended;
    }
    forall k | 0 <= k < |plan| && plan[k].id in s'.settled ensures DependenciesDone(plan, s'.settled, k) {
      assert DependenciesDone(plan, s.settled, k) by {
        assert plan[k].id in s.settled || k == ended;
      }
    }
  }

  /** Settled dependencies do not include the superseded Assignment, so they stay as they are. */
  lemma RecoveryKeepsDependencies(s: Progress, k: nat, recovery: string, s': Progress, m: nat)
    requires Step(s, Superseded(k, recovery), s') && m < |s.plan| && DependenciesDone(s.plan, s.settled, m)
    ensures DependenciesDone(s'.plan, s'.settled, m)
  {
    forall d | d in s'.plan[m].dependencies ensures d in s'.settled {
      var i :| 0 <= i < |s'.plan[m].dependencies| && s'.plan[m].dependencies[i] == d;
      assert s.plan[m].dependencies[i] in s.settled;
    }
  }

  lemma RecoveryKeepsSound(s: Progress, k: nat, recovery: string, s': Progress)
    requires Sound(s) && Step(s, Superseded(k, recovery), s')
    ensures Sound(s')
  {
    RecoveryKeepsPlanAccepted(s.plan, k, recovery);
    forall i | 0 <= i < |s'.running| ensures IsUnderway(s', s'.running[i]) {
      assert IsUnderway(s, s.running[i]) && s.running[i] != k;
      RecoveryKeepsDependencies(s, k, recovery, s', s.running[i]);
    }
    forall m | 0 <= m < |s'.plan| && s'.plan[m].id in s'.settled ensures DependenciesDone(s'.plan, s'.settled, m) {
      assert m != k && s.plan[m].id in s.settled;
      assert DependenciesDone(s.plan, s.settled, m);
      RecoveryKeepsDependencies(s, k, recovery, s', m);
    }
  }

  lemma StepKeepsSound(s: Progress, event: Event, s': Progress)
    requires Sound(s) && Step(s, event, s')
    ensures Sound(s')
  {
    match event
    case Dispatched(ready, _, _, _, first) => assert IsReady(s, ready[first]);
    case Ended(index, accepted) => EndKeepsSound(s, index, accepted, s');
    case Superseded(k, recovery) => RecoveryKeepsSound(s, k, recovery, s');
  }

  /** An execution starts with an accepted plan of which nothing is settled. */
  ghost predicate IsExecution(states: seq<Progress>, events: seq<Event>) {
    && |states| == |events| + 1
    && states[0].settled == {} && states[0].running == []
    && UniqueIds(states[0].plan) && OverlapsAreOrdered(states[0].plan)
    && forall k :: 0 <= k < |events| ==> Step(states[k], events[k], states[k + 1])
  }

  lemma {:induction false} ExecutionStaysSound(states: seq<Progress>, events: seq<Event>, k: nat)
    requires IsExecution(states, events) && k < |states|
    ensures Sound(states[k])
  {
    if k > 0 {
      ExecutionStaysSound(states, events, k - 1);
      StepKeepsSound(states[k - 1], events[k - 1], states[k]);
    }
  }

  lemma SoundIsIndependent(s: Progress, ready: seq<nat>)
    requires Sound(s) && ReadyList(s, ready)
    ensures AreMembers(s.plan, s.running) && AreMembers(s.plan, ready)
    ensures Antichain(s.plan, s.running + ready)
  {
    var members := s.running + ready;
    forall i | 0 <= i < |members| ensures IsUnderway(s, members[i]) {
      assert i >= |s.running| ==> IsReady(s, members[i]);
    }
    forall i, j | 0 <= i < j < |members| ensures members[i] != members[j] {
      if i < |s.running| <= j {
        assert IsReady(s, ready[j - |s.running|]);
      }
    }
    ReadyWorkIsIndependent(s.plan, s.settled, members);
  }

  /** In every state of every execution of an accepted plan, recoveries included,
      whatever is ready, used and allowed, the frontier holds no Assignment for a
      write overlap. */
  lemma ExecutionNeverHoldsForOverlap(states: seq<Progress>, events: seq<Event>, k: nat, ready: seq<nat>,
                                      demand: nat -> Demand, used: Resources, ceilings: Resources, i: nat)
    requires IsExecution(states, events) && k < |states|
    requires ReadyList(states[k], ready) && i < |ready|
    ensures AreMembers(states[k].plan, states[k].running) && AreMembers(states[k].plan, ready)
    ensures Decisions(states[k], ready, demand, used, ceilings)[i] != Held(DeclaredWriteOverlap)
  {
    ExecutionStaysSound(states, events, k);
    SoundIsIndependent(states[k], ready);
    AcceptedPlanIsNeverHeldForOverlap(states[k].plan, states[k].running, ready, demand, used, ceilings, i);
  }

  /** And no path is ever in the write scopes of two running Assignments. */
  lemma ExecutionKeepsWritersApart(states: seq<Progress>, events: seq<Event>, k: nat, i: nat, j: nat, path: string)
    requires IsExecution(states, events) && k < |states| && i < j < |states[k].running|
    ensures AreMembers(states[k].plan, states[k].running)
    ensures var plan, running := states[k].plan, states[k].running;
      !(Covers(plan[running[i]].writeScopes, path) && Covers(plan[running[j]].writeScopes, path))
  {
    var plan, running := states[k].plan, states[k].running;
    ExecutionStaysSound(states, events, k);
    assert running + [] == running;
    SoundIsIndependent(states[k], []);
    AntichainMembersDoNotOverlap(plan, running, i, j);
    OverlapIsSharedPath(plan[running[i]].writeScopes, plan[running[j]].writeScopes);
  }
}
