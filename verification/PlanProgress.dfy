/** A valid plan never stalls: in every state of every execution, whatever is not settled
    waits for something that is ready or running, and the execution can be completed. */
module PlanProgress {
  import opened Frontier
  import opened Planning
  import opened PlanAdmission
  import opened PlanExecution
  import opened PlanValidity

  ghost predicate IsValid(plan: Plan) {
    UniqueIds(plan) && DependenciesAreNamed(plan) && IsAcyclic(DependencyGraph(plan))
  }

  // ----- recovery keeps a plan valid

  lemma RecoveredNames(plan: Plan, k: nat, recovery: string, id: string)
    requires UniqueIds(plan) && k < |plan| && HasId(plan, id)
    ensures HasId(Recover(plan, k, recovery), Renamed(id, plan[k].id, recovery))
  {
    var m :| 0 <= m < |plan| && plan[m].id == id;
    RecoveredId(plan, k, recovery, m);
    assert Recover(plan, k, recovery)[m].id == Renamed(id, plan[k].id, recovery);
  }

  lemma RecoveredDependency(plan: Plan, k: nat, recovery: string, i: nat, j: nat)
    requires UniqueIds(plan) && DependenciesAreNamed(plan) && k < |plan| && IsFresh(plan, recovery)
    requires i < |plan| && j < |plan[i].dependencies|
    ensures var recovered := Recover(plan, k, recovery);
      var d := recovered[i].dependencies[j];
      d != recovered[i].id && HasId(recovered, d)
  {
    var before := plan[i].dependencies[j];
    assert before in plan[i].dependencies && IsNamed(plan, plan[i]);
    assert before != recovery && plan[i].id != recovery;
    RecoveredNames(plan, k, recovery, before);
    RecoveredId(plan, k, recovery, i);
  }

  lemma RecoveryKeepsNamed(plan: Plan, k: nat, recovery: string)
    requires UniqueIds(plan) && DependenciesAreNamed(plan) && k < |plan| && IsFresh(plan, recovery)
    ensures DependenciesAreNamed(Recover(plan, k, recovery))
  {
    var recovered := Recover(plan, k, recovery);
    forall i | 0 <= i < |recovered| ensures IsNamed(recovered, recovered[i]) {
      forall d | d in recovered[i].dependencies ensures d != recovered[i].id && HasId(recovered, d) {
        var j :| 0 <= j < |recovered[i].dependencies| && recovered[i].dependencies[j] == d;
        RecoveredDependency(plan, k, recovery, i, j);
      }
    }
  }

  /** The id that an id of the recovered plan stands for. */
  function Original(id: string, superseded: string, recovery: string): string {
    if id == recovery then superseded else id
  }

  ghost function OriginalPath(path: seq<string>, superseded: string, recovery: string): (r: seq<string>)
    ensures |r| == |path|
    ensures forall i :: 0 <= i < |r| ==> r[i] == Original(path[i], superseded, recovery)
  {
    seq(|path|, i requires 0 <= i < |path| => Original(path[i], superseded, recovery))
  }

  lemma OriginalOfRow(plan: Plan, k: nat, recovery: string, m: nat, j: nat)
    requires UniqueIds(plan) && k < |plan| && IsFresh(plan, recovery) && m < |plan| && j < |plan[m].dependencies|
    ensures var gone, row := plan[k].id, Recover(plan, k, recovery)[m];
      plan[m].id == Original(row.id, gone, recovery) && plan[m].dependencies[j] == Original(row.dependencies[j], gone, recovery)
  {
    assert plan[m].dependencies[j] in plan[m].dependencies;
  }

  lemma EdgeReturns(plan: Plan, k: nat, recovery: string, from: string, next: string)
    requires UniqueIds(plan) && k < |plan| && IsFresh(plan, recovery)
    requires next in Successors(DependencyGraph(Recover(plan, k, recovery)), from)
    ensures var gone := plan[k].id;
      Original(next, gone, recovery) in Successors(DependencyGraph(plan), Original(from, gone, recovery))
  {
    var recovered := Recover(plan, k, recovery);
    var m := DeclaringAssignment(recovered, from, next);
    var j := Position(recovered[m].dependencies, next);
    OriginalOfRow(plan, k, recovery, m, j);
    GraphHoldsDependencies(plan, m);
  }

  lemma Position(s: seq<string>, x: string) returns (j: nat)
    requires x in s
    ensures j < |s| && s[j] == x
  {
    j :| j < |s| && s[j] == x;
  }

  lemma SomePath(graph: Graph, from: string, target: string) returns (path: seq<string>)
    requires Reaches(graph, from, target)
    ensures IsPath(graph, path) && path[0] == from && path[|path| - 1] == target
  {
    path :| IsPath(graph, path) && path[0] == from && path[|path| - 1] == target;
  }

  lemma PathReaches(graph: Graph, path: seq<string>)
    requires IsPath(graph, path)
    ensures Reaches(graph, path[0], path[|path| - 1])
  {
  }

  lemma PathReturns(plan: Plan, k: nat, recovery: string, path: seq<string>)
    requires UniqueIds(plan) && k < |plan| && IsFresh(plan, recovery)
    requires IsPath(DependencyGraph(Recover(plan, k, recovery)), path)
    ensures IsPath(DependencyGraph(plan), OriginalPath(path, plan[k].id, recovery))
  {
    var original := OriginalPath(path, plan[k].id, recovery);
    forall i | 0 <= i < |original| - 1 ensures original[i + 1] in Successors(DependencyGraph(plan), original[i]) {
      EdgeReturns(plan, k, recovery, path[i], path[i + 1]);
    }
  }

  /** Every dependency path of the recovered plan stands for one of the plan. */
  lemma ReachabilityReturns(plan: Plan, k: nat, recovery: string, from: string, target: string)
    requires UniqueIds(plan) && k < |plan| && IsFresh(plan, recovery)
    requires Reaches(DependencyGraph(Recover(plan, k, recovery)), from, target)
    ensures var gone := plan[k].id;
      Reaches(DependencyGraph(plan), Original(from, gone, recovery), Original(target, gone, recovery))
  {
    var graph := DependencyGraph(Recover(plan, k, recovery));
    var path := SomePath(graph, from, target);
    PathReturns(plan, k, recovery, path);
    PathReaches(DependencyGraph(plan), OriginalPath(path, plan[k].id, recovery));
  }

  lemma RecoveryKeepsValid(plan: Plan, k: nat, recovery: string)
    requires IsValid(plan) && k < |plan| && IsFresh(plan, recovery)
    ensures IsValid(Recover(plan, k, recovery))
  {
    RecoveryKeepsIdsUnique(plan, k, recovery);
    RecoveryKeepsNamed(plan, k, recovery);
    forall id ensures !Reaches(DependencyGraph(Recover(plan, k, recovery)), id, id) {
      if Reaches(DependencyGraph(Recover(plan, k, recovery)), id, id) {
        ReachabilityReturns(plan, k, recovery, id, id);
      }
    }
  }

  lemma StepKeepsValid(s: Progress, event: Event, s': Progress)
    requires IsValid(s.plan) && Step(s, event, s')
    ensures IsValid(s'.plan)
  {
    if event.Superseded? {
      RecoveryKeepsValid(s.plan, event.assignment, event.recovery);
    }
  }

  // ----- nothing waits for ever

  ghost function ReachableIds(graph: Graph, from: string): set<string> {
    set id | id in graph && Reaches(graph, from, id)
  }

  lemma FewerReachable(graph: Graph, from: string, next: string)
    requires IsAcyclic(graph) && next in Successors(graph, from) && next in graph
    ensures |ReachableIds(graph, next)| < |ReachableIds(graph, from)|
  {
    var fewer, more := ReachableIds(graph, next), ReachableIds(graph, from);
    EdgeReaches(graph, from, next);
    forall id | id in fewer ensures id in more {
      ReachesTransitively(graph, from, next, id);
    }
    assert next in more && next !in fewer;
    SubsetIsSmaller(fewer, more);
  }

  /** It can be dispatched, or it has been. */
  ghost predicate CanMove(s: Progress, m: nat) {
    m < |s.plan| && s.plan[m].id !in s.settled && (IsReady(s, m) || m in s.running)
  }

  /** Every Assignment that is not settled can move, or waits, perhaps through others, for
      one that can. */
  lemma {:induction false} WaitEnds(s: Progress, k: nat) returns (m: nat)
    requires IsValid(s.plan) && k < |s.plan| && s.plan[k].id !in s.settled
    ensures CanMove(s, m) && (m == k || Reaches(DependencyGraph(s.plan), s.plan[k].id, s.plan[m].id))
    decreases |ReachableIds(DependencyGraph(s.plan), s.plan[k].id)|
  {
    var graph := DependencyGraph(s.plan);
    if DependenciesDone(s.plan, s.settled, k) {
      m := k;
    } else {
      var d :| d in s.plan[k].dependencies && d !in s.settled;
      assert IsNamed(s.plan, s.plan[k]);
      var next: nat :| next < |s.plan| && s.plan[next].id == d;
      GraphHoldsDependencies(s.plan, k);
      GraphKeys(s.plan, d);
      FewerReachable(graph, s.plan[k].id, d);
      EdgeReaches(graph, s.plan[k].id, d);
      m := WaitEnds(s, next);
      if m != next {
        ReachesTransitively(graph, s.plan[k].id, d, s.plan[m].id);
      }
    }
  }

  lemma {:induction false} ExecutionStaysValid(states: seq<Progress>, events: seq<Event>, n: nat)
    requires IsExecution(states, events) && IsValid(states[0].plan) && n < |states|
    ensures IsValid(states[n].plan)
  {
    if n > 0 {
      ExecutionStaysValid(states, events, n - 1);
      StepKeepsValid(states[n - 1], events[n - 1], states[n]);
    }
  }

  /** In every state of every execution of a valid plan, recoveries included, whatever is
      not settled waits for something that is ready or running: no execution stalls. */
  lemma ExecutionNeverStalls(states: seq<Progress>, events: seq<Event>, n: nat, k: nat) returns (m: nat)
    requires IsExecution(states, events) && IsValid(states[0].plan) && n < |states|
    requires k < |states[n].plan| && states[n].plan[k].id !in states[n].settled
    ensures var s := states[n];
      CanMove(s, m) && (m == k || Reaches(DependencyGraph(s.plan), s.plan[k].id, s.plan[m].id))
  {
    ExecutionStaysValid(states, events, n);
    m := WaitEnds(states[n], k);
  }

  // ----- every execution can be completed

  ghost predicate Fits(plan: Plan, m: nat, demand: nat -> Demand, used: Resources, ceilings: Resources)
    requires m < |plan|
  {
    var requested := WorkFor(plan[m], demand(m)).resources;
    ResourcesFit(used, requested, ceilings) && HostFits(used, requested, ceilings)
  }

  /** A ready Assignment whose reservation fits can be started, whatever else is running. */
  lemma ReadyWorkCanStart(s: Progress, m: nat, demand: nat -> Demand, used: Resources, ceilings: Resources)
    requires Sound(s) && IsReady(s, m) && Fits(s.plan, m, demand, used, ceilings)
    ensures Step(s, Dispatched([m], demand, used, ceilings, 0), s.(running := s.running + [m]))
  {
    SoundIsIndependent(s, [m]);
    AcceptedPlanIsNeverHeldForOverlap(s.plan, s.running, [m], demand, used, ceilings, 0);
    assert Decisions(s, [m], demand, used, ceilings)[0].Admitted?;
  }

  ghost function Unsettled(s: Progress): set<nat> {
    set k: nat | k < |s.plan| && s.plan[k].id !in s.settled
  }

  ghost predicate IsFinished(s: Progress) {
    Unsettled(s) == {} && s.running == []
  }

  ghost predicate IsRun(states: seq<Progress>, events: seq<Event>) {
    |states| == |events| + 1 && forall k :: 0 <= k < |events| ==> Step(states[k], events[k], states[k + 1])
  }

  lemma RunCons(s: Progress, event: Event, states: seq<Progress>, events: seq<Event>)
    requires IsRun(states, events) && Step(s, event, states[0])
    ensures IsRun([s] + states, [event] + events)
  {
  }

  /** Each Assignment alone fits the ceilings. */
  ghost predicate EachFits(plan: Plan, demand: nat -> Demand, ceilings: Resources) {
    forall m: nat :: m < |plan| ==> Fits(plan, m, demand, Resources(0, 0, 0, 0), ceilings)
  }

  lemma SettlingLeavesFewer(s: Progress, s': Progress, index: nat)
    requires Sound(s) && Step(s, Ended(index, true), s')
    ensures |Unsettled(s')| < |Unsettled(s)|
  {
    var k := s.running[index];
    assert IsUnderway(s, k);
    assert k in Unsettled(s) && k !in Unsettled(s');
    FewerElements(Unsettled(s'), Unsettled(s), k);
  }

  lemma FewerElements(a: set<nat>, b: set<nat>, x: nat)
    requires a <= b && x in b && x !in a
    ensures |a| < |b|
  {
    assert b == a + (b - a);
  }

  lemma NextEnd(s: Progress) returns (s': Progress)
    requires Sound(s) && s.running != []
    ensures Step(s, Ended(0, true), s') && Sound(s') && s'.plan == s.plan && |Unsettled(s')| < |Unsettled(s)|
  {
    assert IsUnderway(s, s.running[0]);
    s' := s.(settled := s.settled + {s.plan[s.running[0]].id}, running := s.running[..0] + s.running[0 + 1..]);
    EndKeepsSound(s, 0, true, s');
    SettlingLeavesFewer(s, s', 0);
  }

  lemma NextStart(s: Progress, demand: nat -> Demand, ceilings: Resources) returns (m: nat, s': Progress)
    requires Sound(s) && IsValid(s.plan) && s.running == [] && Unsettled(s) != {} && EachFits(s.plan, demand, ceilings)
    ensures Step(s, Dispatched([m], demand, Resources(0, 0, 0, 0), ceilings, 0), s')
    ensures Sound(s') && s'.plan == s.plan && s'.settled == s.settled && s'.running == [m]
  {
    var k :| k in Unsettled(s);
    m := WaitEnds(s, k);
    ReadyWorkCanStart(s, m, demand, Resources(0, 0, 0, 0), ceilings);
    s' := s.(running := s.running + [m]);
    StepKeepsSound(s, Dispatched([m], demand, Resources(0, 0, 0, 0), ceilings, 0), s');
  }

  /** From every sound state of a valid plan, as every execution has, there is a run that
      settles all of it, if each Assignment alone fits the ceilings and its Attempt is accepted. */
  lemma {:induction false} CanFinish(s: Progress, demand: nat -> Demand, ceilings: Resources)
    returns (states: seq<Progress>, events: seq<Event>)
    requires Sound(s) && IsValid(s.plan) && EachFits(s.plan, demand, ceilings)
    ensures IsRun(states, events) && states[0] == s && IsFinished(states[|events|])
    decreases |Unsettled(s)|
  {
    if s.running != [] {
      var s' := NextEnd(s);
      states, events := CanFinish(s', demand, ceilings);
      RunCons(s, Ended(0, true), states, events);
      states, events := [s] + states, [Ended(0, true)] + events;
    } else if Unsettled(s) != {} {
      var m, s1 := NextStart(s, demand, ceilings);
      var start := Dispatched([m], demand, Resources(0, 0, 0, 0), ceilings, 0);
      var s2 := NextEnd(s1);
      assert Unsettled(s1) == Unsettled(s);
      states, events := CanFinish(s2, demand, ceilings);
      RunCons(s1, Ended(0, true), states, events);
      RunCons(s, start, [s1] + states, [Ended(0, true)] + events);
      states, events := [s] + ([s1] + states), [start] + ([Ended(0, true)] + events);
    } else {
      states, events := [s], [];
    }
  }

  /** So every execution of a valid plan can be completed from wherever it is. */
  lemma EveryExecutionCanFinish(states: seq<Progress>, events: seq<Event>, n: nat, demand: nat -> Demand, ceilings: Resources)
    returns (rest: seq<Progress>, more: seq<Event>)
    requires IsExecution(states, events) && IsValid(states[0].plan) && n < |states|
    requires EachFits(states[n].plan, demand, ceilings)
    ensures IsRun(rest, more) && rest[0] == states[n] && IsFinished(rest[|more|])
  {
    ExecutionStaysSound(states, events, n);
    ExecutionStaysValid(states, events, n);
    rest, more := CanFinish(states[n], demand, ceilings);
  }
}
