/** Whole runs of the scheduler: Commissions that share one host dispatch work
    through the frontier, with reservations recomputed from what is running,
    and running Attempts finish in any order. */
module Scheduling {
  import opened Prelude
  import opened Scopes
  import opened Frontier
  import opened FrontierOptimality

  type Task = Work<string>

  datatype Running = Running(commission: string, work: Task)

  /** Everything that runs on the host, over all Commissions. */
  type Host = seq<Running>

  ghost function OfCommission(host: Host, commission: string): seq<Task> {
    if host == [] then []
    else (if host[0].commission == commission then [host[0].work] else []) + OfCommission(host[1..], commission)
  }

  /** Concurrency and storage are charged to the Commission, CPU and memory to the host. */
  ghost function Charge(running: Running, commission: string): Load {
    var load := AsLoad(running.work.resources);
    if running.commission == commission then load else load.(concurrency := 0, storage := 0)
  }

  ghost function Used(host: Host, commission: string): Load {
    if host == [] then IDLE else Plus(Charge(host[0], commission), Used(host[1..], commission))
  }

  ghost predicate FitsWords(load: Load) {
    AtMost(load, Load(U64_MAX, U64_MAX, U64_MAX, U64_MAX))
  }

  ghost function AsResources(load: Load): Resources
    requires FitsWords(load)
  {
    Resources(load.concurrency, load.storage, load.cpuMillis, load.memoryMib)
  }

  ghost function Occupied(works: seq<Task>): (occupied: seq<OccupiedWork>)
    ensures |occupied| == |works|
    ensures forall i :: 0 <= i < |works| ==> occupied[i] == Occupy(works[i])
  {
    seq(|works|, i requires 0 <= i < |works| => Occupy(works[i]))
  }

  ghost function Start(commission: string, works: seq<Task>): (started: Host)
    ensures |started| == |works|
    ensures forall i :: 0 <= i < |works| ==> started[i] == Running(commission, works[i])
  {
    seq(|works|, i requires 0 <= i < |works| => Running(commission, works[i]))
  }

  /** Dispatch starts a prefix of the selection: the frontier is consulted again for the rest. */
  datatype Action =
    | Dispatch(commission: string, candidates: seq<Task>, ceilings: Resources, started: nat)
    | Finish(index: nat)

  ghost function Selection(host: Host, commission: string, candidates: seq<Task>, ceilings: Resources): seq<Task>
    requires FitsWords(Used(host, commission))
  {
    var occupied, used := Occupied(OfCommission(host, commission)), AsResources(Used(host, commission));
    Pick(candidates, Choice(candidates, occupied, used, ceilings))
  }

  ghost predicate Step(host: Host, action: Action, host': Host) {
    match action
    case Dispatch(commission, candidates, ceilings, started) =>
      && FitsWords(Used(host, commission))
      && var selection := Selection(host, commission, candidates, ceilings);
      && started <= |selection|
      && host' == host + Start(commission, selection[..started])
    case Finish(index) =>
      && index < |host|
      && host' == host[..index] + host[index + 1..]
  }

  /** The ceilings in force for a Commission: those of the last dispatch that started
      work, of the Commission for its concurrency and storage, of any for CPU and memory. */
  ghost function CeilingsAfter(before: Load, action: Action, commission: string): Load {
    match action
    case Dispatch(dispatched, _, ceilings, started) =>
      if started == 0 then before
      else if dispatched == commission then AsLoad(ceilings)
      else before.(cpuMillis := ceilings.cpuMillis, memoryMib := ceilings.memoryMib)
    case Finish(_) => before
  }

  ghost function CeilingsInForce(actions: seq<Action>, commission: string): Load {
    if actions == [] then IDLE
    else CeilingsAfter(CeilingsInForce(actions[..|actions| - 1], commission), actions[|actions| - 1], commission)
  }

  ghost predicate NoConflicts(host: Host) {
    forall i, j :: 0 <= i < j < |host| && host[i].commission == host[j].commission ==>
      !Conflicts(Occupy(host[i].work), Occupy(host[j].work))
  }

  /** `inForce` are the ceilings of each Commission. */
  ghost predicate WithinCeilings(host: Host, inForce: string -> Load) {
    forall commission :: AtMost(Used(host, commission), inForce(commission))
  }

  ghost predicate Safe(host: Host, inForce: string -> Load) {
    NoConflicts(host) && WithinCeilings(host, inForce)
  }

  /** Any prefix of what the frontier selects can be started, and then runs beside
      everything that ran before. */
  lemma SelectionCanStart(host: Host, commission: string, candidates: seq<Task>, ceilings: Resources, started: nat)
    returns (host': Host)
    requires FitsWords(Used(host, commission)) && started <= |Selection(host, commission, candidates, ceilings)|
    ensures Step(host, Dispatch(commission, candidates, ceilings, started), host')
    ensures |host'| == |host| + started && forall running :: running in host ==> running in host'
    ensures forall i :: 0 <= i < started ==> Running(commission, Selection(host, commission, candidates, ceilings)[i]) in host'
  {
    var selection := Selection(host, commission, candidates, ceilings);
    host' := host + Start(commission, selection[..started]);
    forall i | 0 <= i < started ensures Running(commission, selection[i]) in host' {
      assert host'[|host| + i] == Running(commission, selection[..started][i]);
    }
  }

  /** Any Attempt can finish, and then the others run on, in the same order. */
  lemma AttemptCanFinish(host: Host, index: nat) returns (host': Host)
    requires index < |host|
    ensures Step(host, Finish(index), host') && |host'| == |host| - 1
    ensures forall i :: 0 <= i < |host'| ==> host'[i] == host[if i < index then i else i + 1]
  {
    host' := host[..index] + host[index + 1..];
  }

  // ----- sums over concatenation

  lemma {:induction false} TotalLoadAppend(a: seq<Task>, b: seq<Task>)
    ensures TotalLoad(a + b) == Plus(TotalLoad(a), TotalLoad(b))
  {
    if a == [] {
      assert a + b == b;
    } else {
      var ab := a + b;
      assert ab[0] == a[0] && ab[1..] == a[1..] + b;
      TotalLoadAppend(a[1..], b);
    }
  }

  lemma {:induction false} UsedAppend(a: Host, b: Host, commission: string)
    ensures Used(a + b, commission) == Plus(Used(a, commission), Used(b, commission))
  {
    if a == [] {
      assert a + b == b;
    } else {
      var ab := a + b;
      assert ab[0] == a[0] && ab[1..] == a[1..] + b;
      UsedAppend(a[1..], b, commission);
    }
  }

  /** Every Commission sees the same CPU and memory in use. */
  lemma {:induction false} HostLoadIsShared(host: Host, commission: string, other: string)
    ensures Used(host, commission).cpuMillis == Used(host, other).cpuMillis
    ensures Used(host, commission).memoryMib == Used(host, other).memoryMib
  {
    if host != [] {
      HostLoadIsShared(host[1..], commission, other);
    }
  }

  lemma {:induction false} UsedByStart(commission: string, works: seq<Task>, other: string)
    ensures var load := TotalLoad(works);
      Used(Start(commission, works), other) == if other == commission then load else load.(concurrency := 0, storage := 0)
  {
    if works != [] {
      assert Start(commission, works)[1..] == Start(commission, works[1..]);
      UsedByStart(commission, works[1..], other);
    }
  }

  /** The works a Commission occupies are exactly those it runs. */
  lemma {:induction false} OccupiedIsExact(host: Host, commission: string, work: Task)
    ensures work in OfCommission(host, commission) <==> Running(commission, work) in host
  {
    if host != [] {
      OccupiedIsExact(host[1..], commission, work);
      assert host == [host[0]] + host[1..];
    }
  }

  ghost function AllWorks(host: Host): seq<Task> {
    if host == [] then [] else [host[0].work] + AllWorks(host[1..])
  }

  /** Slots and storage are summed over the Commission, CPU and memory over the host. */
  lemma {:induction false} UsedIsExact(host: Host, commission: string)
    ensures var own, all := TotalLoad(OfCommission(host, commission)), TotalLoad(AllWorks(host));
      Used(host, commission) == Load(own.concurrency, own.storage, all.cpuMillis, all.memoryMib)
  {
    if host != [] {
      UsedIsExact(host[1..], commission);
      var own, later := OfCommission(host, commission), OfCommission(host[1..], commission);
      if host[0].commission == commission {
        assert own[0] == host[0].work && own[1..] == later;
      } else {
        assert own == later;
      }
      assert AllWorks(host)[1..] == AllWorks(host[1..]);
    }
  }

  lemma {:induction false} RunningIsOfCommission(host: Host, i: nat)
    requires i < |host|
    ensures host[i].work in OfCommission(host, host[i].commission)
    decreases i
  {
    if i > 0 {
      RunningIsOfCommission(host[1..], i - 1);
    }
  }

  // ----- every step keeps the host safe

  lemma PrefixOfFeasible(works: seq<Task>, n: nat, occupied: seq<OccupiedWork>, used: Resources, ceilings: Resources)
    requires n <= |works| && Feasible(works, occupied, used, ceilings)
    ensures Feasible(works[..n], occupied, used, ceilings)
  {
    assert works == works[..n] + works[n..];
    TotalLoadAppend(works[..n], works[n..]);
  }

  lemma StartedIsFeasible(host: Host, commission: string, candidates: seq<Task>, ceilings: Resources, n: nat)
    requires FitsWords(Used(host, commission)) && n <= |Selection(host, commission, candidates, ceilings)|
    ensures Feasible(Selection(host, commission, candidates, ceilings)[..n], Occupied(OfCommission(host, commission)),
                     AsResources(Used(host, commission)), ceilings)
  {
    var occupied, used := Occupied(OfCommission(host, commission)), AsResources(Used(host, commission));
    GreedyIsFeasible(candidates, occupied, used, ceilings);
    PrefixOfFeasible(Selection(host, commission, candidates, ceilings), n, occupied, used, ceilings);
  }

  lemma StartKeepsNoConflicts(host: Host, commission: string, works: seq<Task>)
    requires NoConflicts(host) && PairwiseCompatible(works)
    requires CompatibleWith(works, Occupied(OfCommission(host, commission)))
    ensures NoConflicts(host + Start(commission, works))
  {
    var host' := host + Start(commission, works);
    forall i, j | 0 <= i < j < |host'| && host'[i].commission == host'[j].commission
      ensures !Conflicts(Occupy(host'[i].work), Occupy(host'[j].work))
    {
      if i < |host| <= j {
        RunningIsOfCommission(host, i);
        var own := OfCommission(host, commission);
        var k :| 0 <= k < |own| && own[k] == host[i].work;
        assert !Conflicts(Occupy(works[j - |host|]), Occupied(own)[k]);
        ConflictIsSymmetric(Occupy(host[i].work), Occupy(works[j - |host|]));
      }
    }
  }

  lemma StartKeepsCeilings(host: Host, commission: string, works: seq<Task>, ceilings: Resources, before: string -> Load, after: string -> Load)
    requires WithinCeilings(host, before) && works != []
    requires AtMost(Plus(Used(host, commission), TotalLoad(works)), AsLoad(ceilings))
    requires after(commission) == AsLoad(ceilings)
    requires forall other :: other != commission ==>
      after(other) == before(other).(cpuMillis := ceilings.cpuMillis, memoryMib := ceilings.memoryMib)
    ensures WithinCeilings(host + Start(commission, works), after)
  {
    var started := Start(commission, works);
    forall other ensures AtMost(Used(host + started, other), after(other)) {
      UsedAppend(host, started, other);
      UsedByStart(commission, works, other);
      HostLoadIsShared(host, commission, other);
      assert AtMost(Used(host, other), before(other));
    }
  }

  lemma FinishKeepsSafe(host: Host, index: nat, inForce: string -> Load)
    requires Safe(host, inForce) && index < |host|
    ensures Safe(host[..index] + host[index + 1..], inForce)
  {
    var before, gone, after := host[..index], host[index..index + 1], host[index + 1..];
    assert host == before + gone + after;
    forall commission ensures AtMost(Used(before + after, commission), inForce(commission)) {
      UsedAppend(before + gone, after, commission);
      UsedAppend(before, gone, commission);
      UsedAppend(before, after, commission);
      assert AtMost(Used(host, commission), inForce(commission));
    }
  }

  lemma DispatchKeepsSafe(host: Host, action: Action, host': Host, before: string -> Load, after: string -> Load)
    requires action.Dispatch? && Safe(host, before) && Step(host, action, host')
    requires forall commission :: after(commission) == CeilingsAfter(before(commission), action, commission)
    ensures Safe(host', after)
  {
    var commission, ceilings := action.commission, action.ceilings;
    StartedIsFeasible(host, commission, action.candidates, ceilings, action.started);
    var works := Selection(host, commission, action.candidates, ceilings)[..action.started];
    StartKeepsNoConflicts(host, commission, works);
    if works == [] {
      assert host' == host;
      forall other ensures AtMost(Used(host, other), after(other)) {
        assert AtMost(Used(host, other), before(other));
      }
    } else {
      StartKeepsCeilings(host, commission, works, ceilings, before, after);
    }
  }

  /** Every step keeps exclusion, and usage within the ceilings then in force. */
  lemma StepKeepsSafe(host: Host, action: Action, host': Host, before: string -> Load, after: string -> Load)
    requires Safe(host, before) && Step(host, action, host')
    requires forall commission :: after(commission) == CeilingsAfter(before(commission), action, commission)
    ensures Safe(host', after)
  {
    match action
    case Dispatch(_, _, _, _) =>
      DispatchKeepsSafe(host, action, host', before, after);
    case Finish(index) =>
      FinishKeepsSafe(host, index, before);
      forall commission ensures AtMost(Used(host', commission), after(commission)) {
        assert AtMost(Used(host', commission), before(commission));
      }
  }

  // ----- every run

  ghost predicate IsRun(states: seq<Host>, actions: seq<Action>) {
    && |states| == |actions| + 1
    && states[0] == []
    && forall k :: 0 <= k < |actions| ==> Step(states[k], actions[k], states[k + 1])
  }

  lemma {:induction false} RunStaysSafe(states: seq<Host>, actions: seq<Action>, k: nat)
    requires IsRun(states, actions) && k < |states|
    ensures Safe(states[k], commission => CeilingsInForce(actions[..k], commission))
  {
    if k > 0 {
      var before, after := actions[..k - 1], actions[..k];
      assert after[..|after| - 1] == before && after[|after| - 1] == actions[k - 1];
      RunStaysSafe(states, actions, k - 1);
      StepKeepsSafe(states[k - 1], actions[k - 1], states[k],
                    commission => CeilingsInForce(before, commission), commission => CeilingsInForce(after, commission));
    }
  }

  ghost predicate SameCompetition(a: Task, b: Task) {
    a.competition.Some? && a.competition == b.competition
  }

  /** In every state of every run, a path is writable by two running Assignments
      of a Commission only inside one competition. */
  lemma WritersExcludeEachOther(states: seq<Host>, actions: seq<Action>, k: nat, i: nat, j: nat, path: string)
    requires IsRun(states, actions) && k < |states|
    requires i < j < |states[k]| && states[k][i].commission == states[k][j].commission
    requires Covers(states[k][i].work.writeScopes, path) && Covers(states[k][j].work.writeScopes, path)
    ensures SameCompetition(states[k][i].work, states[k][j].work)
  {
    RunStaysSafe(states, actions, k);
    OverlapIsSharedPath(states[k][i].work.writeScopes, states[k][j].work.writeScopes);
  }

  lemma {:induction false} CeilingsFitWords(actions: seq<Action>, commission: string)
    ensures FitsWords(CeilingsInForce(actions, commission))
  {
    if actions != [] {
      CeilingsFitWords(actions[..|actions| - 1], commission);
    }
  }

  /** In every state of every run, what is reserved stays within the ceilings of the
      dispatches that last started work, so the recomputed sums that the next
      dispatch starts from fit machine words. */
  lemma UsageStaysWithinCeilings(states: seq<Host>, actions: seq<Action>, k: nat, commission: string)
    requires IsRun(states, actions) && k < |states|
    ensures AtMost(Used(states[k], commission), CeilingsInForce(actions[..k], commission))
    ensures FitsWords(Used(states[k], commission))
  {
    RunStaysSafe(states, actions, k);
    var inForce := commission => CeilingsInForce(actions[..k], commission);
    assert AtMost(Used(states[k], commission), inForce(commission));
    CeilingsFitWords(actions[..k], commission);
  }
}
