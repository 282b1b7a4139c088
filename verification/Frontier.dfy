/** The execution frontier: greedy admission of ready work under write-scope
    exclusion and four resource ceilings. */
module Frontier {
  import opened Prelude
  import opened Scopes

  datatype Resources = Resources(concurrency: u64, storage: u64, cpuMillis: u64, memoryMib: u64)

  datatype Competition = Competition(group: string, uncertainty: string, rule: string)

  datatype Work<T> = Work(
    item: T,
    writeScopes: seq<string>,
    competition: Option<Competition>,
    resources: Resources)

  datatype OccupiedWork = OccupiedWork(writeScopes: seq<string>, competition: Option<Competition>)

  datatype HoldReason =
    | DeclaredWriteOverlap
    | CompleteResourceBudgetUnavailable
    | HostCapacityUnavailable

  datatype Decision = Admitted | Held(reason: HoldReason)

  function Occupy<T>(work: Work<T>): OccupiedWork {
    OccupiedWork(work.writeScopes, work.competition)
  }

  predicate CompetitionsMatch(left: Option<Competition>, right: Option<Competition>) {
    left.Some? && left == right
  }

  predicate Conflicts(left: OccupiedWork, right: OccupiedWork) {
    ScopesOverlap(left.writeScopes, right.writeScopes) && !CompetitionsMatch(left.competition, right.competition)
  }

  predicate Within(sum: Option<u64>, ceiling: u64) {
    sum.Some? && sum.value <= ceiling
  }

  predicate ResourcesFit(used: Resources, requested: Resources, ceilings: Resources) {
    && Within(CheckedAdd(used.concurrency, requested.concurrency), ceilings.concurrency)
    && Within(CheckedAdd(used.storage, requested.storage), ceilings.storage)
  }

  predicate HostFits(used: Resources, requested: Resources, ceilings: Resources) {
    && Within(CheckedAdd(used.cpuMillis, requested.cpuMillis), ceilings.cpuMillis)
    && Within(CheckedAdd(used.memoryMib, requested.memoryMib), ceilings.memoryMib)
  }

  /** Unchecked additions: the guards are what keeps every field a `u64`. */
  function Reserve(used: Resources, requested: Resources, ghost ceilings: Resources): Resources
    requires ResourcesFit(used, requested, ceilings) && HostFits(used, requested, ceilings)
  {
    Resources(used.concurrency + requested.concurrency,
              used.storage + requested.storage,
              used.cpuMillis + requested.cpuMillis,
              used.memoryMib + requested.memoryMib)
  }

  function Judge(candidate: OccupiedWork, resources: Resources, occupied: seq<OccupiedWork>,
                 used: Resources, ceilings: Resources): Decision
  {
    if exists i :: 0 <= i < |occupied| && Conflicts(candidate, occupied[i]) then Held(DeclaredWriteOverlap)
    else if !ResourcesFit(used, resources, ceilings) then Held(CompleteResourceBudgetUnavailable)
    else if !HostFits(used, resources, ceilings) then Held(HostCapacityUnavailable)
    else Admitted
  }

  /** The decision on each candidate, in order, as the loop of `Select` takes it. */
  ghost function Greedy<T>(candidates: seq<Work<T>>, occupied: seq<OccupiedWork>,
                           used: Resources, ceilings: Resources): (decisions: seq<Decision>)
    ensures |decisions| == |candidates|
  {
    if candidates == [] then []
    else
      var first := candidates[0];
      var decision := Judge(Occupy(first), first.resources, occupied, used, ceilings);
      [decision] +
      if decision.Admitted?
      then Greedy(candidates[1..], occupied + [Occupy(first)], Reserve(used, first.resources, ceilings), ceilings)
      else Greedy(candidates[1..], occupied, used, ceilings)
  }

  ghost function Chosen(decisions: seq<Decision>): (mask: seq<bool>)
    ensures |mask| == |decisions|
    ensures forall i :: 0 <= i < |mask| ==> mask[i] == decisions[i].Admitted?
  {
    seq(|decisions|, i requires 0 <= i < |decisions| => decisions[i].Admitted?)
  }

  /** The candidates a mask picks, in order. */
  ghost function Pick<T>(candidates: seq<Work<T>>, mask: seq<bool>): seq<Work<T>>
    requires |mask| == |candidates|
  {
    if candidates == [] then []
    else (if mask[0] then [candidates[0]] else []) + Pick(candidates[1..], mask[1..])
  }

  ghost function SelectedItems<T>(candidates: seq<Work<T>>, decisions: seq<Decision>): seq<T>
    requires |decisions| == |candidates|
  {
    if candidates == [] then []
    else (if decisions[0].Admitted? then [candidates[0].item] else []) + SelectedItems(candidates[1..], decisions[1..])
  }

  ghost function HeldItems<T>(candidates: seq<Work<T>>, decisions: seq<Decision>): seq<(T, HoldReason)>
    requires |decisions| == |candidates|
  {
    if candidates == [] then []
    else (if decisions[0].Admitted? then [] else [(candidates[0].item, decisions[0].reason)])
         + HeldItems(candidates[1..], decisions[1..])
  }

  lemma UnfoldFirst<T>(candidates: seq<Work<T>>, decisions: seq<Decision>,
                       selected: seq<T>, held: seq<(T, HoldReason)>)
    requires |decisions| == |candidates| > 0
    ensures var item, rest, todo := candidates[0].item, candidates[1..], decisions[1..];
      match decisions[0]
      case Admitted =>
        && selected + SelectedItems(candidates, decisions) == (selected + [item]) + SelectedItems(rest, todo)
        && HeldItems(candidates, decisions) == HeldItems(rest, todo)
      case Held(reason) =>
        && SelectedItems(candidates, decisions) == SelectedItems(rest, todo)
        && held + HeldItems(candidates, decisions) == (held + [(item, reason)]) + HeldItems(rest, todo)
  {
  }

  method Select<T>(candidates: seq<Work<T>>, initiallyOccupied: seq<OccupiedWork>,
                   initiallyUsed: Resources, ceilings: Resources)
    returns (selected: seq<T>, held: seq<(T, HoldReason)>)
    ensures var decisions := Greedy(candidates, initiallyOccupied, initiallyUsed, ceilings);
      && selected == SelectedItems(candidates, decisions)
      && held == HeldItems(candidates, decisions)
  {
    selected, held := [], [];
    var occupied, used := initiallyOccupied, initiallyUsed;
    ghost var decisions := Greedy(candidates, occupied, used, ceilings);
    ghost var rest, todo := candidates, decisions;
    for k := 0 to |candidates|
      invariant rest == candidates[k..]
      invariant todo == Greedy(rest, occupied, used, ceilings)
      invariant SelectedItems(candidates, decisions) == selected + SelectedItems(rest, todo)
      invariant HeldItems(candidates, decisions) == held + HeldItems(rest, todo)
    {
      var candidate := candidates[k];
      UnfoldFirst(rest, todo, selected, held);
      var conflicts := exists i :: 0 <= i < |occupied| && Conflicts(Occupy(candidate), occupied[i]);
      if conflicts {
        held := held + [(candidate.item, DeclaredWriteOverlap)];
      } else if !ResourcesFit(used, candidate.resources, ceilings) {
        held := held + [(candidate.item, CompleteResourceBudgetUnavailable)];
      } else if !HostFits(used, candidate.resources, ceilings) {
        held := held + [(candidate.item, HostCapacityUnavailable)];
      } else {
        used := Reserve(used, candidate.resources, ceilings);
        occupied := occupied + [Occupy(candidate)];
        selected := selected + [candidate.item];
      }
      rest, todo := rest[1..], todo[1..];
    }
  }
}
