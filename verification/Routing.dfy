/** Worker routing: hard gates, the seven-key preference order and the bounded fallback. */
module Routing {
  import opened Prelude

  datatype AdapterKind =
    | CodexAppServer
    | ClaudeAgentSdk
    | PiRpc
    | OpenCodeServer
    | DeterministicLocal
    | ContainedCodex

  datatype SkillVersion = SkillVersion(name: string, contentDigest: string)

  /** Scores in basis points (higher is better), elapsed time and cost (lower is better). */
  datatype Metrics = Metrics(
    expectedVerifiedCorrectness: nat,
    preferenceAdherence: nat,
    firstPassAcceptance: nat,
    elapsedMs: nat,
    costCents: nat,
    continuity: nat)

  datatype Configuration = Configuration(
    id: string,
    kind: AdapterKind,
    productionQualified: bool,
    tools: seq<string>,
    skills: seq<SkillVersion>,
    selectedSkills: seq<SkillVersion>,
    contextStrategy: string,
    capacityTokens: nat,
    maxConcurrencySlots: nat,
    maxStorageBytes: nat,
    capabilities: seq<string>,
    authorityActions: seq<string>,
    authorityScopeTypes: seq<string>,
    assignmentConstraints: seq<string>,
    replacementClass: string,
    available: bool,
    metrics: Metrics)

  datatype Request = Request(
    requireConfigurations: seq<string>,
    excludeConfigurations: seq<string>,
    capabilities: seq<string>,
    tools: seq<string>,
    skills: seq<SkillVersion>,
    selectedSkills: seq<SkillVersion>,
    minContextTokens: nat,
    contextStrategy: Option<string>,
    assignmentConstraints: seq<string>,
    concurrencySlots: nat,
    maxStorageBytes: nat,
    authorityAction: string,
    authorityScopeTypes: seq<string>)

  // ----- gates

  datatype Gate =
    | ProductionQualification
    | RequiredConfiguration
    | ExcludedConfiguration
    | RequiredCapabilities
    | RequiredTools
    | RequiredSkills
    | PiSingleNativeSkill
    | ContextCapacity
    | ContextStrategy
    | AssignmentConstraints
    | AuthorityCompatibility
    | AuthorityScopeCompatibility
    | ResourceLimits

  const GATE_ORDER: seq<Gate> := [
    ProductionQualification, RequiredConfiguration, ExcludedConfiguration, RequiredCapabilities, RequiredTools,
    RequiredSkills, PiSingleNativeSkill, ContextCapacity, ContextStrategy, AssignmentConstraints,
    AuthorityCompatibility, AuthorityScopeCompatibility, ResourceLimits]

  predicate ContainsAll<T(==)>(actual: seq<T>, required: seq<T>) {
    forall x | x in required :: x in actual
  }

  predicate OtherVersionRequired(selected: SkillVersion, required: seq<SkillVersion>) {
    exists x | x in required :: x.name == selected.name && x.contentDigest != selected.contentDigest
  }

  function SkillNames(skills: seq<SkillVersion>): set<string> {
    set s | s in skills :: s.name
  }

  predicate GateFails(gate: Gate, c: Configuration, r: Request) {
    match gate
    case ProductionQualification => c.kind == PiRpc && !c.productionQualified
    case RequiredConfiguration => r.requireConfigurations != [] && c.id !in r.requireConfigurations
    case ExcludedConfiguration => c.id in r.excludeConfigurations
    case RequiredCapabilities => !ContainsAll(c.capabilities, r.capabilities)
    case RequiredTools => !ContainsAll(c.tools, r.tools)
    case RequiredSkills =>
      || !ContainsAll(c.skills, r.skills)
      || !ContainsAll(c.skills, r.selectedSkills)
      || exists s | s in c.selectedSkills :: OtherVersionRequired(s, r.skills) || OtherVersionRequired(s, r.selectedSkills)
    case PiSingleNativeSkill =>
      && c.kind == PiRpc && c.productionQualified
      && |SkillNames(r.skills) + SkillNames(r.selectedSkills) + SkillNames(c.selectedSkills)| > 1
    case ContextCapacity => c.capacityTokens < r.minContextTokens
    case ContextStrategy => r.contextStrategy.Some? && r.contextStrategy.value != c.contextStrategy
    case AssignmentConstraints => !ContainsAll(c.assignmentConstraints, r.assignmentConstraints)
    case AuthorityCompatibility => r.authorityAction !in c.authorityActions
    case AuthorityScopeCompatibility => !ContainsAll(c.authorityScopeTypes, r.authorityScopeTypes)
    case ResourceLimits => r.concurrencySlots > c.maxConcurrencySlots || r.maxStorageBytes > c.maxStorageBytes
  }

  /** The failed gates, in the order in which they are judged. */
  function FailedGates(c: Configuration, r: Request): (failures: seq<Gate>)
    ensures forall gate :: gate in failures <==> GateFails(gate, c, r)
    ensures failures == [] <==> Eligible(c, r)
  {
    var failures := Filter(GATE_ORDER, gate => GateFails(gate, c, r));
    assert forall gate :: GateFails(gate, c, r) ==> gate in failures by {
      forall gate | GateFails(gate, c, r) ensures gate in failures {
        EveryGateIsListed();
        FilterKeeps(GATE_ORDER, g => GateFails(g, c, r), gate);
      }
    }
    assert failures != [] ==> GateFails(failures[0], c, r);
    failures
  }

  predicate Eligible(c: Configuration, r: Request) {
    forall gate :: !GateFails(gate, c, r)
  }

  lemma EveryGateIsListed()
    ensures forall gate :: gate in GATE_ORDER
  {
    forall gate: Gate ensures gate in GATE_ORDER {
      match gate
      case ProductionQualification => assert GATE_ORDER[0] == gate;
      case RequiredConfiguration => assert GATE_ORDER[1] == gate;
      case ExcludedConfiguration => assert GATE_ORDER[2] == gate;
      case RequiredCapabilities => assert GATE_ORDER[3] == gate;
      case RequiredTools => assert GATE_ORDER[4] == gate;
      case RequiredSkills => assert GATE_ORDER[5] == gate;
      case PiSingleNativeSkill => assert GATE_ORDER[6] == gate;
      case ContextCapacity => assert GATE_ORDER[7] == gate;
      case ContextStrategy => assert GATE_ORDER[8] == gate;
      case AssignmentConstraints => assert GATE_ORDER[9] == gate;
      case AuthorityCompatibility => assert GATE_ORDER[10] == gate;
      case AuthorityScopeCompatibility => assert GATE_ORDER[11] == gate;
      case ResourceLimits => assert GATE_ORDER[12] == gate;
    }
  }

  // ----- the preference order

  datatype Ordering = Less | Equal | Greater

  function CompareNat(a: nat, b: nat): Ordering {
    if a < b then Less else if a == b then Equal else Greater
  }

  function CompareString(a: string, b: string): Ordering {
    if a == [] then (if b == [] then Equal else Less)
    else if b == [] then Greater
    else if a[0] < b[0] then Less
    else if a[0] > b[0] then Greater
    else CompareString(a[1..], b[1..])
  }

  /** `Ordering::then_with`. */
  function Then(first: Ordering, second: Ordering): Ordering {
    if first.Equal? then second else first
  }

  function CompareConfigurations(left: Configuration, right: Configuration): Ordering {
    var l, r := left.metrics, right.metrics;
    Then(CompareNat(r.expectedVerifiedCorrectness, l.expectedVerifiedCorrectness),
    Then(CompareNat(r.preferenceAdherence, l.preferenceAdherence),
    Then(CompareNat(r.firstPassAcceptance, l.firstPassAcceptance),
    Then(CompareNat(l.elapsedMs, r.elapsedMs),
    Then(CompareNat(l.costCents, r.costCents),
    Then(CompareNat(r.continuity, l.continuity),
         CompareString(left.id, right.id)))))))
  }

  predicate Precedes(left: Configuration, right: Configuration) {
    CompareConfigurations(left, right).Less?
  }

  // ----- routing

  predicate IsStructured(kind: AdapterKind) {
    kind == CodexAppServer || kind == ClaudeAgentSdk || kind == PiRpc || kind == OpenCodeServer
  }

  /** `executable` holds the ids whose adapter file on disk has its pinned digest. */
  predicate IsAvailable(c: Configuration, executable: set<string>) {
    && c.available
    && (c.kind == PiRpc ==> c.productionQualified)
    && (IsStructured(c.kind) ==> c.id in executable)
  }

  predicate ApproximatelyEqual(preferred: Configuration, candidate: Configuration) {
    var p, c := preferred.metrics, candidate.metrics;
    && preferred.replacementClass == candidate.replacementClass
    && SaturatingSub(p.expectedVerifiedCorrectness, c.expectedVerifiedCorrectness) <= 100
    && SaturatingSub(p.preferenceAdherence, c.preferenceAdherence) <= 100
    && SaturatingSub(p.firstPassAcceptance, c.firstPassAcceptance) <= 100
  }

  predicate IsUsable(c: Configuration, executable: set<string>, unavailable: set<string>) {
    IsAvailable(c, executable) && c.id !in unavailable
  }

  datatype Ineligible = Ineligible(configurationId: string, failedGates: seq<Gate>)

  datatype Status = Selected | AttentionRequired

  /** What is asked of the Principal when nothing is selected. */
  datatype Attention = MakeAvailableOrApprove(configurationId: string) | ProvideConfiguration

  datatype RouteDecision = RouteDecision(
    status: Status,
    attention: Option<Attention>,
    selected: Option<Configuration>,
    eligible: seq<string>,
    ineligible: seq<Ineligible>,
    preferredUnavailable: Option<string>,
    automaticReplacement: Option<string>)

  /** A stable insertion into a list sorted by the preference order. */
  function Insert(c: Configuration, sorted: seq<Configuration>): seq<Configuration> {
    if sorted == [] then [c]
    else if Precedes(sorted[0], c) then [sorted[0]] + Insert(c, sorted[1..])
    else [c] + sorted
  }

  function Sort(configurations: seq<Configuration>): seq<Configuration> {
    if configurations == [] then [] else Insert(configurations[0], Sort(configurations[1..]))
  }

  /** The gates a configuration fails for the request at hand. */
  type Gates = Configuration -> seq<Gate>

  function GatesFor(r: Request): Gates {
    c => FailedGates(c, r)
  }

  function EligibleOf(catalog: seq<Configuration>, gates: Gates): seq<Configuration> {
    if catalog == [] then []
    else (if gates(catalog[0]) == [] then [catalog[0]] else []) + EligibleOf(catalog[1..], gates)
  }

  function IneligibleOf(catalog: seq<Configuration>, gates: Gates): seq<Ineligible> {
    if catalog == [] then []
    else (if gates(catalog[0]) == [] then [] else [Ineligible(catalog[0].id, gates(catalog[0]))])
         + IneligibleOf(catalog[1..], gates)
  }

  function Ids(configurations: seq<Configuration>): seq<string> {
    if configurations == [] then [] else [configurations[0].id] + Ids(configurations[1..])
  }

  /** The usable configurations approximately equal to the preferred one, best first. */
  function Alternatives(sorted: seq<Configuration>, preferred: Configuration,
                        executable: set<string>, unavailable: set<string>): seq<Configuration>
  {
    if sorted == [] then []
    else (if IsUsable(sorted[0], executable, unavailable) && ApproximatelyEqual(preferred, sorted[0])
          then [sorted[0]] else []) + Alternatives(sorted[1..], preferred, executable, unavailable)
  }

  /** The first usable configuration approximately equal to the preferred one. */
  method FindReplacement(candidates: seq<Configuration>, preferred: Configuration,
                         executable: set<string>, unavailable: set<string>) returns (found: Option<Configuration>)
    ensures var alternatives := Alternatives(candidates, preferred, executable, unavailable);
      found == if alternatives == [] then None else Some(alternatives[0])
  {
    ghost var rest := candidates;
    for i := 0 to |candidates|
      invariant rest == candidates[i..]
      invariant Alternatives(candidates, preferred, executable, unavailable)
             == Alternatives(rest, preferred, executable, unavailable)
    {
      var candidate := candidates[i];
      if IsUsable(candidate, executable, unavailable) && ApproximatelyEqual(preferred, candidate) {
        return Some(candidate);
      }
      rest := rest[1..];
    }
    return None;
  }

  ghost function SelectedBy(sorted: seq<Configuration>, executable: set<string>, unavailable: set<string>): Option<Configuration> {
    if sorted == [] then None
    else
      var alternatives := Alternatives(sorted, sorted[0], executable, unavailable);
      if alternatives == [] then None else Some(alternatives[0])
  }

  /** The decision as a function of its inputs: the whole selection is the best
      usable configuration approximately equal to the preferred one. */
  ghost function RouteOf(catalog: seq<Configuration>, gates: Gates,
                         executable: set<string>, unavailable: set<string>): RouteDecision
  {
    var sorted := Sort(EligibleOf(catalog, gates));
    var selected := SelectedBy(sorted, executable, unavailable);
    var missed := sorted != [] && !IsUsable(sorted[0], executable, unavailable);
    RouteDecision(
      if selected.Some? then Selected else AttentionRequired,
      if selected.Some? then None
      else if sorted == [] then Some(ProvideConfiguration) else Some(MakeAvailableOrApprove(sorted[0].id)),
      selected, Ids(sorted), IneligibleOf(catalog, gates),
      if missed then Some(sorted[0].id) else None,
      if missed && selected.Some? then Some(selected.value.id) else None)
  }

  /** The gate loop: pushes each configuration onto one of the two lists. */
  method Partition(catalog: seq<Configuration>, gates: Gates)
    returns (eligible: seq<Configuration>, ineligible: seq<Ineligible>)
    ensures eligible == EligibleOf(catalog, gates)
    ensures ineligible == IneligibleOf(catalog, gates)
  {
    eligible, ineligible := [], [];
    ghost var rest := catalog;
    for i := 0 to |catalog|
      invariant rest == catalog[i..]
      invariant EligibleOf(catalog, gates) == eligible + EligibleOf(rest, gates)
      invariant IneligibleOf(catalog, gates) == ineligible + IneligibleOf(rest, gates)
    {
      var failures := gates(catalog[i]);
      UnfoldEligible(rest, gates, eligible);
      UnfoldIneligible(rest, gates, ineligible);
      if failures == [] {
        eligible := eligible + [catalog[i]];
      } else {
        ineligible := ineligible + [Ineligible(catalog[i].id, failures)];
      }
      rest := rest[1..];
    }
  }

  /** Routing for any gates. */
  method RouteBy(catalog: seq<Configuration>, gates: Gates, executable: set<string>, unavailable: set<string>)
    returns (decision: RouteDecision)
    ensures decision == RouteOf(catalog, gates, executable, unavailable)
  {
    var eligible, ineligible := Partition(catalog, gates);
    eligible := Sort(eligible);
    var ids := Ids(eligible);
    if eligible == [] {
      return RouteDecision(AttentionRequired, Some(ProvideConfiguration), None, ids, ineligible, None, None);
    }
    var preferred := eligible[0];
    if IsUsable(preferred, executable, unavailable) {
      UsablePreferredIsSelected(eligible, executable, unavailable);
      return RouteDecision(Selected, None, Some(preferred), ids, ineligible, None, None);
    }
    UnusablePreferredIsReplaced(eligible, executable, unavailable);
    var replacement := FindReplacement(eligible[1..], preferred, executable, unavailable);
    var replacementId := if replacement.Some? then Some(replacement.value.id) else None;
    var attention := if replacement.Some? then None else Some(MakeAvailableOrApprove(preferred.id));
    return RouteDecision(if replacement.Some? then Selected else AttentionRequired, attention,
                         replacement, ids, ineligible, Some(preferred.id), replacementId);
  }

  method Route(catalog: seq<Configuration>, r: Request, executable: set<string>, unavailable: set<string>)
    returns (decision: RouteDecision)
    ensures decision == RouteOf(catalog, GatesFor(r), executable, unavailable)
  {
    decision := RouteBy(catalog, GatesFor(r), executable, unavailable);
  }

  lemma UnfoldEligible(catalog: seq<Configuration>, gates: Gates, before: seq<Configuration>)
    requires catalog != []
    ensures before + EligibleOf(catalog, gates)
         == (if gates(catalog[0]) == [] then before + [catalog[0]] else before) + EligibleOf(catalog[1..], gates)
  {
    var head, later := if gates(catalog[0]) == [] then [catalog[0]] else [], EligibleOf(catalog[1..], gates);
    AppendIsAssociative(before, head, later);
    assert before + [] == before;
  }

  lemma UnfoldIneligible(catalog: seq<Configuration>, gates: Gates, before: seq<Ineligible>)
    requires catalog != []
    ensures before + IneligibleOf(catalog, gates)
         == (if gates(catalog[0]) == [] then before else before + [Ineligible(catalog[0].id, gates(catalog[0]))])
            + IneligibleOf(catalog[1..], gates)
  {
    var head := if gates(catalog[0]) == [] then [] else [Ineligible(catalog[0].id, gates(catalog[0]))];
    AppendIsAssociative(before, head, IneligibleOf(catalog[1..], gates));
    assert before + [] == before;
  }

  lemma UsablePreferredIsSelected(sorted: seq<Configuration>, executable: set<string>, unavailable: set<string>)
    requires sorted != [] && IsUsable(sorted[0], executable, unavailable)
    ensures SelectedBy(sorted, executable, unavailable) == Some(sorted[0])
  {
    assert ApproximatelyEqual(sorted[0], sorted[0]);
  }

  lemma UnusablePreferredIsReplaced(sorted: seq<Configuration>, executable: set<string>, unavailable: set<string>)
    requires sorted != [] && !IsUsable(sorted[0], executable, unavailable)
    ensures Alternatives(sorted, sorted[0], executable, unavailable)
         == Alternatives(sorted[1..], sorted[0], executable, unavailable)
  {
  }
}
