/** The contract every structured Worker adapter trace must meet. */
module AdapterContract {
  import opened Prelude
  import opened AdapterEvents
  import Routing

  type SkillVersion = Routing.SkillVersion

  datatype Rejection = InvalidRequest | RequiredSkillUnavailable(skill: SkillVersion)

  datatype Result<+T> = Ok(value: T) | Err(error: Rejection) {
    predicate IsFailure() { Err? }
    function PropagateFailure<U>(): Result<U>
      requires Err?
    {
      Err(error)
    }
    function Extract(): T
      requires Ok?
    {
      value
    }
  }

  datatype Expectation = Expectation(
    containmentProfile: string,
    expectedSkills: seq<SkillVersion>,
    allowedSkills: seq<SkillVersion>,
    commissionId: string,
    assignmentId: string,
    attemptId: string,
    configurationFingerprint: string,
    mandateRevision: int,
    planRevision: int)

  /** Terminal states are compared as strings; only these three are legal. */
  datatype State = NotTerminal | Completed | Interrupted | Failed | OtherState(name: string)

  function StateOf(status: string): State {
    if status == "completed" then Completed
    else if status == "interrupted" then Interrupted
    else if status == "failed" then Failed
    else OtherState(status)
  }

  datatype Lifecycle = Lifecycle(
    started: bool,
    interrupted: bool,
    state: State,
    inputTokens: u64,
    outputTokens: u64,
    usageReported: bool,
    summary: string)

  const FRESH := Lifecycle(false, false, NotTerminal, 0, 0, false, "")

  datatype Report = Report(
    nativeSessionId: string,
    interrupted: bool,
    state: State,
    inputTokens: u64,
    outputTokens: u64,
    nativeSkills: seq<string>,
    skillVersions: seq<SkillVersion>,
    costCents: u64,
    summary: string)

  // ----- fields

  function RequiredString(value: Option<string>): Result<string> {
    if value.Some? && !IsBlank(value.value) then Ok(value.value) else Err(InvalidRequest)
  }

  function Unsigned(e: Event, field: Field): Result<u64> {
    var value := AsU64(e, field);
    if value.Some? then Ok(value.value) else Err(InvalidRequest)
  }

  function Require(condition: bool): Result<()> {
    if condition then Ok(()) else Err(InvalidRequest)
  }

  predicate IsHexDigit(c: char) {
    '0' <= c <= '9' || 'a' <= c <= 'f'
  }

  /** A trimmed name without NUL and a lowercase SHA-256 digest. */
  predicate IsContentIdentified(v: SkillVersion) {
    && v.name != "" && !IsWhitespace(v.name[0]) && !IsWhitespace(v.name[|v.name| - 1])
    && '\0' !in v.name
    && |v.contentDigest| == 71 && "sha256:" <= v.contentDigest
    && forall i :: 7 <= i < 71 ==> IsHexDigit(v.contentDigest[i])
  }

  // ----- the four lifecycle automata, one event at a time

  function CodexStep(l: Lifecycle, e: Event): Result<Lifecycle> {
    match e.rpc
    case TurnStarted => Ok(l.(started := true))
    case TokenUsageUpdated =>
      var input :- Unsigned(e, TotalInputTokens);
      var output :- Unsigned(e, TotalOutputTokens);
      var _ :- Require(!(l.usageReported && (input < l.inputTokens || output < l.outputTokens)));
      Ok(l.(inputTokens := input, outputTokens := output, usageReported := true))
    case TurnCompleted =>
      var status :- RequiredString(AsStr(e, TurnStatus));
      Ok(l.(interrupted := StateOf(status) == Interrupted, state := StateOf(status)))
    case ErrorMethod => Ok(l.(state := Failed))
    case _ => Ok(l)
  }

  function ClaudeStep(l: Lifecycle, e: Event): Result<Lifecycle> {
    match e.typ
    case SessionRunning => Ok(l.(started := true))
    case ModelRequestEnd =>
      var input :- Unsigned(e, SpanInputTokens);
      var _ :- Require(CheckedAdd(l.inputTokens, input).Some?);
      var output :- Unsigned(e, SpanOutputTokens);
      var _ :- Require(CheckedAdd(l.outputTokens, output).Some?);
      Ok(l.(inputTokens := l.inputTokens + input, outputTokens := l.outputTokens + output, usageReported := true))
    case UserInterrupt => Ok(l.(interrupted := true))
    case SessionIdle => Ok(l.(state := if l.interrupted then Interrupted else Completed))
    case SessionError => Ok(l.(state := Failed))
    case _ => Ok(l)
  }

  function PiStep(l: Lifecycle, e: Event): Result<Lifecycle> {
    match e.typ
    case AgentStart => Ok(l.(started := true))
    case PiUsage =>
      var _ :- Require(!l.usageReported);
      var input :- Unsigned(e, InputTokens);
      var output :- Unsigned(e, OutputTokens);
      var cost :- Unsigned(e, Cost);
      var _ :- Require(cost == 0);
      Ok(l.(inputTokens := input, outputTokens := output, usageReported := true))
    case PiInterrupt => Ok(l.(interrupted := true))
    case ExtensionError => Ok(l.(state := Failed))
    case AgentSettled =>
      Ok(if l.state == Failed then l else l.(state := if l.interrupted then Interrupted else Completed))
    case _ => Ok(l)
  }

  function OpenCodeStep(l: Lifecycle, e: Event): Result<Lifecycle> {
    match e.typ
    case OpenCodeStarted => Ok(l.(started := true))
    case OpenCodeUsage =>
      var _ :- Require(!l.usageReported);
      var input :- Unsigned(e, InputTokens);
      var output :- Unsigned(e, OutputTokens);
      Ok(l.(inputTokens := input, outputTokens := output, usageReported := true))
    case OpenCodeInterrupt => Ok(l.(interrupted := true))
    case ErrorType => Ok(l.(state := Failed))
    case OpenCodeSettled =>
      if l.state == Failed then Ok(l)
      else
        var status :- RequiredString(AsStr(e, Status));
        Ok(l.(state := StateOf(status)))
    case _ => Ok(l)
  }

  function LifecycleStep(kind: Kind, l: Lifecycle, e: Event): Result<Lifecycle> {
    match kind
    case Codex => CodexStep(l, e)
    case Claude => ClaudeStep(l, e)
    case Pi => PiStep(l, e)
    case OpenCode => OpenCodeStep(l, e)
  }

  function LifecycleFrom(kind: Kind, l: Lifecycle, events: seq<Event>): Result<Lifecycle>
    decreases |events|
  {
    if events == [] then Ok(l)
    else
      var next :- LifecycleStep(kind, l, events[0]);
      LifecycleFrom(kind, next, events[1..])
  }

  /** The event loop of the `*_lifecycle` functions. */
  method RunLifecycle(kind: Kind, events: seq<Event>) returns (result: Result<Lifecycle>)
    ensures result == LifecycleFrom(kind, FRESH, events)
  {
    var lifecycle := FRESH;
    for i := 0 to |events|
      invariant LifecycleFrom(kind, FRESH, events) == LifecycleFrom(kind, lifecycle, events[i..])
    {
      assert events[i..][1..] == events[i + 1..];
      var next := LifecycleStep(kind, lifecycle, events[i]);
      if next.Err? {
        return next;
      }
      lifecycle := next.value;
    }
    return Ok(lifecycle);
  }

  // ----- order

  /** The positions, in order, at which the events are in a phase. */
  function Positions(kind: Kind, events: seq<Event>, phase: Phase): (r: seq<nat>)
    ensures forall i :: 0 <= i < |r| ==> r[i] < |events| && PhaseOf(kind, events[r[i]]) == phase
    ensures forall k: nat :: k < |events| && PhaseOf(kind, events[k]) == phase ==> k in r
    ensures forall i, j :: 0 <= i < j < |r| ==> r[i] < r[j]
  {
    if events == [] then []
    else
      var last := |events| - 1;
      var earlier := Positions(kind, events[..last], phase);
      assert forall k: nat :: k < last ==> events[..last][k] == events[k];
      earlier + if PhaseOf(kind, events[last]) == phase then [last] else []
  }

  function ValidateLifecycleOrder(kind: Kind, events: seq<Event>): Result<()> {
    var starts, terminals := Positions(kind, events, Starts), Positions(kind, events, Terminates);
    var _ :- Require(|starts| == 1 && |terminals| == 1);
    var _ :- Require(starts[0] < terminals[0]);
    Require(forall u | u in Positions(kind, events, ReportsUsage) :: starts[0] < u < terminals[0])
  }

  // ----- Skills

  function NativeSkillNames(skills: seq<Option<string>>): Result<seq<string>> {
    if skills == [] then Ok([])
    else
      var _ :- Require(skills[0].Some?);
      var rest :- NativeSkillNames(skills[1..]);
      Ok([skills[0].value] + rest)
  }

  function FindMissing(expected: seq<SkillVersion>, present: seq<SkillVersion>): Option<SkillVersion> {
    if expected == [] then None
    else if expected[0] !in present then Some(expected[0])
    else FindMissing(expected[1..], present)
  }

  function FindUndiscovered(expected: seq<SkillVersion>, native: seq<string>): Option<SkillVersion> {
    if expected == [] then None
    else if expected[0].name !in native then Some(expected[0])
    else FindUndiscovered(expected[1..], native)
  }

  function FindNamed(versions: seq<SkillVersion>, name: string): Option<SkillVersion> {
    if versions == [] then None
    else if versions[0].name == name then Some(versions[0])
    else FindNamed(versions[1..], name)
  }

  function VersionOf(name: Option<string>, digest: Option<string>, source: Option<string>): Result<SkillVersion> {
    var name :- RequiredString(name);
    var digest :- RequiredString(digest);
    var _ :- RequiredString(source);
    Ok(Routing.SkillVersion(name, digest))
  }

  /** One preparation of the ready event, after those already accepted. */
  function AcceptPreparation(p: Preparation, prior: seq<SkillVersion>, expectation: Expectation): Result<SkillVersion> {
    var version :- VersionOf(p.name, p.contentDigest, p.source);
    if !IsContentIdentified(version) then
      var expected := FindNamed(expectation.expectedSkills, version.name);
      Err(if expected.Some? then RequiredSkillUnavailable(expected.value) else InvalidRequest)
    else
      var _ :- Require(version in expectation.allowedSkills && version !in prior);
      Ok(version)
  }

  function PreparedVersions(ps: seq<Preparation>, prior: seq<SkillVersion>, expectation: Expectation): Result<seq<SkillVersion>> {
    if ps == [] then Ok(prior)
    else
      var version :- AcceptPreparation(ps[0], prior, expectation);
      PreparedVersions(ps[1..], prior + [version], expectation)
  }

  /** One invocation, after the versions already invoked. */
  function AcceptInvocation(e: Event, prior: seq<SkillVersion>, native: seq<string>, allowed: seq<SkillVersion>): Result<seq<SkillVersion>> {
    var version :- VersionOf(AsStr(e, SkillName), AsStr(e, ContentDigest), AsStr(e, Source));
    var _ :- Require(IsContentIdentified(version) && version in allowed && version.name in native);
    var known := FindNamed(prior, version.name);
    var _ :- Require(known.Some? ==> known.value == version);
    Ok(if known.Some? then prior else prior + [version])
  }

  function InvokedFrom(trace: seq<Event>, prior: seq<SkillVersion>, native: seq<string>, allowed: seq<SkillVersion>): Result<seq<SkillVersion>> {
    if trace == [] then Ok(prior)
    else if trace[0].typ != SkillInvoked then InvokedFrom(trace[1..], prior, native, allowed)
    else
      var versions :- AcceptInvocation(trace[0], prior, native, allowed);
      InvokedFrom(trace[1..], versions, native, allowed)
  }

  /** The invocation loop. */
  method InvokedSkillVersions(trace: seq<Event>, native: seq<string>, allowed: seq<SkillVersion>)
    returns (result: Result<seq<SkillVersion>>)
    ensures result == InvokedFrom(trace, [], native, allowed)
  {
    var invoked := [];
    for i := 0 to |trace|
      invariant InvokedFrom(trace, [], native, allowed) == InvokedFrom(trace[i..], invoked, native, allowed)
    {
      assert trace[i..][1..] == trace[i + 1..];
      if trace[i].typ == SkillInvoked {
        var next := AcceptInvocation(trace[i], invoked, native, allowed);
        if next.Err? {
          return next;
        }
        invoked := next.value;
      }
    }
    return Ok(invoked);
  }

  // ----- the typed Result

  predicate IsBound(e: Event, expectation: Expectation) {
    && AsStr(e, CommissionId) == Some(expectation.commissionId)
    && AsStr(e, AssignmentId) == Some(expectation.assignmentId)
    && AsStr(e, AttemptId) == Some(expectation.attemptId)
    && AsI64(e, MandateRevision) == Some(expectation.mandateRevision)
    && AsI64(e, PlanRevision) == Some(expectation.planRevision)
  }

  datatype Submission = Submission(summary: string, costCents: u64)

  function ValidateResult(e: Event, expectation: Expectation): Result<Submission> {
    var _ :- Require(IsBound(e, expectation));
    var _ :- Require(e.knownEffects == Some(0));
    var summary :- RequiredString(AsStr(e, Summary));
    var cost :- Unsigned(e, CostCents);
    Ok(Submission(summary, cost))
  }

  function TypedResults(trace: seq<Event>): (r: seq<Event>)
    ensures |r| <= |trace|
  {
    if trace == [] then []
    else (if trace[0].typ == TypedResult then [trace[0]] else []) + TypedResults(trace[1..])
  }

  function ReadyCount(trace: seq<Event>): nat {
    if trace == [] then 0 else (if trace[0].typ == Ready then 1 else 0) + ReadyCount(trace[1..])
  }

  // ----- the whole trace

  /** Identity and containment as the ready event attests them. */
  function ValidateReady(ready: Event, expectation: Expectation): Result<string> {
    var session :- RequiredString(AsStr(ready, NativeSessionId));
    var _ :- Require(AsStr(ready, ConfigurationFingerprint) == Some(expectation.configurationFingerprint));
    var profile :- RequiredString(AsStr(ready, ContainmentProfile));
    var _ :- Require(ready.containmentEnforced);
    var _ :- Require(profile == expectation.containmentProfile);
    Ok(session)
  }

  /** The native Skills, once every pinned Skill is discovered, prepared and invoked. */
  function ValidateSkills(trace: seq<Event>, expectation: Expectation): Result<(seq<string>, seq<SkillVersion>)>
    requires trace != []
  {
    var ready, expected := trace[0], expectation.expectedSkills;
    var _ :- Require(ready.nativeSkills.Some?);
    var native :- NativeSkillNames(ready.nativeSkills.value);
    var undiscovered := FindUndiscovered(expected, native);
    if undiscovered.Some? then Err(RequiredSkillUnavailable(undiscovered.value))
    else if ready.preparations.None? then
      Err(if expected == [] then InvalidRequest else RequiredSkillUnavailable(expected[0]))
    else
      var prepared :- PreparedVersions(ready.preparations.value, [], expectation);
      if prepared != expected then
        var missing := FindMissing(expected, prepared);
        Err(if missing.Some? then RequiredSkillUnavailable(missing.value) else InvalidRequest)
      else
        var invoked :- InvokedFrom(trace, [], native, expectation.allowedSkills);
        var uninvoked := FindMissing(expected, invoked);
        if uninvoked.Some? then Err(RequiredSkillUnavailable(uninvoked.value)) else Ok((native, invoked))
  }

  /** The typed Result, if the trace has one. */
  function ValidateResults(trace: seq<Event>, expectation: Expectation): Result<Option<Submission>> {
    var results := TypedResults(trace);
    var _ :- Require(|results| <= 1);
    if results == [] then Ok(None)
    else
      var submission :- ValidateResult(results[0], expectation);
      Ok(Some(submission))
  }

  /** The lifecycle of the vendor events, with the Result's summary. */
  function ValidateLifecycle(kind: Kind, events: seq<Event>, submission: Option<Submission>): Result<Lifecycle> {
    var folded :- LifecycleFrom(kind, FRESH, events);
    var _ :- ValidateLifecycleOrder(kind, events);
    var lifecycle := if submission.Some? then folded.(summary := submission.value.summary) else folded;
    var _ :- Require(lifecycle.started);
    var _ :- Require(lifecycle.state in {Completed, Interrupted, Failed});
    var _ :- Require(lifecycle.interrupted == (lifecycle.state == Interrupted));
    var _ :- Require(lifecycle.usageReported);
    var _ :- Require(!(lifecycle.state == Completed && IsBlank(lifecycle.summary)));
    Ok(lifecycle)
  }

  function ValidateTrace(kind: Kind, trace: seq<Event>, expectation: Expectation): Result<Report> {
    var _ :- Require(trace != [] && trace[0].typ == Ready);
    var _ :- Require(ReadyCount(trace) == 1);
    var session :- ValidateReady(trace[0], expectation);
    var skills :- ValidateSkills(trace, expectation);
    var submission :- ValidateResults(trace, expectation);
    var l :- ValidateLifecycle(kind, VendorEvents(trace), submission);
    var cost := if submission.Some? then submission.value.costCents else 0;
    Ok(Report(session, l.interrupted, l.state, l.inputTokens, l.outputTokens, skills.0, skills.1, cost, l.summary))
  }
}
