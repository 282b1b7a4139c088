/** Structured adapter events as the control plane reads them. An event is JSON;
    the model keeps its `type`, its JSON-RPC `method` (here `rpc`) and a typed view of each field that
    some reader asks for. Nothing ties the fields to the `type`: adapters are
    separate processes and may emit any combination. */
module AdapterEvents {
  import opened Prelude

  datatype Kind = Codex | Claude | Pi | OpenCode

  datatype TypeName =
    | NoType
    // emitted by every adapter
    | Ready | SkillInvoked | TypedResult
    // Claude
    | SessionRunning | AgentMessage | ModelRequestEnd | UserInterrupt | SessionIdle | SessionError
    // Pi
    | AgentStart | MessageEnd | PiUsage | PiInterrupt | ExtensionError | AgentSettled | Response
    // OpenCode
    | OpenCodeStarted | ToolUse | Text | StepStart | StepFinish | OpenCodeUsage | OpenCodeInterrupt
    | ErrorType | OpenCodeSettled
    | OtherType(name: string)

  datatype MethodName =
    | NoMethod
    | TurnStarted | ItemCompleted | TokenUsageUpdated | TurnCompleted | ErrorMethod
    | OtherMethod(name: string)

  /** The paths at which strings and numbers are read. */
  datatype Field =
    | NativeSessionId | ConfigurationFingerprint | ContainmentProfile
    | SkillName | ContentDigest | Source
    | CommissionId | AssignmentId | AttemptId | MandateRevision | PlanRevision | Summary | CostCents
    | TurnStatus | Status | Tool
    | TotalInputTokens | TotalOutputTokens
    | SpanInputTokens | SpanOutputTokens
    | InputTokens | OutputTokens | Cost
    | MessageInputTokens | MessageOutputTokens

  datatype Preparation = Preparation(name: Option<string>, contentDigest: Option<string>, source: Option<string>)

  /** `strings` and `numbers` hold the fields present with that JSON type. */
  datatype Event = Event(
    typ: TypeName,
    rpc: MethodName,
    strings: map<Field, string>,
    numbers: map<Field, int>,
    containmentEnforced: bool,
    nativeSkills: Option<seq<Option<string>>>,
    preparations: Option<seq<Preparation>>,
    knownEffects: Option<nat>,
    isAssistant: bool,
    hasText: bool)

  const BARE := Event(NoType, NoMethod, map[], map[], false, None, None, None, false, false)

  predicate IsWhitespace(c: char) {
    || c == ' ' || '\t' <= c <= '\r' || c == '\U{0085}' || c == '\U{00A0}' || c == '\U{1680}'
    || '\U{2000}' <= c <= '\U{200A}' || c == '\U{2028}' || c == '\U{2029}' || c == '\U{202F}'
    || c == '\U{205F}' || c == '\U{3000}'
  }

  /** `value.trim().is_empty()`. */
  predicate IsBlank(s: string) {
    forall i :: 0 <= i < |s| ==> IsWhitespace(s[i])
  }

  function AsStr(e: Event, field: Field): Option<string> {
    if field in e.strings then Some(e.strings[field]) else None
  }

  function AsU64(e: Event, field: Field): Option<u64> {
    if field in e.numbers && 0 <= e.numbers[field] <= U64_MAX then Some(e.numbers[field]) else None
  }

  function AsI64(e: Event, field: Field): Option<int> {
    if field in e.numbers && -0x8000_0000_0000_0000 <= e.numbers[field] < 0x8000_0000_0000_0000
    then Some(e.numbers[field]) else None
  }

  /** Events that are not the shared ready, Skill and Result events. */
  predicate IsVendor(e: Event) {
    e.typ != Ready && e.typ != SkillInvoked && e.typ != TypedResult
  }

  /** The part an event plays in the lifecycle of its adapter kind. */
  datatype Phase = Starts | ReportsUsage | Terminates | NoPhase

  function PhaseOf(kind: Kind, e: Event): Phase {
    match kind
    case Codex => (
      match e.rpc
      case TurnStarted => Starts
      case TokenUsageUpdated => ReportsUsage
      case TurnCompleted => Terminates
      case ErrorMethod => Terminates
      case _ => NoPhase)
    case Claude => (
      match e.typ
      case SessionRunning => Starts
      case ModelRequestEnd => ReportsUsage
      case SessionIdle => Terminates
      case SessionError => Terminates
      case _ => NoPhase)
    case Pi => (
      match e.typ
      case AgentStart => Starts
      case PiUsage => ReportsUsage
      case AgentSettled => Terminates
      case _ => NoPhase)
    case OpenCode => (
      match e.typ
      case OpenCodeStarted => Starts
      case OpenCodeUsage => ReportsUsage
      case OpenCodeSettled => Terminates
      case _ => NoPhase)
  }

  function VendorEvents(trace: seq<Event>): (events: seq<Event>)
    ensures |events| <= |trace|
    ensures forall i :: 0 <= i < |events| ==> IsVendor(events[i])
  {
    if trace == [] then []
    else (if IsVendor(trace[0]) then [trace[0]] else []) + VendorEvents(trace[1..])
  }
}
