/** The OpenCode adapter: its event loop, its settlement, and the contract that
    the trace it emits has to meet. */
module OpenCodeAdapter {
  import opened Prelude
  import opened AdapterEvents
  import opened AdapterRun

  datatype Control = InterruptWorker | SteerWorker | OtherControl

  datatype Part =
    | StepStartPart
    | StepFinishPart
    | ToolPart(finished: bool)
    | TextPart(synthetic: bool, text: Option<string>, ended: bool)
    | OtherPart

  datatype ServerEvent =
    | ServerStatus(busy: bool)
    | ServerIdle
    | ServerError(messageAborted: bool)
    | PartUpdated(part: Part)
    | OtherServerEvent

  /** What one turn of the loop finds: a control message, whether the abort grace
      period is over, and a server event, each if there is one. */
  datatype Turn = Turn(control: Option<Control>, graceExpired: bool, event: Option<ServerEvent>)

  datatype Tokens = Tokens(isAssistant: bool, input: int, cacheRead: int, cacheWrite: int, output: int, reasoning: int)

  datatype LoopState = LoopState(interrupted: bool, failed: bool, busy: bool, lastText: string, emitted: seq<Event>)

  const LOOP_START := LoopState(false, false, false, "", [])

  function Emit(s: LoopState, typ: TypeName): LoopState {
    s.(emitted := s.emitted + [BARE.(typ := typ)])
  }

  function OnControl(s: LoopState, control: Option<Control>): LoopState {
    if control == Some(InterruptWorker) && !s.interrupted then Emit(s.(interrupted := true), OpenCodeInterrupt) else s
  }

  function OnPart(s: LoopState, part: Part): LoopState {
    match part
    case StepStartPart => Emit(s, StepStart)
    case StepFinishPart => Emit(s, StepFinish)
    case ToolPart(finished) => if finished then Emit(s, ToolUse) else s
    case TextPart(synthetic, text, ended) =>
      if synthetic || text.None? then s
      else
        var s' := s.(lastText := text.value);
        if ended then Emit(s', Text) else s'
    case OtherPart => s
  }

  function OnEvent(s: LoopState, event: ServerEvent): LoopState {
    match event
    case ServerStatus(busy) => s.(busy := s.busy || busy)
    case ServerError(messageAborted) =>
      if s.interrupted && messageAborted then s else Emit(s.(failed := true), ErrorType)
    case PartUpdated(part) => OnPart(s, part)
    case _ => s
  }

  /** The turn ends the loop. */
  predicate Breaks(s: LoopState, turn: Turn) {
    || (s.interrupted && turn.graceExpired)
    || (turn.event == Some(ServerIdle) && s.busy)
  }

  /** The state after the turns, and whether the loop reached its end. */
  ghost function LoopFrom(s: LoopState, turns: seq<Turn>): (LoopState, bool)
    decreases |turns|
  {
    if turns == [] then (s, false)
    else
      var s' := OnControl(s, turns[0].control);
      if Breaks(s', turns[0]) then (s', true)
      else LoopFrom(if turns[0].event.Some? then OnEvent(s', turns[0].event.value) else s', turns[1..])
  }

  /** The emitted events record exactly whether the run was interrupted or failed,
      and none of them plays a part in the lifecycle order. */
  ghost predicate Consistent(s: LoopState) {
    && (forall e :: e in s.emitted ==> IsLoopEvent(e))
    && (s.interrupted <==> BARE.(typ := OpenCodeInterrupt) in s.emitted)
    && (s.failed <==> BARE.(typ := ErrorType) in s.emitted)
  }

  predicate IsLoopEvent(e: Event) {
    e == BARE.(typ := e.typ) && e.typ in {OpenCodeInterrupt, ErrorType, StepStart, StepFinish, ToolUse, Text}
  }

  lemma EmitKeepsConsistent(s: LoopState, s': LoopState, typ: TypeName)
    requires Consistent(s) && IsLoopEvent(BARE.(typ := typ))
    requires s'.interrupted == (s.interrupted || typ == OpenCodeInterrupt)
    requires s'.failed == (s.failed || typ == ErrorType)
    requires s'.emitted == s.emitted + [BARE.(typ := typ)]
    ensures Consistent(s')
  {
    assert BARE.(typ := OpenCodeInterrupt).typ == OpenCodeInterrupt && BARE.(typ := ErrorType).typ == ErrorType;
  }

  lemma ControlKeepsConsistent(s: LoopState, control: Option<Control>)
    requires Consistent(s)
    ensures Consistent(OnControl(s, control))
  {
    if OnControl(s, control) != s {
      EmitKeepsConsistent(s, OnControl(s, control), OpenCodeInterrupt);
    }
  }

  lemma PartKeepsConsistent(s: LoopState, part: Part)
    requires Consistent(s)
    ensures Consistent(OnPart(s, part))
  {
    match part
    case StepStartPart => EmitKeepsConsistent(s, OnPart(s, part), StepStart);
    case StepFinishPart => EmitKeepsConsistent(s, OnPart(s, part), StepFinish);
    case ToolPart(finished) =>
      if finished {
        EmitKeepsConsistent(s, OnPart(s, part), ToolUse);
      }
    case TextPart(synthetic, text, ended) =>
      if !synthetic && text.Some? && ended {
        EmitKeepsConsistent(s, OnPart(s, part), Text);
      }
    case OtherPart =>
  }

  lemma EventKeepsConsistent(s: LoopState, event: ServerEvent)
    requires Consistent(s)
    ensures Consistent(OnEvent(s, event))
  {
    match event
    case ServerError(_) =>
      if OnEvent(s, event) != s {
        EmitKeepsConsistent(s, OnEvent(s, event), ErrorType);
      }
    case PartUpdated(part) => PartKeepsConsistent(s, part);
    case _ =>
  }

  lemma {:induction false} LoopStaysConsistent(s: LoopState, turns: seq<Turn>)
    requires Consistent(s)
    ensures Consistent(LoopFrom(s, turns).0)
    decreases |turns|
  {
    if turns != [] {
      ControlKeepsConsistent(s, turns[0].control);
      var s' := OnControl(s, turns[0].control);
      if !Breaks(s', turns[0]) {
        if turns[0].event.Some? {
          EventKeepsConsistent(s', turns[0].event.value);
          s' := OnEvent(s', turns[0].event.value);
        }
        LoopStaysConsistent(s', turns[1..]);
      }
    }
  }

  /** The event loop of `main`. */
  method RunLoop(turns: seq<Turn>) returns (s: LoopState, settled: bool)
    ensures (s, settled) == LoopFrom(LOOP_START, turns)
    ensures Consistent(s)
  {
    s, settled := LOOP_START, false;
    var next := 0;
    while next < |turns|
      invariant next <= |turns| && Consistent(s)
      invariant LoopFrom(LOOP_START, turns) == LoopFrom(s, turns[next..])
    {
      var turn := turns[next];
      assert turns[next..][1..] == turns[next + 1..];
      ControlKeepsConsistent(s, turn.control);
      s := OnControl(s, turn.control);
      if Breaks(s, turn) {
        settled := true;
        return;
      }
      if turn.event.Some? {
        EventKeepsConsistent(s, turn.event.value);
        s := OnEvent(s, turn.event.value);
      }
      next := next + 1;
    }
  }

  function InputOf(m: Tokens): int {
    if m.isAssistant then m.input + m.cacheRead + m.cacheWrite else 0
  }

  function OutputOf(m: Tokens): int {
    if m.isAssistant then m.output + m.reasoning else 0
  }

  ghost function InputTotal(messages: seq<Tokens>): int {
    if messages == [] then 0 else InputTotal(messages[..|messages| - 1]) + InputOf(messages[|messages| - 1])
  }

  ghost function OutputTotal(messages: seq<Tokens>): int {
    if messages == [] then 0 else OutputTotal(messages[..|messages| - 1]) + OutputOf(messages[|messages| - 1])
  }

  method SumTokens(messages: seq<Tokens>) returns (input: int, output: int)
    ensures input == InputTotal(messages) && output == OutputTotal(messages)
  {
    input, output := 0, 0;
    for i := 0 to |messages|
      invariant input == InputTotal(messages[..i]) && output == OutputTotal(messages[..i])
    {
      assert messages[..i + 1][..i] == messages[..i];
      input := input + InputOf(messages[i]);
      output := output + OutputOf(messages[i]);
    }
    assert messages[..|messages|] == messages;
  }

  // ----- the emitted trace

  /** This adapter reports no native Skills, and stops before ready when one is pinned. */
  predicate WithoutSkills(launch: Launch) {
    launch.native == [] && launch.skills == []
  }

  function UsageEvent(input: int, output: int): Event {
    BARE.(typ := OpenCodeUsage, numbers := map[InputTokens := input, OutputTokens := output])
  }

  function StatusName(s: LoopState): string {
    if s.interrupted then "interrupted" else if s.failed then "failed" else "completed"
  }

  function SettledEvent(s: LoopState): Event {
    BARE.(typ := OpenCodeSettled, strings := map[Status := StatusName(s)])
  }

  predicate SettlesCompleted(s: LoopState) {
    !s.interrupted && !s.failed
  }

  function VendorPart(s: LoopState, input: int, output: int): seq<Event> {
    [BARE.(typ := OpenCodeStarted)] + s.emitted + ([UsageEvent(input, output)] + [SettledEvent(s)])
  }

  function OwnResult(launch: Launch, s: LoopState, summary: string): Option<Event> {
    if SettlesCompleted(s) then Some(ResultEvent(launch, summary)) else None
  }

  function TraceOf(launch: Launch, s: LoopState, input: int, output: int, summary: string): seq<Event> {
    Trace(launch, VendorPart(s, input, output), OwnResult(launch, s, summary))
  }

  lemma VendorPartByParts(opening: seq<Event>, s: LoopState, input: int, output: int)
    ensures opening + [BARE.(typ := OpenCodeStarted)] + s.emitted + [UsageEvent(input, output)] + [SettledEvent(s)]
         == opening + VendorPart(s, input, output)
  {
    var started, usage, settled := BARE.(typ := OpenCodeStarted), UsageEvent(input, output), SettledEvent(s);
    AppendIsAssociative(opening + [started] + s.emitted, [usage], [settled]);
    AppendIsAssociative(opening + [started], s.emitted, [usage] + [settled]);
    AppendIsAssociative(opening, [started], s.emitted + ([usage] + [settled]));
    AppendIsAssociative([started], s.emitted, [usage] + [settled]);
  }

  /** A run from the ready event on; `summarize` reads the summary out of the last text. */
  method Run(launch: Launch, turns: seq<Turn>, messages: seq<Tokens>, summarize: string -> string)
    returns (trace: seq<Event>, settled: bool)
    requires WithoutSkills(launch)
    ensures settled == LoopFrom(LOOP_START, turns).1
    ensures settled ==> var s := LoopFrom(LOOP_START, turns).0;
      && Consistent(s)
      && trace == TraceOf(launch, s, InputTotal(messages), OutputTotal(messages), summarize(s.lastText))
  {
    trace := [ReadyEvent(launch)];
    assert trace == Opening(launch);
    trace := trace + [BARE.(typ := OpenCodeStarted)];
    var s;
    s, settled := RunLoop(turns);
    trace := trace + s.emitted;
    if settled {
      var input, output := SumTokens(messages);
      trace := trace + [UsageEvent(input, output)];
      trace := trace + [SettledEvent(s)];
      VendorPartByParts(Opening(launch), s, input, output);
      CompletedStatus(s);
      var result := OwnResult(launch, s, summarize(s.lastText));
      if StatusName(s) == "completed" {
        trace := trace + [ResultEvent(launch, summarize(s.lastText))];
      } else {
        assert trace == trace + [];
      }
      assert trace == Trace(launch, VendorPart(s, input, output), result);
    }
  }

  lemma CompletedStatus(s: LoopState)
    ensures StatusName(s) == "completed" <==> SettlesCompleted(s)
  {
    StatusNamesDiffer();
  }

  lemma StatusNamesDiffer()
    ensures "interrupted" != "completed" && "failed" != "completed" && "interrupted" != "failed"
  {
    assert |"interrupted"| == 11 && |"completed"| == 9 && |"failed"| == 6;
  }
}
