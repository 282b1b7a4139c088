/** Which settled OpenCode runs the contract accepts. */
module OpenCodeAcceptance {
  import opened Prelude
  import opened AdapterEvents
  import opened AdapterContract
  import opened TraceAssembly
  import opened AdapterRun
  import opened OpenCodeAdapter

  lemma LoopStep(l: Lifecycle, e: Event)
    requires IsLoopEvent(e)
    ensures OpenCodeStep(l, e) == Ok(l.(interrupted := l.interrupted || e == BARE.(typ := OpenCodeInterrupt),
                                        state := if e == BARE.(typ := ErrorType) then Failed else l.state))
  {
  }

  /** Loop events only record interruption and failure. */
  lemma {:induction false} LoopLifecycle(l: Lifecycle, events: seq<Event>)
    requires forall e :: e in events ==> IsLoopEvent(e)
    ensures LifecycleFrom(OpenCode, l, events) == Ok(l.(
      interrupted := l.interrupted || BARE.(typ := OpenCodeInterrupt) in events,
      state := if BARE.(typ := ErrorType) in events then Failed else l.state))
    decreases |events|
  {
    if events != [] {
      assert events == [events[0]] + events[1..];
      assert IsLoopEvent(events[0]);
      LoopStep(l, events[0]);
      LoopLifecycle(OpenCodeStep(l, events[0]).value, events[1..]);
    }
  }

  function SettledState(s: LoopState): State {
    if s.failed then Failed else if s.interrupted then Interrupted else Completed
  }

  lemma StatusStates(s: LoopState)
    ensures !IsBlank(StatusName(s))
    ensures StateOf(StatusName(s)) == if s.interrupted then Interrupted else if s.failed then Failed else Completed
  {
    StatusNamesDiffer();
    assert !IsWhitespace(StatusName(s)[0]);
  }

  /** The lifecycle of a settled run: legible exactly when its totals are u64. */
  lemma VendorFold(s: LoopState, input: int, output: int)
    requires Consistent(s)
    ensures LifecycleFrom(OpenCode, FRESH, VendorPart(s, input, output)) ==
      if FitsU64(input) && FitsU64(output)
      then Ok(Lifecycle(true, s.interrupted, SettledState(s), input, output, true, ""))
      else Err(InvalidRequest)
  {
    var opening, closing := [BARE.(typ := OpenCodeStarted)], [UsageEvent(input, output)] + [SettledEvent(s)];
    var started := FRESH.(started := true);
    assert LifecycleFrom(OpenCode, FRESH, opening) == Ok(started) by {
      assert opening[1..] == [];
    }
    LifecycleAppend(OpenCode, FRESH, opening, s.emitted + closing);
    LoopLifecycle(started, s.emitted);
    LifecycleAppend(OpenCode, started, s.emitted, closing);
    assert VendorPart(s, input, output) == opening + (s.emitted + closing);
    ClosingFold(LifecycleFrom(OpenCode, started, s.emitted).value, s, input, output);
  }

  lemma UsageStep(l: Lifecycle, input: int, output: int)
    requires !l.usageReported
    ensures OpenCodeStep(l, UsageEvent(input, output)) ==
      if FitsU64(input) && FitsU64(output)
      then Ok(l.(inputTokens := input, outputTokens := output, usageReported := true))
      else Err(InvalidRequest)
  {
    var usage := UsageEvent(input, output);
    assert usage.numbers == map[InputTokens := input, OutputTokens := output];
    assert AsU64(usage, InputTokens).Some? <==> FitsU64(input);
    assert AsU64(usage, OutputTokens).Some? <==> FitsU64(output);
  }

  lemma SettledStep(l: Lifecycle, s: LoopState)
    requires l.state == if s.failed then Failed else NotTerminal
    ensures OpenCodeStep(l, SettledEvent(s)) == Ok(l.(state := SettledState(s)))
  {
    StatusStates(s);
    assert AsStr(SettledEvent(s), Status) == Some(StatusName(s));
  }

  lemma ClosingFold(l: Lifecycle, s: LoopState, input: int, output: int)
    requires !l.usageReported && l.interrupted == s.interrupted && l.state == if s.failed then Failed else NotTerminal
    ensures LifecycleFrom(OpenCode, l, [UsageEvent(input, output)] + [SettledEvent(s)]) ==
      if FitsU64(input) && FitsU64(output)
      then Ok(l.(state := SettledState(s), inputTokens := input, outputTokens := output, usageReported := true))
      else Err(InvalidRequest)
  {
    var usage, settled := UsageEvent(input, output), SettledEvent(s);
    var closing := [usage] + [settled];
    assert closing[0] == usage && closing[1..] == [settled] && [settled][1..] == [];
    UsageStep(l, input, output);
    if FitsU64(input) && FitsU64(output) {
      var l' := l.(inputTokens := input, outputTokens := output, usageReported := true);
      SettledStep(l', s);
      assert LifecycleFrom(OpenCode, l', [settled]) == OpenCodeStep(l', settled);
    }
  }

  // ----- order

  ghost function ExpectedPhase(i: nat, n: nat): Phase {
    if i == 0 then Starts else if i == n - 2 then ReportsUsage else if i == n - 1 then Terminates else NoPhase
  }

  lemma VendorPhases(s: LoopState, input: int, output: int, i: nat)
    requires Consistent(s) && i < |VendorPart(s, input, output)|
    ensures PhaseOf(OpenCode, VendorPart(s, input, output)[i]) == ExpectedPhase(i, |VendorPart(s, input, output)|)
  {
    if 0 < i <= |s.emitted| {
      assert VendorPart(s, input, output)[i] == s.emitted[i - 1];
      assert IsLoopEvent(s.emitted[i - 1]);
    }
  }

  lemma VendorOrder(s: LoopState, input: int, output: int)
    requires Consistent(s)
    ensures ValidateLifecycleOrder(OpenCode, VendorPart(s, input, output)).Ok?
  {
    var events := VendorPart(s, input, output);
    forall i: nat | i < |events| ensures PhaseOf(OpenCode, events[i]) == ExpectedPhase(i, |events|) {
      VendorPhases(s, input, output, i);
    }
    OrderFromPositions(OpenCode, events, 0, |events| - 2, |events| - 1);
  }

  lemma VendorPartIsVendor(s: LoopState, input: int, output: int)
    requires Consistent(s)
    ensures forall e :: e in VendorPart(s, input, output) ==> IsVendor(e)
  {
    forall e | e in VendorPart(s, input, output) ensures IsVendor(e) {
      if e in s.emitted {
        assert IsLoopEvent(e);
      }
    }
  }

  // ----- acceptance

  /** A legible summary, if the run completed and so needs one. */
  predicate HasSummary(s: LoopState, summary: string) {
    SettlesCompleted(s) ==> !IsBlank(summary)
  }

  lemma ResultNeedsSummary(launch: Launch, s: LoopState, summary: string, expectation: Expectation)
    requires LaunchedFor(launch, expectation)
    ensures ResultIsValid(OwnResult(launch, s, summary), expectation) <==> HasSummary(s, summary)
    ensures HasSummary(s, summary) ==>
      SubmissionOf(OwnResult(launch, s, summary), expectation)
      == if SettlesCompleted(s) then Some(Submission(summary, 0)) else None
  {
    OwnResultIsValid(launch, summary, expectation);
  }

  lemma LifecycleIsValid(s: LoopState, input: int, output: int, summary: string)
    requires Consistent(s) && HasSummary(s, summary)
    ensures var submission := if SettlesCompleted(s) then Some(Submission(summary, 0)) else None;
      var result := ValidateLifecycle(OpenCode, VendorPart(s, input, output), submission);
      && (result.Ok? <==> FitsU64(input) && FitsU64(output) && !(s.interrupted && s.failed))
      && (result.Ok? ==> result.value.state == StateOf(StatusName(s))
                         && result.value.inputTokens == input && result.value.outputTokens == output)
  {
    VendorFold(s, input, output);
    VendorOrder(s, input, output);
    StatusStates(s);
    if FitsU64(input) && FitsU64(output) {
      var submission := if SettlesCompleted(s) then Some(Submission(summary, 0)) else None;
      LifecycleIsJudged(OpenCode, VendorPart(s, input, output), submission,
                        Lifecycle(true, s.interrupted, SettledState(s), input, output, true, ""));
    }
  }

  /** What makes a settled run acceptable. */
  predicate IsAcceptable(s: LoopState, input: int, output: int, summary: string) {
    !(s.interrupted && s.failed) && FitsU64(input) && FitsU64(output) && HasSummary(s, summary)
  }

  /** A settled run is accepted exactly when it was not both interrupted and
      failed, its totals are u64, and its summary is legible if it completed; the
      reported terminal state is then the settled status. */
  lemma SettledRunIsAcceptedExactly(launch: Launch, s: LoopState, input: int, output: int, summary: string, expectation: Expectation)
    requires Consistent(s) && LaunchedFor(launch, expectation)
    ensures var result := ValidateTrace(OpenCode, TraceOf(launch, s, input, output, summary), expectation);
      && (result.Ok? <==> IsAcceptable(s, input, output, summary))
      && (result.Ok? ==> result.value.state == StateOf(StatusName(s))
                         && result.value.inputTokens == input && result.value.outputTokens == output)
  {
    VendorPartIsVendor(s, input, output);
    ResultNeedsSummary(launch, s, summary, expectation);
    TraceIsAcceptedExactly(OpenCode, launch, VendorPart(s, input, output), OwnResult(launch, s, summary), expectation);
    if HasSummary(s, summary) {
      LifecycleIsValid(s, input, output, summary);
    }
  }

  /** The same for every run of the adapter that reaches settlement, whatever
      controls and server events it met. */
  lemma EveryRunIsAcceptedExactly(launch: Launch, turns: seq<Turn>, messages: seq<Tokens>, summarize: string -> string,
                                  expectation: Expectation)
    requires LaunchedFor(launch, expectation) && LoopFrom(LOOP_START, turns).1
    ensures var s, input, output := LoopFrom(LOOP_START, turns).0, InputTotal(messages), OutputTotal(messages);
      var summary := summarize(s.lastText);
      var result := ValidateTrace(OpenCode, TraceOf(launch, s, input, output, summary), expectation);
      && (result.Ok? <==> IsAcceptable(s, input, output, summary))
      && (result.Ok? ==> result.value.state == StateOf(StatusName(s)))
  {
    LoopStaysConsistent(LOOP_START, turns);
    var s := LoopFrom(LOOP_START, turns).0;
    SettledRunIsAcceptedExactly(launch, s, InputTotal(messages), OutputTotal(messages), summarize(s.lastText), expectation);
  }

  /** The server works, reports an error, and goes idle when the Worker is interrupted:
      the run settles as interrupted, and its trace is rejected. */
  lemma InterruptedFailureIsRejected(launch: Launch, messages: seq<Tokens>, summary: string, expectation: Expectation)
    requires LaunchedFor(launch, expectation)
    ensures var turns := [Turn(None, false, Some(ServerStatus(true)))] + ([Turn(None, false, Some(ServerError(false)))]
                         + [Turn(Some(InterruptWorker), false, Some(ServerIdle))]);
      var (s, settled) := LoopFrom(LOOP_START, turns);
      && settled && StateOf(StatusName(s)) == Interrupted
      && ValidateTrace(OpenCode, TraceOf(launch, s, InputTotal(messages), OutputTotal(messages), summary), expectation).Err?
  {
    var first, second := Turn(None, false, Some(ServerStatus(true))), Turn(None, false, Some(ServerError(false)));
    var last := Turn(Some(InterruptWorker), false, Some(ServerIdle));
    var turns := [first] + ([second] + [last]);
    var s1 := OnEvent(LOOP_START, ServerStatus(true));
    var s2 := OnEvent(s1, ServerError(false));
    var s := OnControl(s2, Some(InterruptWorker));
    assert s1.busy && s2.failed && !s2.interrupted && s.failed && s.interrupted && Breaks(s, last);
    TurnPasses(LOOP_START, first, [second] + [last]);
    TurnPasses(s1, second, [last]);
    assert LoopFrom(s2, [last]) == (s, true);
    StatusStates(s);
    LoopStaysConsistent(LOOP_START, turns);
    SettledRunIsAcceptedExactly(launch, s, InputTotal(messages), OutputTotal(messages), summary, expectation);
  }

  lemma TurnPasses(s: LoopState, turn: Turn, rest: seq<Turn>)
    requires turn.control == None && turn.event.Some? && !Breaks(s, turn)
    ensures LoopFrom(s, [turn] + rest) == LoopFrom(OnEvent(s, turn.event.value), rest)
  {
    assert OnControl(s, None) == s;
    assert ([turn] + rest)[1..] == rest;
  }
}
