/** Accepted traces on which live totals and reported totals differ: the two ways
    in which the agreement can fail do occur. */
module TelemetryExamples {
  import opened Prelude
  import opened AdapterEvents
  import opened AdapterContract
  import opened TraceAssembly
  import opened AdapterRun
  import opened LiveTelemetry

  lemma LifecycleCompletes(kind: Kind, middle: seq<Event>, submission: Submission, l: Lifecycle)
    requires LifecycleFrom(kind, FRESH, middle) == Ok(l) && ValidateLifecycleOrder(kind, middle).Ok?
    requires l.started && l.state == Completed && !l.interrupted && l.usageReported && !IsBlank(submission.summary)
    ensures ValidateLifecycle(kind, middle, Some(submission)) == Ok(l.(summary := submission.summary))
  {
  }

  lemma ValidResultIsLegible(result: Event, expectation: Expectation)
    requires ValidateResult(result, expectation).Ok?
    ensures !IsBlank(ValidateResult(result, expectation).value.summary)
  {
  }

  /** A completed lifecycle before a valid Result is accepted. */
  lemma CompletedTraceIsAccepted(kind: Kind, launch: Launch, expectation: Expectation, middle: seq<Event>, result: Event, l: Lifecycle)
    requires LaunchedFor(launch, expectation)
    requires forall e :: e in middle ==> IsVendor(e)
    requires result.typ == TypedResult && ValidateResult(result, expectation).Ok?
    requires LifecycleFrom(kind, FRESH, middle) == Ok(l) && ValidateLifecycleOrder(kind, middle).Ok?
    requires l.started && l.state == Completed && !l.interrupted && l.usageReported
    ensures var r := ValidateTrace(kind, Trace(launch, middle, Some(result)), expectation);
      r.Ok? && r.value.inputTokens == l.inputTokens && r.value.outputTokens == l.outputTokens
  {
    ValidResultIsLegible(result, expectation);
    LifecycleCompletes(kind, middle, ValidateResult(result, expectation).value, l);
    TraceIsAcceptedExactly(kind, launch, middle, Some(result), expectation);
  }

  // ----- Codex: a Result event that also carries totals

  function CodexUsage(input: u64, output: u64): Event {
    BARE.(rpc := TokenUsageUpdated, numbers := map[TotalInputTokens := input, TotalOutputTokens := output])
  }

  function CodexMiddle(): seq<Event> {
    [BARE.(rpc := TurnStarted), CodexUsage(1, 1), BARE.(rpc := TurnCompleted, strings := map[TurnStatus := "completed"])]
  }

  function StrayResult(launch: Launch): Event {
    var e := ResultEvent(launch, "done");
    e.(rpc := TokenUsageUpdated, numbers := e.numbers[TotalInputTokens := 2][TotalOutputTokens := 2])
  }

  lemma CodexMiddleFolds()
    ensures LifecycleFrom(Codex, FRESH, CodexMiddle()) == Ok(Lifecycle(true, false, Completed, 1, 1, true, ""))
  {
    var events := CodexMiddle();
    var l1 := FRESH.(started := true);
    var l2 := l1.(inputTokens := 1, outputTokens := 1, usageReported := true);
    assert !IsBlank("completed") by { assert !IsWhitespace("completed"[0]); }
    assert CodexStep(FRESH, events[0]) == Ok(l1) && CodexStep(l1, events[1]) == Ok(l2);
    assert CodexStep(l2, events[2]) == Ok(l2.(state := Completed));
    var last := events[2..];
    assert last[0] == events[2] && last[1..] == [] && events[1..][1..] == last;
    assert LifecycleFrom(Codex, l2, last) == Ok(l2.(state := Completed));
    assert LifecycleFrom(Codex, l1, events[1..]) == LifecycleFrom(Codex, l2, last);
  }

  lemma CodexMiddleIsOrdered()
    ensures ValidateLifecycleOrder(Codex, CodexMiddle()).Ok?
  {
    OrderFromPositions(Codex, CodexMiddle(), 0, 1, 2);
  }

  lemma StrayResultIsValid(launch: Launch, expectation: Expectation)
    requires LaunchedFor(launch, expectation)
    ensures StrayResult(launch).typ == TypedResult && ValidateResult(StrayResult(launch), expectation).Ok?
  {
    var result := StrayResult(launch);
    assert !IsBlank("done") by { assert !IsWhitespace("done"[0]); }
    assert IsBound(result, expectation);
    assert AsStr(result, Summary) == Some("done") && AsU64(result, CostCents) == Some(0);
  }

  lemma StrayResultIsLast(launch: Launch, middle: seq<Event>)
    ensures ObserveAll(Codex, UNREPORTED, Trace(launch, middle, Some(StrayResult(launch)))) == Usage(2, 2, true)
  {
    var trace, result := Trace(launch, middle, Some(StrayResult(launch))), StrayResult(launch);
    assert trace[|trace| - 1] == result && CarriesTotals(result) && Totals(result) == (2, 2);
    LiveTakesLastCarrier(trace, UNREPORTED, |trace| - 1);
  }

  lemma StrayTotals(launch: Launch, expectation: Expectation, middle: seq<Event>, l: Lifecycle)
    returns (trace: seq<Event>, report: Report)
    requires LaunchedFor(launch, expectation) && forall e :: e in middle ==> IsVendor(e)
    requires LifecycleFrom(Codex, FRESH, middle) == Ok(l) && ValidateLifecycleOrder(Codex, middle).Ok?
    requires l == Lifecycle(true, false, Completed, 1, 1, true, "")
    ensures ValidateTrace(Codex, trace, expectation) == Ok(report)
    ensures !ReportsSameTokens(ObserveAll(Codex, UNREPORTED, trace), report)
  {
    var result := StrayResult(launch);
    trace := Trace(launch, middle, Some(result));
    StrayResultIsValid(launch, expectation);
    CompletedTraceIsAccepted(Codex, launch, expectation, middle, result, l);
    StrayResultIsLast(launch, middle);
    report := ValidateTrace(Codex, trace, expectation).value;
  }

  lemma CodexMiddleIsVendor()
    ensures forall e :: e in CodexMiddle() ==> IsVendor(e)
  {
  }

  /** The contract reports 1 and 1; the live fold ends at 2 and 2. */
  lemma CodexTotalsCanDiffer(launch: Launch, expectation: Expectation) returns (trace: seq<Event>, report: Report)
    requires LaunchedFor(launch, expectation)
    ensures ValidateTrace(Codex, trace, expectation) == Ok(report)
    ensures !ReportsSameTokens(ObserveAll(Codex, UNREPORTED, trace), report)
  {
    var middle := CodexMiddle();
    CodexMiddleIsVendor();
    CodexMiddleFolds();
    CodexMiddleIsOrdered();
    trace, report := StrayTotals(launch, expectation, middle, Lifecycle(true, false, Completed, 1, 1, true, ""));
  }

  // ----- Pi: an assistant message after the usage report

  function PiMiddle(): seq<Event> {
    [BARE.(typ := AgentStart),
     BARE.(typ := PiUsage, numbers := map[InputTokens := 1, OutputTokens := 1, Cost := 0]),
     BARE.(typ := MessageEnd, isAssistant := true, numbers := map[MessageInputTokens := 1, MessageOutputTokens := 1]),
     BARE.(typ := AgentSettled)]
  }

  lemma PiMiddleFolds()
    ensures LifecycleFrom(Pi, FRESH, PiMiddle()) == Ok(Lifecycle(true, false, Completed, 1, 1, true, ""))
  {
    var events := PiMiddle();
    var l1 := FRESH.(started := true);
    var l2 := l1.(inputTokens := 1, outputTokens := 1, usageReported := true);
    assert PiStep(FRESH, events[0]) == Ok(l1) && PiStep(l1, events[1]) == Ok(l2) && PiStep(l2, events[2]) == Ok(l2);
    assert PiStep(l2, events[3]) == Ok(l2.(state := Completed));
    var last := events[3..];
    assert last[0] == events[3] && last[1..] == [] && events[2..][1..] == last && events[1..][1..] == events[2..];
    assert LifecycleFrom(Pi, l2, last) == Ok(l2.(state := Completed));
    assert LifecycleFrom(Pi, l2, events[2..]) == LifecycleFrom(Pi, l2, last);
    assert LifecycleFrom(Pi, l1, events[1..]) == LifecycleFrom(Pi, l2, events[2..]);
  }

  lemma PiMiddleIsOrdered()
    ensures ValidateLifecycleOrder(Pi, PiMiddle()).Ok?
  {
    OrderFromPositions(Pi, PiMiddle(), 0, 1, 3);
  }

  lemma MiddleOfTrace(launch: Launch, middle: seq<Event>, result: Option<Event>, i: nat)
    requires i < |middle|
    ensures |Opening(launch)| + i < |Trace(launch, middle, result)|
    ensures Trace(launch, middle, result)[|Opening(launch)| + i] == middle[i]
  {
  }

  lemma CountedMessage(launch: Launch, expectation: Expectation, result: Event, middle: seq<Event>, l: Lifecycle)
    returns (trace: seq<Event>, report: Report)
    requires LaunchedFor(launch, expectation) && result.typ == TypedResult && ValidateResult(result, expectation).Ok?
    requires forall e :: e in middle ==> IsVendor(e)
    requires LifecycleFrom(Pi, FRESH, middle) == Ok(l) && ValidateLifecycleOrder(Pi, middle).Ok?
    requires l == Lifecycle(true, false, Completed, 1, 1, true, "")
    requires |middle| == 4 && middle[1].typ == PiUsage && MessageCounts(middle[2]) == Some((1, 1))
    ensures ValidateTrace(Pi, trace, expectation) == Ok(report)
    ensures !ReportsSameTokens(ObserveAll(Pi, UNREPORTED, trace), report)
  {
    trace := Trace(launch, middle, Some(result));
    CompletedTraceIsAccepted(Pi, launch, expectation, middle, result, l);
    report := ValidateTrace(Pi, trace, expectation).value;
    var first := |Opening(launch)|;
    MiddleOfTrace(launch, middle, Some(result), 1);
    MiddleOfTrace(launch, middle, Some(result), 2);
    assert !AddsNothing(trace[first + 2], Usage(1, 1, true));
    PiLiveMatchesExactly(trace, expectation, report, first + 1);
  }

  lemma PiMiddleContents()
    ensures forall e :: e in PiMiddle() ==> IsVendor(e)
    ensures |PiMiddle()| == 4 && PiMiddle()[1].typ == PiUsage && MessageCounts(PiMiddle()[2]) == Some((1, 1))
  {
  }

  /** The contract reports 1 and 1; the live fold has also counted the message. */
  lemma PiTotalsCanDiffer(launch: Launch, expectation: Expectation, result: Event) returns (trace: seq<Event>, report: Report)
    requires LaunchedFor(launch, expectation) && result.typ == TypedResult && ValidateResult(result, expectation).Ok?
    ensures ValidateTrace(Pi, trace, expectation) == Ok(report)
    ensures !ReportsSameTokens(ObserveAll(Pi, UNREPORTED, trace), report)
  {
    var middle := PiMiddle();
    PiMiddleContents();
    PiMiddleFolds();
    PiMiddleIsOrdered();
    trace, report := CountedMessage(launch, expectation, result, middle, Lifecycle(true, false, Completed, 1, 1, true, ""));
  }
}
