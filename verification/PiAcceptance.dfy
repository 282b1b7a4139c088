/** Which settled Pi runs the contract accepts. */
module PiAcceptance {
  import opened Prelude
  import opened AdapterEvents
  import opened AdapterContract
  import opened TraceAssembly
  import opened AdapterRun
  import opened PiAdapter

  // ----- what was handled, seen on the emitted events

  ghost predicate Sent(messages: seq<Message>, typ: TypeName) {
    exists i :: 0 <= i < |messages| && messages[i].event.typ == typ
  }

  ghost function StartCount(messages: seq<Message>): nat {
    if messages == [] then 0
    else StartCount(messages[..|messages| - 1]) + if messages[|messages| - 1].event.typ == AgentStart then 1 else 0
  }

  lemma HasTypeSnoc(events: seq<Event>, e: Event, typ: TypeName)
    ensures HasType(events + [e], typ) <==> HasType(events, typ) || e.typ == typ
  {
    var more := events + [e];
    assert more[|events|] == e && forall i :: 0 <= i < |events| ==> more[i] == events[i];
  }

  lemma SentSnoc(messages: seq<Message>, typ: TypeName)
    requires messages != []
    ensures Sent(messages, typ) <==> Sent(messages[..|messages| - 1], typ) || messages[|messages| - 1].event.typ == typ
  {
    var before := messages[..|messages| - 1];
    assert forall i :: 0 <= i < |before| ==> before[i] == messages[i];
  }

  lemma {:induction false} UnmarkedHasTypes(events: seq<Event>, typ: TypeName)
    requires typ != PiInterrupt
    ensures HasType(Unmarked(events), typ) <==> HasType(events, typ)
  {
    if events != [] {
      var before, last := events[..|events| - 1], events[|events| - 1];
      UnmarkedHasTypes(before, typ);
      assert events == before + [last];
      HasTypeSnoc(before, last, typ);
      HasTypeSnoc(Unmarked(before), last, typ);
      assert Unmarked(before) + [] == Unmarked(before);
    }
  }

  lemma {:induction false} RelayedHasTypes(messages: seq<Message>, typ: TypeName)
    requires typ != PiInterrupt && typ != AgentSettled
    ensures HasType(Relayed(messages), typ) <==> Sent(messages, typ)
  {
    if messages != [] {
      var before, last := messages[..|messages| - 1], messages[|messages| - 1];
      RelayedHasTypes(before, typ);
      SentSnoc(messages, typ);
      HasTypeSnoc(Relayed(before), last.event, typ);
      assert Relayed(before) + [] == Relayed(before);
    }
  }

  lemma {:induction false} RelayedNeverSettles(messages: seq<Message>)
    ensures !HasType(Relayed(messages), AgentSettled)
  {
    if messages != [] {
      var before, last := messages[..|messages| - 1], messages[|messages| - 1];
      RelayedNeverSettles(before);
      HasTypeSnoc(Relayed(before), last.event, AgentSettled);
      assert Relayed(before) + [] == Relayed(before);
    }
  }

  /** Apart from interrupt markers, an event type occurs in the trace exactly when Pi sent it. */
  lemma EmittedTypes(p: Progress, typ: TypeName)
    requires Faithful(p) && typ != PiInterrupt && typ != AgentSettled
    ensures HasType(p.emitted, typ) <==> Sent(p.handled, typ)
  {
    UnmarkedHasTypes(p.emitted, typ);
    RelayedHasTypes(p.handled, typ);
  }

  ghost predicate IsQuiet(e: Event) {
    IsVendor(e) && e.typ != PiUsage && e.typ != AgentSettled
  }

  lemma EmittedIsQuiet(p: Progress, i: nat)
    requires Faithful(p) && AllNative(p.handled) && i < |p.emitted|
    ensures IsQuiet(p.emitted[i])
  {
    var typ := p.emitted[i].typ;
    if typ == AgentSettled {
      UnmarkedHasTypes(p.emitted, AgentSettled);
      RelayedNeverSettles(p.handled);
    } else if typ != PiInterrupt {
      EmittedTypes(p, typ);
      var j :| 0 <= j < |p.handled| && p.handled[j].event.typ == typ;
      assert IsNative(p.handled[j]);
    }
  }

  // ----- starts

  lemma {:induction false} UnmarkedStarts(events: seq<Event>)
    ensures |Positions(Pi, Unmarked(events), Starts)| == |Positions(Pi, events, Starts)|
  {
    if events != [] {
      var before, last := events[..|events| - 1], events[|events| - 1];
      UnmarkedStarts(before);
      PositionsUnfold(Pi, events, Starts);
      PositionsSnoc(Pi, Unmarked(before), last, Starts);
      assert Unmarked(before) + [] == Unmarked(before);
    }
  }

  lemma {:induction false} RelayedStarts(messages: seq<Message>)
    ensures |Positions(Pi, Relayed(messages), Starts)| == StartCount(messages)
  {
    if messages != [] {
      var before, last := messages[..|messages| - 1], messages[|messages| - 1];
      var relayed := Relayed(before);
      RelayedStarts(before);
      PositionsSnoc(Pi, relayed, last.event, Starts);
      assert Relayed(messages) == relayed || Relayed(messages) == relayed + [last.event];
    }
  }

  lemma EmittedStarts(p: Progress)
    requires Faithful(p)
    ensures |Positions(Pi, p.emitted, Starts)| == StartCount(p.handled)
  {
    UnmarkedStarts(p.emitted);
    RelayedStarts(p.handled);
  }

  lemma {:induction false} StartedMeansCounted(messages: seq<Message>)
    ensures Sent(messages, AgentStart) <==> StartCount(messages) > 0
  {
    if messages != [] {
      SentSnoc(messages, AgentStart);
      StartedMeansCounted(messages[..|messages| - 1]);
    }
  }

  // ----- the lifecycle of a settled run

  ghost function AfterEmitted(l: Lifecycle, events: seq<Event>): Lifecycle {
    l.(started := l.started || HasType(events, AgentStart),
       interrupted := l.interrupted || HasType(events, PiInterrupt),
       state := if HasType(events, ExtensionError) then Failed else l.state)
  }

  lemma QuietStep(l: Lifecycle, e: Event)
    requires IsQuiet(e)
    ensures PiStep(l, e) == Ok(l.(started := l.started || e.typ == AgentStart,
                                  interrupted := l.interrupted || e.typ == PiInterrupt,
                                  state := if e.typ == ExtensionError then Failed else l.state))
  {
  }

  lemma {:induction false} EmittedFold(l: Lifecycle, events: seq<Event>)
    requires forall i :: 0 <= i < |events| ==> IsQuiet(events[i])
    ensures LifecycleFrom(Pi, l, events) == Ok(AfterEmitted(l, events))
    decreases |events|
  {
    if events != [] {
      var before, last := events[..|events| - 1], events[|events| - 1];
      assert events == before + [last];
      EmittedFold(l, before);
      LifecycleSnoc(Pi, l, before, last);
      HasTypeSnoc(before, last, AgentStart);
      HasTypeSnoc(before, last, PiInterrupt);
      HasTypeSnoc(before, last, ExtensionError);
      assert IsQuiet(last);
      QuietStep(AfterEmitted(l, before), last);
    }
  }

  lemma UsageStep(l: Lifecycle, usage: (int, int))
    requires !l.usageReported
    ensures PiStep(l, UsageEvent(usage)) ==
      if FitsU64(usage.0) && FitsU64(usage.1)
      then Ok(l.(inputTokens := usage.0, outputTokens := usage.1, usageReported := true))
      else Err(InvalidRequest)
  {
    var e := UsageEvent(usage);
    assert e.numbers == map[InputTokens := usage.0, OutputTokens := usage.1, Cost := 0];
    assert AsU64(e, InputTokens).Some? <==> FitsU64(usage.0);
    assert AsU64(e, OutputTokens).Some? <==> FitsU64(usage.1);
    assert AsU64(e, Cost) == Some(0);
  }

  lemma SettlementFold(l: Lifecycle, usage: (int, int), settled: Event)
    requires !l.usageReported && settled.typ == AgentSettled
    ensures LifecycleFrom(Pi, l, [UsageEvent(usage)] + [settled]) ==
      if FitsU64(usage.0) && FitsU64(usage.1)
      then Ok(l.(inputTokens := usage.0, outputTokens := usage.1, usageReported := true,
                 state := if l.state == Failed then Failed else if l.interrupted then Interrupted else Completed))
      else Err(InvalidRequest)
  {
    UsageStep(l, usage);
    var events := [UsageEvent(usage)] + [settled];
    assert events[1..] == [settled] && [settled][1..] == [];
    if FitsU64(usage.0) && FitsU64(usage.1) {
      var l' := l.(inputTokens := usage.0, outputTokens := usage.1, usageReported := true);
      assert LifecycleFrom(Pi, l', [settled]) == PiStep(l', settled);
    }
  }

  /** The state in which a run settles. */
  ghost function SettledState(p: Progress): State {
    if Sent(p.handled, ExtensionError) then Failed else if p.interrupted then Interrupted else Completed
  }

  /** The lifecycle of everything emitted before settlement. */
  lemma RunFold(p: Progress)
    requires Faithful(p) && AllNative(p.handled)
    ensures LifecycleFrom(Pi, FRESH, p.emitted) == Ok(FRESH.(
      started := StartCount(p.handled) > 0, interrupted := p.interrupted,
      state := if Sent(p.handled, ExtensionError) then Failed else NotTerminal))
  {
    forall i | 0 <= i < |p.emitted| ensures IsQuiet(p.emitted[i]) { EmittedIsQuiet(p, i); }
    EmittedFold(FRESH, p.emitted);
    EmittedTypes(p, AgentStart);
    EmittedTypes(p, ExtensionError);
    StartedMeansCounted(p.handled);
  }

  lemma VendorFold(p: Progress, usage: (int, int), settled: Event)
    requires Faithful(p) && AllNative(p.handled) && settled.typ == AgentSettled
    ensures LifecycleFrom(Pi, FRESH, VendorPart(p, usage, settled)) ==
      if FitsU64(usage.0) && FitsU64(usage.1)
      then Ok(Lifecycle(StartCount(p.handled) > 0, p.interrupted, SettledState(p), usage.0, usage.1, true, ""))
      else Err(InvalidRequest)
  {
    var report := UsageEvent(usage);
    RunFold(p);
    SettlementFold(LifecycleFrom(Pi, FRESH, p.emitted).value, usage, settled);
    LifecycleAppend(Pi, FRESH, p.emitted, [report] + [settled]);
    AppendIsAssociative(p.emitted, [report], [settled]);
  }

  lemma EmittedPhase(p: Progress, i: nat)
    requires Faithful(p) && AllNative(p.handled) && i < |p.emitted|
    ensures IsQuietPhase(PhaseOf(Pi, p.emitted[i]))
  {
    EmittedIsQuiet(p, i);
  }

  lemma VendorOrder(p: Progress, usage: (int, int), settled: Event)
    requires Faithful(p) && AllNative(p.handled) && settled.typ == AgentSettled
    ensures ValidateLifecycleOrder(Pi, VendorPart(p, usage, settled)).Ok? <==> StartCount(p.handled) == 1
  {
    var report := UsageEvent(usage);
    forall i | 0 <= i < |p.emitted| ensures IsQuietPhase(PhaseOf(Pi, p.emitted[i])) { EmittedPhase(p, i); }
    ClosingOrder(Pi, p.emitted, report, settled);
    EmittedStarts(p);
  }

  /** What makes a settled run acceptable. */
  ghost predicate IsAcceptable(p: Progress, usage: (int, int)) {
    && StartCount(p.handled) == 1
    && !(p.interrupted && Sent(p.handled, ExtensionError))
    && FitsU64(usage.0) && FitsU64(usage.1)
  }

  lemma LifecycleExactly(p: Progress, usage: (int, int), settled: Event, submission: Option<Submission>)
    requires Faithful(p) && AllNative(p.handled) && settled.typ == AgentSettled
    requires p.interrupted <==> submission.None?
    requires submission.Some? ==> !IsBlank(submission.value.summary)
    ensures var result := ValidateLifecycle(Pi, VendorPart(p, usage, settled), submission);
      && (result.Ok? <==> IsAcceptable(p, usage))
      && (result.Ok? ==> result.value.state == SettledState(p) && result.value.inputTokens == usage.0
                         && result.value.outputTokens == usage.1)
  {
    VendorFold(p, usage, settled);
    VendorOrder(p, usage, settled);
    if FitsU64(usage.0) && FitsU64(usage.1) {
      var l := Lifecycle(StartCount(p.handled) > 0, p.interrupted, SettledState(p), usage.0, usage.1, true, "");
      LifecycleIsJudged(Pi, VendorPart(p, usage, settled), submission, l);
    }
  }

  lemma VendorPartIsVendor(p: Progress, usage: (int, int), settled: Event, e: Event)
    requires Faithful(p) && AllNative(p.handled) && settled.typ == AgentSettled
    requires e in VendorPart(p, usage, settled)
    ensures IsVendor(e)
  {
    if e in p.emitted {
      var i :| 0 <= i < |p.emitted| && p.emitted[i] == e;
      EmittedIsQuiet(p, i);
    }
  }

  /** `parse_result` refuses blank summaries. */
  ghost predicate ParsesLegibly(parse: string -> Option<string>) {
    forall text :: parse(text).Some? ==> !IsBlank(parse(text).value)
  }

  lemma OwnResultIsSubmitted(launch: Launch, p: Progress, parse: string -> Option<string>, expectation: Expectation)
    requires LaunchedFor(launch, expectation) && ParsesLegibly(parse) && SummaryOf(p, parse).Some?
    ensures var result := OwnResult(launch, p, SummaryOf(p, parse).value);
      && ResultIsValid(result, expectation)
      && (SubmissionOf(result, expectation).None? <==> p.interrupted)
      && (!p.interrupted ==> !IsBlank(SubmissionOf(result, expectation).value.summary))
  {
    OwnResultIsValid(launch, SummaryOf(p, parse).value, expectation);
  }

  /** A run that settles is accepted exactly when Pi reported one agent start, it was not
      both interrupted and failed, and its totals are u64; the report then has the
      settled state and the session's own totals. */
  lemma SettledRunIsAcceptedExactly(launch: Launch, p: Progress, settled: Event, stats: Stats, parse: string -> Option<string>,
                                    expectation: Expectation)
    requires Faithful(p) && AllNative(p.handled) && settled.typ == AgentSettled
    requires LaunchedFor(launch, expectation) && ParsesLegibly(parse)
    requires Settle(launch, p, settled, stats, parse).Some?
    ensures var usage := SessionUsage(stats, p.observed).value;
      var result := ValidateTrace(Pi, Settle(launch, p, settled, stats, parse).value, expectation);
      && (result.Ok? <==> IsAcceptable(p, usage))
      && (result.Ok? ==> result.value.state == SettledState(p) && result.value.inputTokens == usage.0
                         && result.value.outputTokens == usage.1)
  {
    var usage, summary := SessionUsage(stats, p.observed).value, SummaryOf(p, parse).value;
    var result := OwnResult(launch, p, summary);
    OwnResultIsSubmitted(launch, p, parse, expectation);
    forall e | e in VendorPart(p, usage, settled) ensures IsVendor(e) { VendorPartIsVendor(p, usage, settled, e); }
    TraceIsAcceptedExactly(Pi, launch, VendorPart(p, usage, settled), result, expectation);
    LifecycleExactly(p, usage, settled, SubmissionOf(result, expectation));
  }
}
