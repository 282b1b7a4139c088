/** Live telemetry: the online fold over every observed event, and its agreement
    with the report that the contract computes afterwards. */
module LiveTelemetry {
  import opened Prelude
  import opened AdapterEvents
  import opened AdapterContract
  import opened TraceGuarantees

  datatype Usage = Usage(inputTokens: u64, outputTokens: u64, reported: bool)

  const UNREPORTED := Usage(0, 0, false)

  /** Counts are taken only when both are present. */
  function Counts(e: Event, input: Field, output: Field): Option<(u64, u64)> {
    var i, o := AsU64(e, input), AsU64(e, output);
    if i.Some? && o.Some? then Some((i.value, o.value)) else None
  }

  function Replace(usage: Usage, counts: Option<(u64, u64)>): Usage {
    if counts.Some? then Usage(counts.value.0, counts.value.1, true) else usage
  }

  function Accumulate(usage: Usage, counts: Option<(u64, u64)>): Usage {
    if counts.Some?
    then Usage(SaturatingAdd(usage.inputTokens, counts.value.0), SaturatingAdd(usage.outputTokens, counts.value.1), true)
    else usage
  }

  function ObserveUsage(kind: Kind, usage: Usage, e: Event): Usage {
    match kind
    case Codex =>
      if e.rpc == TokenUsageUpdated then Replace(usage, Counts(e, TotalInputTokens, TotalOutputTokens)) else usage
    case Claude =>
      if e.typ == ModelRequestEnd then Accumulate(usage, Counts(e, SpanInputTokens, SpanOutputTokens)) else usage
    case Pi =>
      if e.typ == PiUsage then Replace(usage, Counts(e, InputTokens, OutputTokens))
      else if e.typ == MessageEnd && e.isAssistant then Accumulate(usage, Counts(e, MessageInputTokens, MessageOutputTokens))
      else usage
    case OpenCode =>
      if e.typ == OpenCodeUsage then Replace(usage, Counts(e, InputTokens, OutputTokens)) else usage
  }

  function ObserveAll(kind: Kind, usage: Usage, trace: seq<Event>): Usage
    decreases |trace|
  {
    if trace == [] then usage else ObserveAll(kind, ObserveUsage(kind, usage, trace[0]), trace[1..])
  }

  /** The native session that the last ready event names. */
  function ObserveSession(session: Option<string>, e: Event): Option<string> {
    if e.typ == Ready then AsStr(e, NativeSessionId) else session
  }

  function SessionOf(session: Option<string>, trace: seq<Event>): Option<string>
    decreases |trace|
  {
    if trace == [] then session else SessionOf(ObserveSession(session, trace[0]), trace[1..])
  }

  ghost predicate LastReady(trace: seq<Event>, i: nat) {
    i < |trace| && trace[i].typ == Ready && forall j :: i < j < |trace| ==> trace[j].typ != Ready
  }

  lemma {:induction false} SessionWithoutReady(session: Option<string>, trace: seq<Event>)
    requires forall i :: 0 <= i < |trace| ==> trace[i].typ != Ready
    ensures SessionOf(session, trace) == session
    decreases |trace|
  {
    if trace != [] {
      assert trace[0].typ != Ready;
      assert forall i :: 0 <= i < |trace[1..]| ==> trace[1..][i] == trace[i + 1];
      SessionWithoutReady(session, trace[1..]);
    }
  }

  /** The native session is what the last ready event names, whatever came before it. */
  lemma {:induction false} SessionIsTheLastNamed(session: Option<string>, trace: seq<Event>, i: nat)
    requires LastReady(trace, i)
    ensures SessionOf(session, trace) ==
      if NativeSessionId in trace[i].strings then Some(trace[i].strings[NativeSessionId]) else None
    decreases |trace|
  {
    var rest := trace[1..];
    assert forall j :: 0 <= j < |rest| ==> rest[j] == trace[j + 1];
    if i == 0 {
      SessionWithoutReady(ObserveSession(session, trace[0]), rest);
    } else {
      SessionIsTheLastNamed(ObserveSession(session, trace[0]), rest, i - 1);
    }
  }

  /** The telemetry record behind its lock. `sizeOf` is the serialized size of an event. */
  class Telemetry {
    var usage: Usage
    var nativeSessionId: Option<string>
    var rawEvents: seq<Event>
    var rawEventBytes: nat
    var truncated: bool
    const limit: nat
    ghost var observed: seq<Event>

    ghost predicate Valid(kind: Kind, sizeOf: Event -> nat)
      reads this
    {
      && usage == ObserveAll(kind, UNREPORTED, observed)
      && nativeSessionId == SessionOf(None, observed)
      && rawEventBytes == TotalSize(rawEvents, sizeOf) <= limit
      && (!truncated ==> rawEvents == observed)
    }

    constructor (limit: nat, ghost kind: Kind, ghost sizeOf: Event -> nat)
      ensures Valid(kind, sizeOf) && observed == [] && this.limit == limit
    {
      this.limit := limit;
      usage, nativeSessionId := UNREPORTED, None;
      rawEvents, rawEventBytes, truncated, observed := [], 0, false, [];
    }

    method ObserveAdapterEvent(kind: Kind, e: Event, sizeOf: Event -> nat)
      requires Valid(kind, sizeOf)
      modifies this
      ensures Valid(kind, sizeOf) && observed == old(observed) + [e]
      ensures usage == ObserveUsage(kind, old(usage), e) && nativeSessionId == ObserveSession(old(nativeSessionId), e)
      ensures truncated <==> old(truncated) || old(rawEventBytes) + sizeOf(e) > limit
      ensures rawEvents == if old(rawEventBytes) + sizeOf(e) <= limit then old(rawEvents) + [e] else old(rawEvents)
    {
      var size := sizeOf(e);
      ObserveSnoc(kind, UNREPORTED, observed, e);
      SessionSnoc(None, observed, e);
      TotalSizeSnoc(rawEvents, e, sizeOf);
      if rawEventBytes + size <= limit {
        rawEvents := rawEvents + [e];
        rawEventBytes := rawEventBytes + size;
      } else {
        truncated := true;
      }
      if e.typ == Ready {
        nativeSessionId := AsStr(e, NativeSessionId);
      }
      usage := ObserveUsage(kind, usage, e);
      observed := observed + [e];
    }
  }

  ghost function TotalSize(events: seq<Event>, sizeOf: Event -> nat): nat {
    if events == [] then 0 else sizeOf(events[0]) + TotalSize(events[1..], sizeOf)
  }

  lemma {:induction false} TotalSizeSnoc(events: seq<Event>, e: Event, sizeOf: Event -> nat)
    ensures TotalSize(events + [e], sizeOf) == TotalSize(events, sizeOf) + sizeOf(e)
  {
    if events != [] {
      var more := events + [e];
      assert more[0] == events[0] && more[1..] == events[1..] + [e];
      TotalSizeSnoc(events[1..], e, sizeOf);
    }
  }

  lemma {:induction false} ObserveSnoc(kind: Kind, usage: Usage, trace: seq<Event>, e: Event)
    ensures ObserveAll(kind, usage, trace + [e]) == ObserveUsage(kind, ObserveAll(kind, usage, trace), e)
    decreases |trace|
  {
    if trace != [] {
      var more := trace + [e];
      assert more[0] == trace[0] && more[1..] == trace[1..] + [e];
      ObserveSnoc(kind, ObserveUsage(kind, usage, trace[0]), trace[1..], e);
    }
  }

  lemma {:induction false} SessionSnoc(session: Option<string>, trace: seq<Event>, e: Event)
    ensures SessionOf(session, trace + [e]) == ObserveSession(SessionOf(session, trace), e)
    decreases |trace|
  {
    if trace != [] {
      var more := trace + [e];
      assert more[0] == trace[0] && more[1..] == trace[1..] + [e];
      SessionSnoc(ObserveSession(session, trace[0]), trace[1..], e);
    }
  }

  // ----- agreement with the contract

  lemma {:induction false} SessionStands(session: Option<string>, trace: seq<Event>)
    requires forall i :: 0 <= i < |trace| ==> trace[i].typ != Ready
    ensures SessionOf(session, trace) == session
    decreases |trace|
  {
    if trace != [] {
      SessionStands(session, trace[1..]);
    }
  }

  lemma ReportedSession(kind: Kind, trace: seq<Event>, expectation: Expectation, report: Report)
    requires ValidateTrace(kind, trace, expectation) == Ok(report)
    ensures trace != [] && AsStr(trace[0], NativeSessionId) == Some(report.nativeSessionId)
  {
  }

  /** On every accepted trace of any kind, the session followed live is the reported one. */
  lemma LiveSessionMatchesReport(kind: Kind, trace: seq<Event>, expectation: Expectation, report: Report)
    requires ValidateTrace(kind, trace, expectation) == Ok(report)
    ensures SessionOf(None, trace) == Some(report.nativeSessionId)
  {
    AcceptedTraceBeginsReady(kind, trace, expectation);
    ReportedSession(kind, trace, expectation, report);
    SessionStands(ObserveSession(None, trace[0]), trace[1..]);
  }

  ghost predicate Agrees(usage: Usage, l: Lifecycle) {
    usage == Usage(l.inputTokens, l.outputTokens, l.usageReported)
  }

  /** An event that the live fold counts although the contract sets it aside. */
  ghost predicate IsStray(kind: Kind, e: Event) {
    !IsVendor(e) && PhaseOf(kind, e) == ReportsUsage
  }

  /** The contract's state after the first event of a trace it accepts. */
  ghost function NextLifecycle(kind: Kind, trace: seq<Event>, l: Lifecycle): (next: Lifecycle)
    requires trace != [] && LifecycleFrom(kind, l, VendorEvents(trace)).Ok?
    ensures LifecycleFrom(kind, next, VendorEvents(trace[1..])) == LifecycleFrom(kind, l, VendorEvents(trace))
    ensures IsVendor(trace[0]) ==> LifecycleStep(kind, l, trace[0]) == Ok(next)
    ensures !IsVendor(trace[0]) ==> next == l
  {
    var e, later := trace[0], VendorEvents(trace[1..]);
    assert VendorEvents(trace) == if IsVendor(e) then [e] + later else later;
    if IsVendor(e) then
      assert VendorEvents(trace)[1..] == later;
      LifecycleStep(kind, l, e).value
    else l
  }

  lemma {:induction false} LiveFollowsLifecycle(kind: Kind, trace: seq<Event>, usage: Usage, l: Lifecycle)
    requires kind != Pi && Agrees(usage, l)
    requires LifecycleFrom(kind, l, VendorEvents(trace)).Ok?
    requires forall i :: 0 <= i < |trace| ==> !IsStray(kind, trace[i])
    ensures Agrees(ObserveAll(kind, usage, trace), LifecycleFrom(kind, l, VendorEvents(trace)).value)
    decreases |trace|
  {
    if trace != [] {
      var e, usage' := trace[0], ObserveUsage(kind, usage, trace[0]);
      if IsVendor(e) {
        StepAgrees(kind, usage, l, e);
      } else {
        assert !IsStray(kind, e);
      }
      LiveFollowsLifecycle(kind, trace[1..], usage', NextLifecycle(kind, trace, l));
    }
  }

  lemma StepAgrees(kind: Kind, usage: Usage, l: Lifecycle, e: Event)
    requires kind != Pi && Agrees(usage, l) && LifecycleStep(kind, l, e).Ok?
    ensures Agrees(ObserveUsage(kind, usage, e), LifecycleStep(kind, l, e).value)
  {
    match kind
    case Codex => CodexStepAgrees(usage, l, e);
    case Claude => ClaudeStepAgrees(usage, l, e);
    case OpenCode => OpenCodeStepAgrees(usage, l, e);
    case Pi =>
  }

  lemma CodexStepAgrees(usage: Usage, l: Lifecycle, e: Event)
    requires Agrees(usage, l) && CodexStep(l, e).Ok?
    ensures Agrees(ObserveUsage(Codex, usage, e), CodexStep(l, e).value)
  {
  }

  lemma ClaudeStepAgrees(usage: Usage, l: Lifecycle, e: Event)
    requires Agrees(usage, l) && ClaudeStep(l, e).Ok?
    ensures Agrees(ObserveUsage(Claude, usage, e), ClaudeStep(l, e).value)
  {
  }

  lemma OpenCodeStepAgrees(usage: Usage, l: Lifecycle, e: Event)
    requires Agrees(usage, l) && OpenCodeStep(l, e).Ok?
    ensures Agrees(ObserveUsage(OpenCode, usage, e), OpenCodeStep(l, e).value)
  {
  }

  ghost predicate ReportsSameTokens(usage: Usage, report: Report) {
    usage.reported && usage.inputTokens == report.inputTokens && usage.outputTokens == report.outputTokens
  }

  lemma ValidatedFold(kind: Kind, events: seq<Event>, submission: Option<Submission>, lifecycle: Lifecycle) returns (l: Lifecycle)
    requires ValidateLifecycle(kind, events, submission) == Ok(lifecycle)
    ensures LifecycleFrom(kind, FRESH, events) == Ok(l)
    ensures l.inputTokens == lifecycle.inputTokens && l.outputTokens == lifecycle.outputTokens && l.usageReported
  {
    l := LifecycleFrom(kind, FRESH, events).value;
  }

  lemma AcceptedLifecycle(kind: Kind, trace: seq<Event>, expectation: Expectation, report: Report) returns (l: Lifecycle)
    requires ValidateTrace(kind, trace, expectation) == Ok(report)
    ensures LifecycleFrom(kind, FRESH, VendorEvents(trace)) == Ok(l)
    ensures l.inputTokens == report.inputTokens && l.outputTokens == report.outputTokens && l.usageReported
  {
    var submission, lifecycle := AcceptedParts(kind, trace, expectation, report);
    l := ValidatedFold(kind, VendorEvents(trace), submission, lifecycle);
  }

  /** Claude's saturating live sums and OpenCode's single report equal what the
      contract reports, on every accepted trace. */
  lemma LiveUsageMatchesReport(kind: Kind, trace: seq<Event>, expectation: Expectation, report: Report)
    requires kind == Claude || kind == OpenCode
    requires ValidateTrace(kind, trace, expectation) == Ok(report)
    ensures ReportsSameTokens(ObserveAll(kind, UNREPORTED, trace), report)
  {
    var l := AcceptedLifecycle(kind, trace, expectation, report);
    LiveFollowsLifecycle(kind, trace, UNREPORTED, FRESH);
  }

  // ----- Codex: the last of a monotone series

  ghost predicate CarriesTotals(e: Event) {
    e.rpc == TokenUsageUpdated && Counts(e, TotalInputTokens, TotalOutputTokens).Some?
  }

  ghost function Totals(e: Event): (u64, u64)
    requires CarriesTotals(e)
  {
    Counts(e, TotalInputTokens, TotalOutputTokens).value
  }

  /** The last event, of any class, from which the live fold takes totals. */
  ghost predicate IsLastCarrier(trace: seq<Event>, c: nat) {
    c < |trace| && CarriesTotals(trace[c]) && forall i :: c < i < |trace| ==> !CarriesTotals(trace[i])
  }

  /** The last usage report that the contract considers. */
  ghost predicate IsLastReport(trace: seq<Event>, u: nat) {
    && u < |trace| && PhaseAt(Codex, trace, u) == ReportsUsage
    && forall i: nat :: u < i < |trace| ==> PhaseAt(Codex, trace, i) != ReportsUsage
  }

  lemma {:induction false} NoCarrierNoChange(trace: seq<Event>, usage: Usage)
    requires forall i :: 0 <= i < |trace| ==> !CarriesTotals(trace[i])
    ensures ObserveAll(Codex, usage, trace) == usage
    decreases |trace|
  {
    if trace != [] {
      assert !CarriesTotals(trace[0]);
      NoCarrierNoChange(trace[1..], usage);
    }
  }

  lemma {:induction false} LiveTakesLastCarrier(trace: seq<Event>, usage: Usage, c: nat)
    requires IsLastCarrier(trace, c)
    ensures ObserveAll(Codex, usage, trace) == Usage(Totals(trace[c]).0, Totals(trace[c]).1, true)
    decreases |trace|
  {
    var usage' := ObserveUsage(Codex, usage, trace[0]);
    if c == 0 {
      NoCarrierNoChange(trace[1..], usage');
    } else {
      LiveTakesLastCarrier(trace[1..], usage', c - 1);
    }
  }

  lemma {:induction false} NoReportNoChange(trace: seq<Event>, l: Lifecycle)
    requires LifecycleFrom(Codex, l, VendorEvents(trace)).Ok?
    requires forall i: nat :: i < |trace| ==> PhaseAt(Codex, trace, i) != ReportsUsage
    ensures var r := LifecycleFrom(Codex, l, VendorEvents(trace)).value;
      r.inputTokens == l.inputTokens && r.outputTokens == l.outputTokens
    decreases |trace|
  {
    if trace != [] {
      var later := trace[1..];
      assert forall i: nat :: i < |later| ==> PhaseAt(Codex, later, i) == PhaseAt(Codex, trace, i + 1);
      assert PhaseAt(Codex, trace, 0) != ReportsUsage;
      NoReportNoChange(later, NextLifecycle(Codex, trace, l));
    }
  }

  lemma {:induction false} ContractTakesLastReport(trace: seq<Event>, l: Lifecycle, u: nat)
    requires LifecycleFrom(Codex, l, VendorEvents(trace)).Ok? && IsLastReport(trace, u)
    ensures CarriesTotals(trace[u])
    ensures var r := LifecycleFrom(Codex, l, VendorEvents(trace)).value; Totals(trace[u]) == (r.inputTokens, r.outputTokens)
    decreases |trace|
  {
    var later, next := trace[1..], NextLifecycle(Codex, trace, l);
    assert forall i: nat :: i < |later| ==> PhaseAt(Codex, later, i) == PhaseAt(Codex, trace, i + 1);
    if u == 0 {
      NoReportNoChange(later, next);
    } else {
      assert PhaseAt(Codex, later, u - 1) == ReportsUsage;
      ContractTakesLastReport(later, next, u - 1);
    }
  }

  /** On an accepted Codex trace, live totals equal the reported ones exactly when
      the last event that carries totals repeats the last usage report. The two
      differ only if a ready, Skill or Result event also carries totals. */
  lemma CodexLiveMatchesExactly(trace: seq<Event>, expectation: Expectation, report: Report, u: nat, c: nat)
    requires ValidateTrace(Codex, trace, expectation) == Ok(report)
    requires IsLastReport(trace, u) && IsLastCarrier(trace, c)
    ensures CarriesTotals(trace[u])
    ensures ReportsSameTokens(ObserveAll(Codex, UNREPORTED, trace), report) <==> Totals(trace[c]) == Totals(trace[u])
    ensures u != c ==> !IsVendor(trace[c])
  {
    var l := AcceptedLifecycle(Codex, trace, expectation, report);
    ContractTakesLastReport(trace, FRESH, u);
    LiveTakesLastCarrier(trace, UNREPORTED, c);
    if u < c {
      assert PhaseAt(Codex, trace, c) != ReportsUsage;
    }
  }

  lemma {:induction false} LastReportFrom(trace: seq<Event>, w: nat) returns (u: nat)
    requires w < |trace| && PhaseAt(Codex, trace, w) == ReportsUsage
    ensures IsLastReport(trace, u)
    decreases |trace| - w
  {
    if v: nat :| w < v < |trace| && PhaseAt(Codex, trace, v) == ReportsUsage {
      u := LastReportFrom(trace, v);
    } else {
      u := w;
    }
  }

  lemma {:induction false} LastCarrierFrom(trace: seq<Event>, w: nat) returns (c: nat)
    requires w < |trace| && CarriesTotals(trace[w])
    ensures IsLastCarrier(trace, c)
    decreases |trace| - w
  {
    if v: nat :| w < v < |trace| && CarriesTotals(trace[v]) {
      c := LastCarrierFrom(trace, v);
    } else {
      c := w;
    }
  }

  /** Every accepted Codex trace has a last usage report and a last carrier of totals,
      so the condition of `CodexLiveMatchesExactly` decides all of them. */
  lemma CodexCarriersExist(trace: seq<Event>, expectation: Expectation, report: Report) returns (u: nat, c: nat)
    requires ValidateTrace(Codex, trace, expectation) == Ok(report)
    ensures IsLastReport(trace, u) && IsLastCarrier(trace, c)
  {
    var l := AcceptedLifecycle(Codex, trace, expectation, report);
    var _, _, usage := AcceptedTraceIsOrdered(Codex, trace, expectation, report);
    u := LastReportFrom(trace, usage);
    ContractTakesLastReport(trace, FRESH, u);
    c := LastCarrierFrom(trace, u);
  }

  /** Without such stray events the Codex totals agree. */
  lemma CodexLiveMatchesReport(trace: seq<Event>, expectation: Expectation, report: Report)
    requires ValidateTrace(Codex, trace, expectation) == Ok(report)
    requires forall i :: 0 <= i < |trace| ==> !IsStray(Codex, trace[i])
    ensures ReportsSameTokens(ObserveAll(Codex, UNREPORTED, trace), report)
  {
    var l := AcceptedLifecycle(Codex, trace, expectation, report);
    LiveFollowsLifecycle(Codex, trace, UNREPORTED, FRESH);
  }

  // ----- Pi: one authoritative report, then assistant messages still add

  ghost function MessageCounts(e: Event): Option<(u64, u64)> {
    if e.typ == MessageEnd && e.isAssistant then Counts(e, MessageInputTokens, MessageOutputTokens) else None
  }

  /** A message leaves totals unchanged if it counts nothing or they are saturated. */
  ghost predicate AddsNothing(e: Event, usage: Usage) {
    MessageCounts(e).Some? ==>
      && (MessageCounts(e).value.0 == 0 || usage.inputTokens == U64_MAX)
      && (MessageCounts(e).value.1 == 0 || usage.outputTokens == U64_MAX)
  }

  ghost predicate NoPiReport(trace: seq<Event>) {
    forall i :: 0 <= i < |trace| ==> trace[i].typ != PiUsage
  }

  lemma {:induction false} PiTotalsGrow(trace: seq<Event>, usage: Usage)
    requires NoPiReport(trace)
    ensures var r := ObserveAll(Pi, usage, trace);
      usage.inputTokens <= r.inputTokens && usage.outputTokens <= r.outputTokens && (usage.reported ==> r.reported)
    decreases |trace|
  {
    if trace != [] {
      PiTotalsGrow(trace[1..], ObserveUsage(Pi, usage, trace[0]));
    }
  }

  ghost predicate SameTokens(a: Usage, b: Usage) {
    a.inputTokens == b.inputTokens && a.outputTokens == b.outputTokens
  }

  lemma {:induction false} PiTotalsStayExactly(trace: seq<Event>, usage: Usage)
    requires NoPiReport(trace) && usage.reported
    ensures SameTokens(ObserveAll(Pi, usage, trace), usage) <==> forall i :: 0 <= i < |trace| ==> AddsNothing(trace[i], usage)
    decreases |trace|
  {
    if trace != [] {
      var later, usage' := trace[1..], ObserveUsage(Pi, usage, trace[0]);
      assert trace[0].typ != PiUsage;
      assert forall i :: 0 <= i < |later| ==> later[i] == trace[i + 1];
      if AddsNothing(trace[0], usage) {
        assert usage' == usage;
        PiTotalsStayExactly(later, usage);
        assert forall i :: 0 < i < |trace| ==> trace[i] == later[i - 1];
      } else {
        PiTotalsGrow(later, usage');
      }
    }
  }

  lemma PiReportReplaces(usage: Usage, l: Lifecycle, e: Event)
    requires e.typ == PiUsage && PiStep(l, e).Ok?
    ensures var next := PiStep(l, e).value;
      ObserveUsage(Pi, usage, e) == Usage(next.inputTokens, next.outputTokens, true)
  {
  }

  lemma {:induction false} PiLiveAfterReport(trace: seq<Event>, usage: Usage, l: Lifecycle, u: nat)
    requires LifecycleFrom(Pi, l, VendorEvents(trace)).Ok? && u < |trace| && trace[u].typ == PiUsage
    requires NoPiReport(trace[u + 1..])
    ensures var r := LifecycleFrom(Pi, l, VendorEvents(trace)).value;
      ObserveAll(Pi, usage, trace) == ObserveAll(Pi, Usage(r.inputTokens, r.outputTokens, true), trace[u + 1..])
    decreases |trace|
  {
    var later, next := trace[1..], NextLifecycle(Pi, trace, l);
    if u == 0 {
      PiReportReplaces(usage, l, trace[0]);
      PiReportStands(later, next);
    } else {
      assert later[u..] == trace[u + 1..];
      PiLiveAfterReport(later, ObserveUsage(Pi, usage, trace[0]), next, u - 1);
    }
  }

  /** Only the usage report changes totals, and after it there is no other. */
  lemma PiStepTotals(l: Lifecycle, e: Event)
    requires PiStep(l, e).Ok?
    ensures var next := PiStep(l, e).value;
      && (l.usageReported ==> e.typ != PiUsage && next.usageReported)
      && (e.typ != PiUsage ==> next.inputTokens == l.inputTokens && next.outputTokens == l.outputTokens)
      && (e.typ == PiUsage ==> next.usageReported)
  {
  }

  lemma PiNextTotals(trace: seq<Event>, l: Lifecycle)
    requires trace != [] && LifecycleFrom(Pi, l, VendorEvents(trace)).Ok?
    ensures var next := NextLifecycle(Pi, trace, l);
      && (l.usageReported ==> trace[0].typ != PiUsage && next.usageReported)
      && (trace[0].typ != PiUsage ==> next.inputTokens == l.inputTokens && next.outputTokens == l.outputTokens)
      && (trace[0].typ == PiUsage ==> next.usageReported)
  {
    if IsVendor(trace[0]) {
      PiStepTotals(l, trace[0]);
    }
  }

  lemma {:induction false} PiReportStands(trace: seq<Event>, l: Lifecycle)
    requires NoPiReport(trace) && LifecycleFrom(Pi, l, VendorEvents(trace)).Ok?
    ensures var r := LifecycleFrom(Pi, l, VendorEvents(trace)).value;
      r.inputTokens == l.inputTokens && r.outputTokens == l.outputTokens
    decreases |trace|
  {
    if trace != [] {
      assert trace[0].typ != PiUsage;
      PiNextTotals(trace, l);
      PiReportStands(trace[1..], NextLifecycle(Pi, trace, l));
    }
  }

  lemma {:induction false} PiReportsOnce(trace: seq<Event>, l: Lifecycle)
    requires l.usageReported && LifecycleFrom(Pi, l, VendorEvents(trace)).Ok?
    ensures NoPiReport(trace)
    decreases |trace|
  {
    if trace != [] {
      PiNextTotals(trace, l);
      PiReportsOnce(trace[1..], NextLifecycle(Pi, trace, l));
      assert forall i :: 0 < i < |trace| ==> trace[i] == trace[1..][i - 1];
    }
  }

  lemma {:induction false} NothingReportsAfter(trace: seq<Event>, l: Lifecycle, u: nat)
    requires LifecycleFrom(Pi, l, VendorEvents(trace)).Ok? && u < |trace| && trace[u].typ == PiUsage
    ensures NoPiReport(trace[u + 1..])
    decreases |trace|
  {
    var next := NextLifecycle(Pi, trace, l);
    PiNextTotals(trace, l);
    if u == 0 {
      PiReportsOnce(trace[1..], next);
    } else {
      assert trace[1..][u..] == trace[u + 1..];
      NothingReportsAfter(trace[1..], next, u - 1);
    }
  }

  lemma AddsNothingAfter(trace: seq<Event>, u: nat, later: seq<Event>, usage: Usage)
    requires u < |trace| && later == trace[u + 1..]
    ensures (forall i :: u < i < |trace| ==> AddsNothing(trace[i], usage)) <==>
      forall i :: 0 <= i < |later| ==> AddsNothing(later[i], usage)
  {
    assert forall i :: 0 <= i < |later| ==> later[i] == trace[u + 1 + i];
    assert forall i :: u < i < |trace| ==> trace[i] == later[i - u - 1];
  }

  /** On an accepted Pi trace, live totals equal the reported ones exactly when no
      assistant message after the usage report adds to an unsaturated total. */
  lemma PiLiveMatchesExactly(trace: seq<Event>, expectation: Expectation, report: Report, u: nat)
    requires ValidateTrace(Pi, trace, expectation) == Ok(report)
    requires u < |trace| && trace[u].typ == PiUsage
    ensures ReportsSameTokens(ObserveAll(Pi, UNREPORTED, trace), report) <==>
      forall i :: u < i < |trace| ==> AddsNothing(trace[i], Usage(report.inputTokens, report.outputTokens, true))
  {
    var l := AcceptedLifecycle(Pi, trace, expectation, report);
    NothingReportsAfter(trace, FRESH, u);
    PiLiveAfterReport(trace, UNREPORTED, FRESH, u);
    var later, usage := trace[u + 1..], Usage(report.inputTokens, report.outputTokens, true);
    PiTotalsStayExactly(later, usage);
    PiTotalsGrow(later, usage);
    AddsNothingAfter(trace, u, later, usage);
  }
}
