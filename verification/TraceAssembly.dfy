/** The folds and scans of the contract over traces put together from parts. */
module TraceAssembly {
  import opened Prelude
  import opened AdapterEvents
  import opened AdapterContract

  lemma {:induction false} LifecycleAppend(kind: Kind, l: Lifecycle, a: seq<Event>, b: seq<Event>)
    requires LifecycleFrom(kind, l, a).Ok?
    ensures LifecycleFrom(kind, l, a + b) == LifecycleFrom(kind, LifecycleFrom(kind, l, a).value, b)
    decreases |a|
  {
    if a == [] {
      assert a + b == b;
    } else {
      var ab := a + b;
      assert ab[0] == a[0] && ab[1..] == a[1..] + b;
      LifecycleAppend(kind, LifecycleStep(kind, l, a[0]).value, a[1..], b);
    }
  }

  lemma LifecycleSnoc(kind: Kind, l: Lifecycle, events: seq<Event>, e: Event)
    requires LifecycleFrom(kind, l, events).Ok?
    ensures LifecycleFrom(kind, l, events + [e]) == LifecycleStep(kind, LifecycleFrom(kind, l, events).value, e)
  {
    LifecycleAppend(kind, l, events, [e]);
    assert [e][1..] == [];
  }

  lemma {:induction false} RejectionStands(kind: Kind, l: Lifecycle, a: seq<Event>, b: seq<Event>)
    requires LifecycleFrom(kind, l, a).Err?
    ensures LifecycleFrom(kind, l, a + b).Err?
    decreases |a|
  {
    var ab := a + b;
    assert ab[0] == a[0] && ab[1..] == a[1..] + b;
    if LifecycleStep(kind, l, a[0]).Ok? {
      RejectionStands(kind, LifecycleStep(kind, l, a[0]).value, a[1..], b);
    }
  }

  // ----- order

  /** The events are in the phase at one position only. */
  ghost predicate OnlyAt(kind: Kind, events: seq<Event>, phase: Phase, at: nat) {
    at < |events| && forall i: nat :: i < |events| ==> (PhaseOf(kind, events[i]) == phase <==> i == at)
  }

  lemma {:induction false} NoPosition(kind: Kind, events: seq<Event>, phase: Phase)
    requires forall i :: 0 <= i < |events| ==> PhaseOf(kind, events[i]) != phase
    ensures Positions(kind, events, phase) == []
  {
    if events != [] {
      NoPosition(kind, events[..|events| - 1], phase);
    }
  }

  lemma PositionsUnfold(kind: Kind, events: seq<Event>, phase: Phase)
    requires events != []
    ensures var last := |events| - 1;
      Positions(kind, events, phase) ==
      Positions(kind, events[..last], phase) + if PhaseOf(kind, events[last]) == phase then [last] else []
  {
  }

  lemma PositionsSnoc(kind: Kind, events: seq<Event>, e: Event, phase: Phase)
    ensures Positions(kind, events + [e], phase)
         == Positions(kind, events, phase) + if PhaseOf(kind, e) == phase then [|events|] else []
  {
    var more := events + [e];
    assert more[|more| - 1] == e && more[..|more| - 1] == events;
    PositionsUnfold(kind, more, phase);
  }

  lemma {:induction false} SinglePosition(kind: Kind, events: seq<Event>, phase: Phase, at: nat)
    requires OnlyAt(kind, events, phase, at)
    ensures Positions(kind, events, phase) == [at]
  {
    var last := |events| - 1;
    var earlier := events[..last];
    PositionsUnfold(kind, events, phase);
    assert PhaseOf(kind, events[last]) == phase <==> at == last;
    if at == last {
      NoPosition(kind, earlier, phase);
    } else {
      SinglePosition(kind, earlier, phase, at);
    }
  }

  /** One start, one later usage report and one terminal after it are in order. */
  lemma OrderFromPositions(kind: Kind, events: seq<Event>, start: nat, usage: nat, terminal: nat)
    requires OnlyAt(kind, events, Starts, start) && OnlyAt(kind, events, ReportsUsage, usage)
    requires OnlyAt(kind, events, Terminates, terminal) && start < usage < terminal
    ensures ValidateLifecycleOrder(kind, events).Ok?
  {
    SinglePosition(kind, events, Starts, start);
    SinglePosition(kind, events, ReportsUsage, usage);
    SinglePosition(kind, events, Terminates, terminal);
  }

  /** The order check, on the positions found. */
  predicate PositionsInOrder(starts: seq<nat>, terminals: seq<nat>, usage: seq<nat>) {
    |starts| == 1 && |terminals| == 1 && starts[0] < terminals[0] && forall u | u in usage :: starts[0] < u < terminals[0]
  }

  lemma OrderByPositions(kind: Kind, events: seq<Event>)
    ensures ValidateLifecycleOrder(kind, events).Ok? <==>
      PositionsInOrder(Positions(kind, events, Starts), Positions(kind, events, Terminates), Positions(kind, events, ReportsUsage))
  {
  }

  /** Neither a usage report nor a terminal. */
  predicate IsQuietPhase(phase: Phase) {
    phase == Starts || phase == NoPhase
  }

  lemma ClosingKeepsStarts(kind: Kind, events: seq<Event>, usage: Event, terminal: Event)
    requires PhaseOf(kind, usage) == ReportsUsage && PhaseOf(kind, terminal) == Terminates
    ensures Positions(kind, events + [usage] + [terminal], Starts) == Positions(kind, events, Starts)
  {
    PositionsSnoc(kind, events, usage, Starts);
    PositionsSnoc(kind, events + [usage], terminal, Starts);
  }

  lemma ClosingUsage(kind: Kind, events: seq<Event>, usage: Event, terminal: Event)
    requires forall i :: 0 <= i < |events| ==> IsQuietPhase(PhaseOf(kind, events[i]))
    requires PhaseOf(kind, usage) == ReportsUsage && PhaseOf(kind, terminal) == Terminates
    ensures Positions(kind, events + [usage] + [terminal], ReportsUsage) == [|events|]
  {
    NoPosition(kind, events, ReportsUsage);
    PositionsSnoc(kind, events, usage, ReportsUsage);
    PositionsSnoc(kind, events + [usage], terminal, ReportsUsage);
  }

  lemma ClosingTerminal(kind: Kind, events: seq<Event>, usage: Event, terminal: Event)
    requires forall i :: 0 <= i < |events| ==> IsQuietPhase(PhaseOf(kind, events[i]))
    requires PhaseOf(kind, usage) == ReportsUsage && PhaseOf(kind, terminal) == Terminates
    ensures Positions(kind, events + [usage] + [terminal], Terminates) == [|events| + 1]
  {
    NoPosition(kind, events, Terminates);
    PositionsSnoc(kind, events, usage, Terminates);
    PositionsSnoc(kind, events + [usage], terminal, Terminates);
  }

  lemma OrderAroundOne(starts: seq<nat>, n: nat)
    requires forall i :: 0 <= i < |starts| ==> starts[i] < n
    ensures PositionsInOrder(starts, [n + 1], [n]) <==> |starts| == 1
  {
  }

  /** Quiet events closed by one usage report and one terminal are in order exactly
      when there is one start among them. */
  lemma ClosingOrder(kind: Kind, events: seq<Event>, usage: Event, terminal: Event)
    requires forall i :: 0 <= i < |events| ==> IsQuietPhase(PhaseOf(kind, events[i]))
    requires PhaseOf(kind, usage) == ReportsUsage && PhaseOf(kind, terminal) == Terminates
    ensures ValidateLifecycleOrder(kind, events + [usage] + [terminal]).Ok? <==> |Positions(kind, events, Starts)| == 1
  {
    var all := events + [usage] + [terminal];
    ClosingKeepsStarts(kind, events, usage, terminal);
    ClosingUsage(kind, events, usage, terminal);
    ClosingTerminal(kind, events, usage, terminal);
    OrderByPositions(kind, all);
    OrderAroundOne(Positions(kind, events, Starts), |events|);
  }

  /** A folded lifecycle that passes the checks made after the fold. */
  predicate PassesChecks(l: Lifecycle, summary: string) {
    && l.started && l.usageReported
    && l.state in {Completed, Interrupted, Failed}
    && (l.interrupted <==> l.state == Interrupted)
    && (l.state == Completed ==> !IsBlank(summary))
  }

  lemma DisorderIsRejected(kind: Kind, events: seq<Event>, submission: Option<Submission>)
    requires ValidateLifecycleOrder(kind, events).Err?
    ensures ValidateLifecycle(kind, events, submission).Err?
  {
  }

  lemma LifecycleIsJudged(kind: Kind, events: seq<Event>, submission: Option<Submission>, l: Lifecycle)
    requires LifecycleFrom(kind, FRESH, events) == Ok(l) && l.summary == ""
    ensures var summary := if submission.Some? then submission.value.summary else "";
      var result := ValidateLifecycle(kind, events, submission);
      && (result.Ok? <==> ValidateLifecycleOrder(kind, events).Ok? && PassesChecks(l, summary))
      && (result.Ok? ==> result.value == l.(summary := summary))
  {
  }

  // ----- the shared events

  lemma {:induction false} AllVendor(events: seq<Event>)
    requires forall e :: e in events ==> IsVendor(e)
    ensures VendorEvents(events) == events
  {
    if events != [] {
      AllVendor(events[1..]);
    }
  }

  lemma {:induction false} ReadyCountAppend(a: seq<Event>, b: seq<Event>)
    ensures ReadyCount(a + b) == ReadyCount(a) + ReadyCount(b)
  {
    if a == [] {
      assert a + b == b;
    } else {
      var ab := a + b;
      assert ab[0] == a[0] && ab[1..] == a[1..] + b;
      ReadyCountAppend(a[1..], b);
    }
  }

  lemma {:induction false} TypedResultsAppend(a: seq<Event>, b: seq<Event>)
    ensures TypedResults(a + b) == TypedResults(a) + TypedResults(b)
  {
    if a == [] {
      assert a + b == b;
    } else {
      var ab := a + b;
      assert ab[0] == a[0] && ab[1..] == a[1..] + b;
      TypedResultsAppend(a[1..], b);
      AppendIsAssociative(TypedResults([a[0]]), TypedResults(a[1..]), TypedResults(b));
    }
  }

  lemma {:induction false} VendorHasNoSharedEvents(events: seq<Event>)
    requires forall e :: e in events ==> IsVendor(e)
    ensures ReadyCount(events) == 0 && TypedResults(events) == []
  {
    if events != [] {
      assert events[0] in events;
      VendorHasNoSharedEvents(events[1..]);
    }
  }

  lemma SingletonCounts(e: Event)
    ensures ReadyCount([e]) == if e.typ == Ready then 1 else 0
    ensures TypedResults([e]) == if e.typ == TypedResult then [e] else []
    ensures VendorEvents([e]) == if IsVendor(e) then [e] else []
  {
    assert [e][1..] == [];
  }

  lemma {:induction false} InvokedAppend(a: seq<Event>, b: seq<Event>, prior: seq<SkillVersion>, native: seq<string>, allowed: seq<SkillVersion>)
    requires InvokedFrom(a, prior, native, allowed).Ok?
    ensures InvokedFrom(a + b, prior, native, allowed) == InvokedFrom(b, InvokedFrom(a, prior, native, allowed).value, native, allowed)
    decreases |a|
  {
    if a == [] {
      assert a + b == b;
    } else {
      var ab := a + b;
      assert ab[0] == a[0] && ab[1..] == a[1..] + b;
      var next := if a[0].typ == SkillInvoked then AcceptInvocation(a[0], prior, native, allowed).value else prior;
      InvokedAppend(a[1..], b, next, native, allowed);
    }
  }

  lemma {:induction false} NothingInvoked(events: seq<Event>, prior: seq<SkillVersion>, native: seq<string>, allowed: seq<SkillVersion>)
    requires forall e :: e in events ==> e.typ != SkillInvoked
    ensures InvokedFrom(events, prior, native, allowed) == Ok(prior)
  {
    if events != [] {
      assert events[0] in events;
      NothingInvoked(events[1..], prior, native, allowed);
    }
  }
}
