/** Which finished Codex turns the contract accepts. */
module CodexAcceptance {
  import opened Prelude
  import opened AdapterEvents
  import opened AdapterContract
  import opened TraceAssembly
  import opened AdapterRun
  import opened LiveTelemetry
  import opened CodexQueues

  // ----- the trace of a finished turn

  /** The state that the terminal notification reports; a status that is no string is none
      of the legal ones. */
  function Reported(last: Message): State {
    if last.event.rpc == ErrorMethod then Failed
    else if HasStatus(last) then StateOf(AsStr(last.event, TurnStatus).value)
    else OtherState("")
  }

  function OwnResult(launch: Launch, state: State, summary: string): Option<Event> {
    if state == Completed then Some(ResultEvent(launch, summary)) else None
  }

  function TraceOf(launch: Launch, p: Progress, state: State, summary: string): seq<Event> {
    Trace(launch, p.emitted, OwnResult(launch, state, summary))
  }

  /** The whole trace of a finished turn; `summarize` reads the summary out of the last text. */
  function Finish(launch: Launch, p: Progress, last: Message, summarize: string -> string): seq<Event> {
    TraceOf(launch, p, Reported(last), summarize(p.lastText))
  }

  // ----- usage before the terminal

  ghost predicate ReportsAt(events: seq<Event>, u: nat) {
    u < |events| && events[u].rpc == TokenUsageUpdated
  }

  ghost predicate NoneTerminates(events: seq<Event>) {
    forall i :: 0 <= i < |events| ==> PhaseOf(Codex, events[i]) != Terminates
  }

  ghost predicate AtMostTotals(a: (u64, u64), b: (u64, u64)) {
    a.0 <= b.0 && a.1 <= b.1
  }

  /** Every report carries both totals, and they never fall. */
  ghost predicate TotalsNeverFall(events: seq<Event>) {
    && (forall u: nat :: ReportsAt(events, u) ==> CarriesTotals(events[u]))
    && (forall u: nat, v: nat :: u < v && ReportsAt(events, u) && ReportsAt(events, v) ==>
          AtMostTotals(Totals(events[u]), Totals(events[v])))
  }

  ghost predicate StartsAt(events: seq<Event>, s: nat) {
    s < |events| && events[s].rpc == TurnStarted
  }

  /** What the fold has gathered from events without a terminal. */
  ghost predicate Gathered(l: Lifecycle, events: seq<Event>)
    requires TotalsNeverFall(events)
  {
    && l == Lifecycle(l.started, false, NotTerminal, l.inputTokens, l.outputTokens, l.usageReported, "")
    && (l.started <==> exists s: nat :: StartsAt(events, s))
    && (l.usageReported <==> exists u: nat :: ReportsAt(events, u))
    && (forall u: nat :: ReportsAt(events, u) ==> AtMostTotals(Totals(events[u]), (l.inputTokens, l.outputTokens)))
    && (l.usageReported ==> exists u: nat :: ReportsAt(events, u) && Totals(events[u]) == (l.inputTokens, l.outputTokens))
  }

  ghost predicate Follows(events: seq<Event>, e: Event)
    requires TotalsNeverFall(events)
  {
    e.rpc == TokenUsageUpdated ==>
      && CarriesTotals(e)
      && forall u: nat :: ReportsAt(events, u) ==> AtMostTotals(Totals(events[u]), Totals(e))
  }

  lemma SnocIndex(events: seq<Event>, e: Event)
    ensures var more := events + [e];
      && |more| == |events| + 1 && more[|events|] == e
      && (forall i: nat :: i < |events| ==> more[i] == events[i])
      && (forall u: nat :: ReportsAt(more, u) <==> ReportsAt(events, u) || (u == |events| && e.rpc == TokenUsageUpdated))
      && (forall s: nat :: StartsAt(more, s) <==> StartsAt(events, s) || (s == |events| && e.rpc == TurnStarted))
  {
  }

  lemma TotalsSnoc(events: seq<Event>, e: Event)
    ensures TotalsNeverFall(events + [e]) <==> TotalsNeverFall(events) && Follows(events, e)
  {
    SnocIndex(events, e);
    var more, n := events + [e], |events|;
    if TotalsNeverFall(more) {
      forall u: nat | ReportsAt(events, u) ensures CarriesTotals(events[u]) {
        assert ReportsAt(more, u);
      }
      forall u: nat, v: nat | u < v && ReportsAt(events, u) && ReportsAt(events, v)
        ensures AtMostTotals(Totals(events[u]), Totals(events[v]))
      {
        assert ReportsAt(more, u) && ReportsAt(more, v);
      }
      if e.rpc == TokenUsageUpdated {
        assert ReportsAt(more, n);
        forall u: nat | ReportsAt(events, u) ensures AtMostTotals(Totals(events[u]), Totals(e)) {
          assert ReportsAt(more, u);
        }
      }
    }
  }

  /** The step succeeds exactly when the event follows what was gathered. */
  lemma StepGathers(l: Lifecycle, events: seq<Event>, e: Event)
    requires TotalsNeverFall(events) && Gathered(l, events) && PhaseOf(Codex, e) != Terminates
    ensures CodexStep(l, e).Ok? <==> Follows(events, e)
    ensures Follows(events, e) ==> TotalsNeverFall(events + [e]) && Gathered(CodexStep(l, e).value, events + [e])
  {
    SnocIndex(events, e);
    TotalsSnoc(events, e);
    var more, n := events + [e], |events|;
    if e.rpc == TokenUsageUpdated {
      assert AsU64(e, TotalInputTokens).Some? && AsU64(e, TotalOutputTokens).Some? <==> CarriesTotals(e);
      assert ReportsAt(more, n);
    } else if e.rpc == TurnStarted {
      assert StartsAt(more, n);
    }
    if Follows(events, e) {
      GatheredSnoc(l, events, e);
    }
  }

  lemma GatheredSnoc(l: Lifecycle, events: seq<Event>, e: Event)
    requires TotalsNeverFall(events) && Gathered(l, events) && PhaseOf(Codex, e) != Terminates && Follows(events, e)
    requires TotalsNeverFall(events + [e]) && CodexStep(l, e).Ok?
    ensures Gathered(CodexStep(l, e).value, events + [e])
  {
    SnocIndex(events, e);
    var more, n, l' := events + [e], |events|, CodexStep(l, e).value;
    assert forall u: nat :: ReportsAt(events, u) ==> ReportsAt(more, u) && Totals(more[u]) == Totals(events[u]);
    assert forall s: nat :: StartsAt(events, s) ==> StartsAt(more, s);
    if e.rpc == TokenUsageUpdated {
      assert ReportsAt(more, n) && Totals(more[n]) == (l'.inputTokens, l'.outputTokens);
    } else if e.rpc == TurnStarted {
      assert StartsAt(more, n);
    }
  }

  /** Events without a terminal are legible exactly when totals never fall. */
  lemma {:induction false} TurnFold(events: seq<Event>)
    requires NoneTerminates(events)
    ensures LifecycleFrom(Codex, FRESH, events).Ok? <==> TotalsNeverFall(events)
    ensures TotalsNeverFall(events) ==> Gathered(LifecycleFrom(Codex, FRESH, events).value, events)
  {
    if events != [] {
      var before, e := events[..|events| - 1], events[|events| - 1];
      assert events == before + [e];
      TurnFold(before);
      TotalsSnoc(before, e);
      if TotalsNeverFall(before) {
        var l := LifecycleFrom(Codex, FRESH, before).value;
        LifecycleSnoc(Codex, FRESH, before, e);
        StepGathers(l, before, e);
      } else {
        RejectionStands(Codex, FRESH, before, [e]);
      }
    }
  }

  // ----- order

  ghost predicate IsFirstStart(events: seq<Event>, s: nat) {
    && StartsAt(events, s)
    && (forall t: nat :: StartsAt(events, t) ==> t == s)
    && (forall u: nat :: ReportsAt(events, u) ==> s < u)
  }

  /** The turn starts once, before all usage. */
  ghost predicate StartsFirst(events: seq<Event>) {
    exists s: nat :: IsFirstStart(events, s)
  }

  lemma PositionsAreExact(events: seq<Event>, i: nat)
    ensures i in Positions(Codex, events, Starts) <==> StartsAt(events, i)
    ensures i in Positions(Codex, events, ReportsUsage) <==> ReportsAt(events, i)
  {
  }

  lemma TerminalPositions(events: seq<Event>, last: Event)
    requires NoneTerminates(events) && PhaseOf(Codex, last) == Terminates
    ensures Positions(Codex, events + [last], Starts) == Positions(Codex, events, Starts)
    ensures Positions(Codex, events + [last], ReportsUsage) == Positions(Codex, events, ReportsUsage)
    ensures Positions(Codex, events + [last], Terminates) == [|events|]
  {
    PositionsSnoc(Codex, events, last, Starts);
    PositionsSnoc(Codex, events, last, ReportsUsage);
    PositionsSnoc(Codex, events, last, Terminates);
    NoPosition(Codex, events, Terminates);
  }

  lemma OrderBeforeEnd(starts: seq<nat>, usage: seq<nat>, end: nat)
    requires (forall x :: x in starts ==> x < end) && forall x :: x in usage ==> x < end
    ensures PositionsInOrder(starts, [end], usage) <==> |starts| == 1 && forall u :: u in usage ==> starts[0] < u
  {
    if |starts| == 1 {
      assert starts[0] in starts;
    }
  }

  lemma OneElement(r: seq<nat>)
    requires forall i, j :: 0 <= i < j < |r| ==> r[i] < r[j]
    ensures r != [] && (forall x :: x in r ==> x == r[0]) ==> |r| == 1
  {
    if |r| > 1 {
      assert r[1] in r && r[0] < r[1];
    }
  }

  lemma StartsFirstByPositions(events: seq<Event>, starts: seq<nat>, usage: seq<nat>)
    requires forall i, j :: 0 <= i < j < |starts| ==> starts[i] < starts[j]
    requires forall i: nat :: i in starts <==> StartsAt(events, i)
    requires forall i: nat :: i in usage <==> ReportsAt(events, i)
    ensures StartsFirst(events) <==> |starts| == 1 && forall u :: u in usage ==> starts[0] < u
  {
    if s: nat :| IsFirstStart(events, s) {
      assert s in starts;
      assert forall x :: x in starts ==> x == s;
      assert starts[0] in starts && starts[0] == s;
      OneElement(starts);
      forall u | u in usage ensures s < u {
        assert ReportsAt(events, u);
      }
    }
    if |starts| == 1 && forall u :: u in usage ==> starts[0] < u {
      assert StartsAt(events, starts[0]);
      forall t: nat | StartsAt(events, t) ensures t == starts[0] {
        assert t in starts;
      }
      forall u: nat | ReportsAt(events, u) ensures starts[0] < u {
        assert u in usage;
      }
      assert IsFirstStart(events, starts[0]);
    }
  }

  lemma TurnOrder(events: seq<Event>, last: Event)
    requires NoneTerminates(events) && PhaseOf(Codex, last) == Terminates
    ensures ValidateLifecycleOrder(Codex, events + [last]).Ok? <==> StartsFirst(events)
  {
    var starts, usage := Positions(Codex, events, Starts), Positions(Codex, events, ReportsUsage);
    OrderByPositions(Codex, events + [last]);
    TerminalPositions(events, last);
    OrderBeforeEnd(starts, usage, |events|);
    forall i: nat ensures (i in starts <==> StartsAt(events, i)) && (i in usage <==> ReportsAt(events, i)) {
      PositionsAreExact(events, i);
    }
    StartsFirstByPositions(events, starts, usage);
  }

  // ----- acceptance

  /** What precedes the terminal among the events passed on. */
  ghost function BeforeLast(p: Progress): seq<Event>
    requires p.handled != []
  {
    Relayed(p.handled[..|p.handled| - 1])
  }

  lemma {:induction false} RelayedIsVendor(messages: seq<Message>)
    requires forall i :: 0 <= i < |messages| ==> IsVendor(messages[i].event)
    ensures forall e :: e in Relayed(messages) ==> IsVendor(e)
  {
    if messages != [] {
      RelayedIsVendor(messages[..|messages| - 1]);
    }
  }

  ghost predicate UsageIsSound(events: seq<Event>) {
    TotalsNeverFall(events) && exists u: nat :: ReportsAt(events, u)
  }

  /** What makes a finished turn acceptable. `NoneTerminates` excludes a turn that was
      completed with a null status before: the loop went on, but its event was passed on. */
  ghost predicate IsAcceptable(events: seq<Event>, state: State, summary: string) {
    && NoneTerminates(events) && StartsFirst(events) && UsageIsSound(events)
    && IsLegal(state)
    && (state == Completed ==> !IsBlank(summary))
  }

  predicate IsLegal(state: State) {
    state in {Completed, Interrupted, Failed}
  }

  lemma LegalStatusIsLegible(status: string)
    requires IsLegal(StateOf(status))
    ensures !IsBlank(status)
  {
    assert status == "completed" || status == "interrupted" || status == "failed";
    assert !IsWhitespace(status[0]);
  }

  lemma TerminalStep(l: Lifecycle, last: Message)
    requires IsTerminal(last) && !l.interrupted
    ensures var state, next := Reported(last), CodexStep(l, last.event);
      && (IsLegal(state) ==> next.Ok?)
      && (next.Ok? ==> next.value == l.(state := state, interrupted := state == Interrupted))
  {
    var state := Reported(last);
    if last.event.rpc == TurnCompleted && IsLegal(state) {
      LegalStatusIsLegible(last.event.strings[TurnStatus]);
    }
  }

  /** The lifecycle that ends with a terminal notification. */
  lemma TerminalFold(events: seq<Event>, last: Message)
    requires NoneTerminates(events) && IsTerminal(last)
    ensures var state, whole := Reported(last), LifecycleFrom(Codex, FRESH, events + [last.event]);
      && (whole.Ok? ==>
            && TotalsNeverFall(events) && LifecycleFrom(Codex, FRESH, events).Ok?
            && whole.value == LifecycleFrom(Codex, FRESH, events).value.(state := state, interrupted := state == Interrupted))
      && (TotalsNeverFall(events) && IsLegal(state) ==> whole.Ok?)
  {
    TurnFold(events);
    if TotalsNeverFall(events) {
      LifecycleSnoc(Codex, FRESH, events, last.event);
      TerminalStep(LifecycleFrom(Codex, FRESH, events).value, last);
    } else {
      RejectionStands(Codex, FRESH, events, [last.event]);
    }
  }

  lemma TwoTerminals(events: seq<Event>, last: Event)
    requires !NoneTerminates(events) && PhaseOf(Codex, last) == Terminates
    ensures |Positions(Codex, events + [last], Terminates)| > 1
  {
    var i: nat :| i < |events| && PhaseOf(Codex, events[i]) == Terminates;
    assert i in Positions(Codex, events, Terminates);
    PositionsSnoc(Codex, events, last, Terminates);
  }

  /** A second terminal in the trace is never in order. */
  lemma EarlierTerminalIsRejected(events: seq<Event>, last: Event, submission: Option<Submission>)
    requires !NoneTerminates(events) && PhaseOf(Codex, last) == Terminates
    ensures ValidateLifecycle(Codex, events + [last], submission).Err?
  {
    TwoTerminals(events, last);
    OrderByPositions(Codex, events + [last]);
    DisorderIsRejected(Codex, events + [last], submission);
  }

  lemma LifecycleExactly(events: seq<Event>, last: Message, submission: Option<Submission>)
    requires NoneTerminates(events) && IsTerminal(last)
    requires submission.Some? <==> Reported(last) == Completed
    requires submission.Some? ==> !IsBlank(submission.value.summary)
    ensures var state := Reported(last);
      var result := ValidateLifecycle(Codex, events + [last.event], submission);
      && (result.Ok? <==> StartsFirst(events) && UsageIsSound(events) && IsLegal(state))
      && (result.Ok? ==> result.value.state == state)
  {
    TurnFold(events);
    TurnOrder(events, last.event);
    TerminalFold(events, last);
    var whole := LifecycleFrom(Codex, FRESH, events + [last.event]);
    if whole.Ok? {
      LifecycleIsJudged(Codex, events + [last.event], submission, whole.value);
    }
  }

  lemma EveryLifecycleExactly(events: seq<Event>, last: Message, submission: Option<Submission>)
    requires IsTerminal(last)
    requires submission.Some? <==> Reported(last) == Completed
    requires submission.Some? ==> !IsBlank(submission.value.summary)
    ensures var state := Reported(last);
      var result := ValidateLifecycle(Codex, events + [last.event], submission);
      && (result.Ok? <==> NoneTerminates(events) && StartsFirst(events) && UsageIsSound(events) && IsLegal(state))
      && (result.Ok? ==> result.value.state == state)
  {
    if NoneTerminates(events) {
      LifecycleExactly(events, last, submission);
    } else {
      EarlierTerminalIsRejected(events, last.event, submission);
    }
  }

  /** The Result is valid exactly when the turn did not complete or has a legible summary. */
  lemma ResultNeedsSummary(launch: Launch, state: State, summary: string, expectation: Expectation)
    requires LaunchedFor(launch, expectation)
    ensures var result := OwnResult(launch, state, summary);
      && (ResultIsValid(result, expectation) <==> (state == Completed ==> !IsBlank(summary)))
      && (ResultIsValid(result, expectation) ==>
            SubmissionOf(result, expectation) == if state == Completed then Some(Submission(summary, 0)) else None)
  {
    OwnResultIsValid(launch, summary, expectation);
  }

  lemma EmittedEndsWithTerminal(p: Progress, last: Message)
    requires Faithful(p) && EndsWith(p.handled, last)
    ensures p.emitted == BeforeLast(p) + [last.event]
  {
  }

  // ----- back to what the server sent

  /** The events of all messages, whether they are passed on or not. */
  ghost function EventsOf(messages: seq<Message>): (r: seq<Event>)
    ensures |r| == |messages| && forall i :: 0 <= i < |r| ==> r[i] == messages[i].event
  {
    seq(|messages|, i requires 0 <= i < |messages| => messages[i].event)
  }

  /** `some` are events of `all` in order, among them every one with a part in the lifecycle. */
  ghost predicate Embeds(some: seq<Event>, all: seq<Event>, at: seq<nat>) {
    && |at| == |some|
    && (forall i, j :: 0 <= i < j < |at| ==> at[i] < at[j])
    && (forall i :: 0 <= i < |at| ==> at[i] < |all| && some[i] == all[at[i]])
    && (forall j: nat :: j < |all| && PhaseOf(Codex, all[j]) != NoPhase ==> j in at)
  }

  /** The positions of the messages that are passed on. */
  ghost function RelayedAt(messages: seq<Message>): (at: seq<nat>)
    ensures |at| == |Relayed(messages)|
    ensures forall i :: 0 <= i < |at| ==> at[i] < |messages|
  {
    if messages == [] then []
    else
      var n: nat := |messages| - 1;
      RelayedAt(messages[..n]) + if IsRelayed(messages[n]) then [n] else []
  }

  /** The events are those at the positions, which ascend. */
  ghost predicate AreEventsAt(messages: seq<Message>, events: seq<Event>, at: seq<nat>) {
    && |at| == |events|
    && (forall i, j :: 0 <= i < j < |at| ==> at[i] < at[j])
    && (forall i :: 0 <= i < |at| ==> at[i] < |messages| && events[i] == messages[at[i]].event)
  }

  /** The positions are those of the five methods. */
  ghost predicate ListsFiveMethods(messages: seq<Message>, at: seq<nat>) {
    forall j: nat :: j < |messages| ==>
      (j in at <==> messages[j].event.rpc in {TurnStarted, ItemCompleted, TokenUsageUpdated, TurnCompleted, ErrorMethod})
  }

  lemma EventsAtSnoc(messages: seq<Message>, m: Message, events: seq<Event>, at: seq<nat>)
    requires AreEventsAt(messages, events, at)
    ensures AreEventsAt(messages + [m], events, at)
    ensures AreEventsAt(messages + [m], events + [m.event], at + [|messages|])
  {
    var more := messages + [m];
    assert forall j: nat :: j < |messages| ==> more[j] == messages[j];
  }

  lemma FiveMethodsSnoc(messages: seq<Message>, m: Message, at: seq<nat>)
    requires ListsFiveMethods(messages, at) && forall i :: 0 <= i < |at| ==> at[i] < |messages|
    ensures ListsFiveMethods(messages + [m], if IsRelayed(m) then at + [|messages|] else at)
  {
    var more, n := messages + [m], |messages|;
    assert forall j: nat :: j < n ==> more[j] == messages[j];
    assert (at + [n])[|at|] == n && n !in at;
  }

  /** Exactly the five methods are passed on, in order and as they came. */
  lemma {:induction false} RelayedExactly(messages: seq<Message>)
    ensures AreEventsAt(messages, Relayed(messages), RelayedAt(messages))
    ensures ListsFiveMethods(messages, RelayedAt(messages))
  {
    if messages != [] {
      var n: nat := |messages| - 1;
      var before, last := messages[..n], messages[n];
      RelayedExactly(before);
      assert messages == before + [last];
      EventsAtSnoc(before, last, Relayed(before), RelayedAt(before));
      FiveMethodsSnoc(before, last, RelayedAt(before));
      assert Relayed(before) + [] == Relayed(before) && RelayedAt(before) + [] == RelayedAt(before);
    }
  }

  lemma RelayedEmbeds(messages: seq<Message>)
    ensures Embeds(Relayed(messages), EventsOf(messages), RelayedAt(messages))
  {
    RelayedExactly(messages);
  }

  lemma EmbeddedStarts(some: seq<Event>, all: seq<Event>, at: seq<nat>)
    requires Embeds(some, all, at)
    ensures StartsFirst(some) <==> StartsFirst(all)
  {
    EmbeddedAt(some, all, at);
    if s: nat :| IsFirstStart(some, s) {
      assert StartsAt(all, at[s]);
      forall t: nat | StartsAt(all, t) ensures t == at[s] {
        var i :| 0 <= i < |at| && at[i] == t;
        assert StartsAt(some, i);
      }
      forall u: nat | ReportsAt(all, u) ensures at[s] < u {
        var i :| 0 <= i < |at| && at[i] == u;
        assert ReportsAt(some, i);
      }
      assert IsFirstStart(all, at[s]);
    }
    if s: nat :| IsFirstStart(all, s) {
      var i :| 0 <= i < |at| && at[i] == s;
      assert StartsAt(some, i);
      assert IsFirstStart(some, i);
    }
  }

  lemma EmbeddedAt(some: seq<Event>, all: seq<Event>, at: seq<nat>)
    requires Embeds(some, all, at)
    ensures forall i: nat :: i < |at| ==> (StartsAt(some, i) <==> StartsAt(all, at[i]))
    ensures forall i: nat :: i < |at| ==> (ReportsAt(some, i) <==> ReportsAt(all, at[i]))
    ensures forall j: nat :: StartsAt(all, j) || ReportsAt(all, j) ==> j in at
  {
  }

  lemma TotalsOfMore(some: seq<Event>, all: seq<Event>, at: seq<nat>)
    requires Embeds(some, all, at) && TotalsNeverFall(some)
    ensures TotalsNeverFall(all)
  {
    EmbeddedAt(some, all, at);
    forall u: nat | ReportsAt(all, u) ensures CarriesTotals(all[u]) {
      var i :| 0 <= i < |at| && at[i] == u;
      assert ReportsAt(some, i);
    }
    forall u: nat, v: nat | u < v && ReportsAt(all, u) && ReportsAt(all, v)
      ensures AtMostTotals(Totals(all[u]), Totals(all[v]))
    {
      var i :| 0 <= i < |at| && at[i] == u;
      var j :| 0 <= j < |at| && at[j] == v;
      assert ReportsAt(some, i) && ReportsAt(some, j) && i < j;
    }
  }

  lemma TotalsOfFewer(some: seq<Event>, all: seq<Event>, at: seq<nat>)
    requires Embeds(some, all, at) && TotalsNeverFall(all)
    ensures TotalsNeverFall(some)
  {
    EmbeddedAt(some, all, at);
    forall i: nat | ReportsAt(some, i) ensures CarriesTotals(some[i]) {
      assert ReportsAt(all, at[i]);
    }
    forall i: nat, j: nat | i < j && ReportsAt(some, i) && ReportsAt(some, j)
      ensures AtMostTotals(Totals(some[i]), Totals(some[j]))
    {
      assert ReportsAt(all, at[i]) && ReportsAt(all, at[j]);
    }
  }

  lemma EmbeddedUsage(some: seq<Event>, all: seq<Event>, at: seq<nat>)
    requires Embeds(some, all, at)
    ensures UsageIsSound(some) <==> UsageIsSound(all)
  {
    EmbeddedAt(some, all, at);
    if u: nat :| ReportsAt(all, u) {
      var i :| 0 <= i < |at| && at[i] == u;
      assert ReportsAt(some, i);
    }
    if i: nat :| ReportsAt(some, i) {
      assert ReportsAt(all, at[i]);
    }
    if TotalsNeverFall(some) {
      TotalsOfMore(some, all, at);
    }
    if TotalsNeverFall(all) {
      TotalsOfFewer(some, all, at);
    }
  }

  lemma EmbeddedTerminals(some: seq<Event>, all: seq<Event>, at: seq<nat>)
    requires Embeds(some, all, at)
    ensures NoneTerminates(some) <==> NoneTerminates(all)
  {
    if NoneTerminates(some) {
      forall j: nat | j < |all| && j in at ensures PhaseOf(Codex, all[j]) != Terminates {
        var i :| 0 <= i < |at| && at[i] == j;
        assert some[i] == all[j];
      }
    }
  }

  /** What the adapter drops plays no part in whether a turn is acceptable. */
  lemma DroppedPlaysNoPart(messages: seq<Message>, state: State, summary: string)
    ensures IsAcceptable(Relayed(messages), state, summary) <==> IsAcceptable(EventsOf(messages), state, summary)
  {
    var at := RelayedAt(messages);
    RelayedEmbeds(messages);
    EmbeddedStarts(Relayed(messages), EventsOf(messages), at);
    EmbeddedUsage(Relayed(messages), EventsOf(messages), at);
    EmbeddedTerminals(Relayed(messages), EventsOf(messages), at);
  }

  /** The loop ends on the contract's terminals, except a turn completed with a null
      status or without one. */
  lemma TerminalsAreTheContracts(m: Message)
    ensures IsTerminal(m) || IsMalformed(m) || (m.event.rpc == TurnCompleted && !HasStatus(m) && m.shape.Null?) <==>
      PhaseOf(Codex, m.event) == Terminates
    ensures !(IsTerminal(m) && IsMalformed(m))
    ensures m.shape.Null? && !HasStatus(m) && m.event.rpc == TurnCompleted ==> !IsTerminal(m) && !IsMalformed(m)
  {
  }

  /** A finished turn is accepted exactly when nothing before its terminal completed a
      turn, it started once and before any usage, reported usage with totals that never
      fall, ended in a legal state, and has a legible summary if it completed; the report
      then has the reported state. A status that is no string is never accepted. */
  lemma FinishedTurnIsAcceptedExactly(launch: Launch, p: Progress, last: Message, summarize: string -> string, expectation: Expectation)
    requires Faithful(p) && EndsWith(p.handled, last)
    requires forall i :: 0 <= i < |p.handled| ==> IsVendor(p.handled[i].event)
    requires LaunchedFor(launch, expectation)
    ensures var state, summary := Reported(last), summarize(LastText(p.handled));
      var result := ValidateTrace(Codex, Finish(launch, p, last, summarize), expectation);
      && (result.Ok? <==> IsAcceptable(EventsOf(p.handled[..|p.handled| - 1]), state, summary))
      && (result.Ok? ==> result.value.state == state)
  {
    var state, summary, events := Reported(last), summarize(p.lastText), BeforeLast(p);
    var result := OwnResult(launch, state, summary);
    DroppedPlaysNoPart(p.handled[..|p.handled| - 1], state, summary);
    RelayedIsVendor(p.handled);
    EmittedEndsWithTerminal(p, last);
    ResultNeedsSummary(launch, state, summary, expectation);
    TraceIsAcceptedExactly(Codex, launch, p.emitted, result, expectation);
    if state == Completed ==> !IsBlank(summary) {
      EveryLifecycleExactly(events, last, SubmissionOf(result, expectation));
    }
  }

  lemma {:induction false} InvocationsReportNothing(skills: seq<PinnedSkill>)
    ensures forall e :: e in Invocations(skills) ==> e.rpc == NoMethod
  {
    if skills != [] {
      InvocationsReportNothing(skills[1..]);
    }
  }

  lemma NothingIsStray(launch: Launch, p: Progress, state: State, summary: string, i: nat)
    requires forall e :: e in p.emitted ==> IsVendor(e)
    requires i < |TraceOf(launch, p, state, summary)|
    ensures !IsStray(Codex, TraceOf(launch, p, state, summary)[i])
  {
    InvocationsReportNothing(launch.skills);
    var e := TraceOf(launch, p, state, summary)[i];
    assert e in Opening(launch) || e in p.emitted || e in Ending(OwnResult(launch, state, summary));
  }

  /** Every accepted trace of this adapter has live totals equal to the reported ones:
      none of its own events carries totals. */
  lemma FinishedTurnKeepsLiveTotals(launch: Launch, p: Progress, last: Message, summarize: string -> string,
                                    expectation: Expectation, report: Report)
    requires Faithful(p) && forall i :: 0 <= i < |p.handled| ==> IsVendor(p.handled[i].event)
    requires ValidateTrace(Codex, Finish(launch, p, last, summarize), expectation) == Ok(report)
    ensures ReportsSameTokens(ObserveAll(Codex, UNREPORTED, Finish(launch, p, last, summarize)), report)
  {
    var trace := Finish(launch, p, last, summarize);
    RelayedIsVendor(p.handled);
    forall i | 0 <= i < |trace| ensures !IsStray(Codex, trace[i]) {
      NothingIsStray(launch, p, Reported(last), summarize(p.lastText), i);
    }
    CodexLiveMatchesReport(trace, expectation, report);
  }
}
