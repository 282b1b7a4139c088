/** What the four lifecycle automata accept, said of the vendor events by name: one start,
    usage while running, one terminal, and a state and flag that agree. */
module LifecycleMeaning {
  import opened Prelude
  import opened AdapterEvents
  import opened AdapterContract
  import opened TraceAssembly
  import CodexAcceptance

  // ----- events by name

  predicate Begins(kind: Kind, e: Event) {
    || (kind == Codex && e.rpc == TurnStarted)
    || (kind == Claude && e.typ == SessionRunning)
    || (kind == Pi && e.typ == AgentStart)
    || (kind == OpenCode && e.typ == OpenCodeStarted)
  }

  predicate Uses(kind: Kind, e: Event) {
    || (kind == Codex && e.rpc == TokenUsageUpdated)
    || (kind == Claude && e.typ == ModelRequestEnd)
    || (kind == Pi && e.typ == PiUsage)
    || (kind == OpenCode && e.typ == OpenCodeUsage)
  }

  predicate Ends(kind: Kind, e: Event) {
    || (kind == Codex && e.rpc in {TurnCompleted, ErrorMethod})
    || (kind == Claude && e.typ in {SessionIdle, SessionError})
    || (kind == Pi && e.typ == AgentSettled)
    || (kind == OpenCode && e.typ == OpenCodeSettled)
  }

  /** Marks the run as interrupted. Codex reports that in its terminal event. */
  predicate Marks(kind: Kind, e: Event) {
    || (kind == Codex && e.rpc == TurnCompleted && TurnStatus in e.strings && e.strings[TurnStatus] == "interrupted")
    || (kind == Claude && e.typ == UserInterrupt)
    || (kind == Pi && e.typ == PiInterrupt)
    || (kind == OpenCode && e.typ == OpenCodeInterrupt)
  }

  /** Makes the run fail for good, before or after its terminal event. */
  predicate Fails(kind: Kind, e: Event) {
    (kind == Pi && e.typ == ExtensionError) || (kind == OpenCode && e.typ == ErrorType)
  }

  lemma PhasesByName(kind: Kind, e: Event)
    ensures PhaseOf(kind, e) == Starts <==> Begins(kind, e)
    ensures PhaseOf(kind, e) == ReportsUsage <==> Uses(kind, e)
    ensures PhaseOf(kind, e) == Terminates <==> Ends(kind, e)
  {
  }

  ghost predicate Has(events: seq<Event>, property: Event -> bool) {
    exists i: nat :: i < |events| && property(events[i])
  }

  lemma HasSnoc(events: seq<Event>, e: Event, property: Event -> bool)
    ensures Has(events + [e], property) <==> Has(events, property) || property(e)
  {
    var more := events + [e];
    assert more[|events|] == e && forall i: nat :: i < |events| ==> more[i] == events[i];
  }

  ghost function Begun(kind: Kind): Event -> bool {
    e => Begins(kind, e)
  }

  ghost function Used(kind: Kind): Event -> bool {
    e => Uses(kind, e)
  }

  ghost function Ended(kind: Kind): Event -> bool {
    e => Ends(kind, e)
  }

  ghost function Marked(kind: Kind): Event -> bool {
    e => Marks(kind, e)
  }

  ghost function Failing(kind: Kind): Event -> bool {
    e => Fails(kind, e)
  }

  // ----- usage

  /** Both counts of a Claude, Pi or OpenCode usage event, if they are u64. */
  ghost function CountsOf(kind: Kind, e: Event): Option<(nat, nat)> {
    var i, o := if kind == Claude then SpanInputTokens else InputTokens, if kind == Claude then SpanOutputTokens else OutputTokens;
    if i in e.numbers && o in e.numbers && FitsU64(e.numbers[i]) && FitsU64(e.numbers[o])
    then Some((e.numbers[i], e.numbers[o])) else None
  }

  ghost predicate IsCounted(kind: Kind, e: Event) {
    CountsOf(kind, e).Some? && (kind == Pi ==> Cost in e.numbers && e.numbers[Cost] == 0)
  }

  ghost predicate AllCounted(kind: Kind, events: seq<Event>) {
    forall i: nat :: i < |events| && Uses(kind, events[i]) ==> IsCounted(kind, events[i])
  }

  /** The sums of all usage. */
  ghost function Total(kind: Kind, events: seq<Event>): (nat, nat) {
    if events == [] then (0, 0)
    else
      var before, e := Total(kind, events[..|events| - 1]), events[|events| - 1];
      if Uses(kind, e) && CountsOf(kind, e).Some?
      then (before.0 + CountsOf(kind, e).value.0, before.1 + CountsOf(kind, e).value.1) else before
  }

  ghost predicate AtMostOneUse(kind: Kind, events: seq<Event>) {
    forall i: nat, j: nat :: i < j < |events| ==> !(Uses(kind, events[i]) && Uses(kind, events[j]))
  }

  /** Codex reports running totals that never fall; Claude counts, as often as it likes,
      whose sums stay u64; Pi and OpenCode report once, and Pi at no cost. */
  ghost predicate UsageIsSound(kind: Kind, events: seq<Event>) {
    if kind == Codex then CodexAcceptance.TotalsNeverFall(events)
    else
      && AllCounted(kind, events)
      && (kind == Claude ==> FitsU64(Total(kind, events).0) && FitsU64(Total(kind, events).1))
      && (kind != Claude ==> AtMostOneUse(kind, events))
  }

  lemma AllCountedSnoc(kind: Kind, events: seq<Event>, e: Event)
    ensures AllCounted(kind, events + [e]) <==> AllCounted(kind, events) && (Uses(kind, e) ==> IsCounted(kind, e))
  {
    var more, n := events + [e], |events|;
    assert more[n] == e;
    if AllCounted(kind, more) {
      forall i: nat | i < n && Uses(kind, events[i]) ensures IsCounted(kind, events[i]) {
        assert more[i] == events[i];
      }
    }
  }

  lemma OneUseSnoc(kind: Kind, events: seq<Event>, e: Event)
    ensures AtMostOneUse(kind, events + [e]) <==>
      AtMostOneUse(kind, events) && !(Uses(kind, e) && Has(events, Used(kind)))
  {
    var more, n := events + [e], |events|;
    assert more[n] == e;
    if AtMostOneUse(kind, more) {
      forall i: nat, j: nat | i < j < n ensures !(Uses(kind, events[i]) && Uses(kind, events[j])) {
        assert more[i] == events[i] && more[j] == events[j];
      }
      forall i: nat | i < n ensures !(Uses(kind, e) && Used(kind)(events[i])) {
        assert more[i] == events[i];
      }
    }
    if AtMostOneUse(kind, events) && !(Uses(kind, e) && Has(events, Used(kind))) {
      forall i: nat, j: nat | i < j < |more| ensures !(Uses(kind, more[i]) && Uses(kind, more[j])) {
        if j == n {
          assert Used(kind)(events[i]) == Uses(kind, more[i]);
        }
      }
    }
  }

  lemma TotalSnoc(kind: Kind, events: seq<Event>, e: Event)
    ensures Total(kind, events + [e]) ==
      if Uses(kind, e) && CountsOf(kind, e).Some?
      then (Total(kind, events).0 + CountsOf(kind, e).value.0, Total(kind, events).1 + CountsOf(kind, e).value.1)
      else Total(kind, events)
  {
    var more := events + [e];
    assert more[|more| - 1] == e && more[..|more| - 1] == events;
  }

  lemma SoundSnoc(kind: Kind, events: seq<Event>, e: Event)
    requires kind != Codex
    ensures UsageIsSound(kind, events + [e]) <==>
      && UsageIsSound(kind, events)
      && (Uses(kind, e) ==>
            && IsCounted(kind, e)
            && (kind == Claude ==> TotalFits(kind, events + [e]))
            && (kind != Claude ==> !Has(events, Used(kind))))
  {
    AllCountedSnoc(kind, events, e);
    OneUseSnoc(kind, events, e);
    TotalSnoc(kind, events, e);
  }

  // ----- the fold before the terminal

  /** What the events so far amount to, for Claude, Pi and OpenCode. */
  ghost function Amounts(kind: Kind, events: seq<Event>): Lifecycle
    requires kind != Codex && UsageIsSound(kind, events) && TotalFits(kind, events)
  {
    Lifecycle(Has(events, Begun(kind)), Has(events, Marked(kind)),
              if Has(events, Failing(kind)) then Failed else NotTerminal,
              Total(kind, events).0, Total(kind, events).1, Has(events, Used(kind)), "")
  }

  ghost predicate TotalFits(kind: Kind, events: seq<Event>) {
    FitsU64(Total(kind, events).0) && FitsU64(Total(kind, events).1)
  }

  lemma {:induction false} NoUseNoTotal(kind: Kind, events: seq<Event>)
    requires !Has(events, Used(kind))
    ensures Total(kind, events) == (0, 0)
  {
    if events != [] {
      var before, e := events[..|events| - 1], events[|events| - 1];
      assert events == before + [e];
      HasSnoc(before, e, Used(kind));
      NoUseNoTotal(kind, before);
    }
  }

  lemma UnsignedIsU64(e: Event, field: Field)
    ensures Unsigned(e, field).Ok? <==> field in e.numbers && FitsU64(e.numbers[field])
    ensures Unsigned(e, field).Ok? ==> Unsigned(e, field).value == e.numbers[field]
  {
  }

  lemma ClaudeUse(l: Lifecycle, e: Event)
    requires Uses(Claude, e)
    ensures var counts, next := CountsOf(Claude, e), ClaudeStep(l, e);
      && (next.Ok? <==> counts.Some? && FitsU64(l.inputTokens + counts.value.0) && FitsU64(l.outputTokens + counts.value.1))
      && (next.Ok? ==> next.value == l.(inputTokens := l.inputTokens + counts.value.0,
                                        outputTokens := l.outputTokens + counts.value.1, usageReported := true))
  {
    UnsignedIsU64(e, SpanInputTokens);
    UnsignedIsU64(e, SpanOutputTokens);
  }

  lemma SingleUse(kind: Kind, l: Lifecycle, e: Event)
    requires kind in {Pi, OpenCode} && Uses(kind, e)
    ensures var counts, next := CountsOf(kind, e), LifecycleStep(kind, l, e);
      && (next.Ok? <==> IsCounted(kind, e) && !l.usageReported)
      && (next.Ok? ==> next.value == l.(inputTokens := counts.value.0, outputTokens := counts.value.1, usageReported := true))
  {
    UnsignedIsU64(e, InputTokens);
    UnsignedIsU64(e, OutputTokens);
    UnsignedIsU64(e, Cost);
  }

  lemma ClaudeUseStep(events: seq<Event>, e: Event)
    requires UsageIsSound(Claude, events) && TotalFits(Claude, events) && Uses(Claude, e)
    ensures UseKeepsAmounts(Claude, events, e)
  {
    TotalSnoc(Claude, events, e);
    SoundSnoc(Claude, events, e);
    ClaudeUse(Amounts(Claude, events), e);
  }

  lemma SingleUseStep(kind: Kind, events: seq<Event>, e: Event)
    requires kind in {Pi, OpenCode} && UsageIsSound(kind, events) && TotalFits(kind, events) && Uses(kind, e)
    ensures UseKeepsAmounts(kind, events, e)
  {
    TotalSnoc(kind, events, e);
    SoundSnoc(kind, events, e);
    SingleUse(kind, Amounts(kind, events), e);
    if !Has(events, Used(kind)) {
      NoUseNoTotal(kind, events);
    }
  }

  /** The step takes the usage event exactly when usage stays sound, and then has the new totals. */
  ghost predicate UseKeepsAmounts(kind: Kind, events: seq<Event>, e: Event)
    requires kind != Codex && UsageIsSound(kind, events) && TotalFits(kind, events)
  {
    var l, next := Amounts(kind, events), LifecycleStep(kind, Amounts(kind, events), e);
    && (next.Ok? <==> UsageIsSound(kind, events + [e]))
    && (next.Ok? ==> TotalFits(kind, events + [e]) &&
                     next.value == l.(inputTokens := Total(kind, events + [e]).0,
                                      outputTokens := Total(kind, events + [e]).1, usageReported := true))
  }

  lemma OtherStep(kind: Kind, l: Lifecycle, e: Event)
    requires kind != Codex && !Uses(kind, e) && !Ends(kind, e)
    ensures LifecycleStep(kind, l, e) == Ok(l.(
      started := l.started || Begins(kind, e), interrupted := l.interrupted || Marks(kind, e),
      state := if Fails(kind, e) then Failed else l.state))
  {
  }

  lemma AmountsSnoc(kind: Kind, events: seq<Event>, e: Event)
    requires kind != Codex && UsageIsSound(kind, events + [e]) && TotalFits(kind, events + [e])
    ensures Amounts(kind, events + [e]) == Lifecycle(
      Has(events, Begun(kind)) || Begins(kind, e), Has(events, Marked(kind)) || Marks(kind, e),
      if Has(events, Failing(kind)) || Fails(kind, e) then Failed else NotTerminal,
      Total(kind, events + [e]).0, Total(kind, events + [e]).1, Has(events, Used(kind)) || Uses(kind, e), "")
  {
    HasSnoc(events, e, Begun(kind));
    HasSnoc(events, e, Marked(kind));
    HasSnoc(events, e, Failing(kind));
    HasSnoc(events, e, Used(kind));
  }

  lemma NextStep(kind: Kind, events: seq<Event>, e: Event)
    requires kind != Codex && UsageIsSound(kind, events) && TotalFits(kind, events) && !Ends(kind, e)
    ensures LifecycleStep(kind, Amounts(kind, events), e).Ok? <==> UsageIsSound(kind, events + [e])
    ensures UsageIsSound(kind, events + [e]) ==>
      TotalFits(kind, events + [e]) && LifecycleStep(kind, Amounts(kind, events), e).value == Amounts(kind, events + [e])
  {
    if Uses(kind, e) {
      if kind == Claude {
        ClaudeUseStep(events, e);
      } else {
        SingleUseStep(kind, events, e);
      }
      UseIsNothingElse(kind, e);
    } else {
      TotalSnoc(kind, events, e);
      SoundSnoc(kind, events, e);
      OtherStep(kind, Amounts(kind, events), e);
    }
    if UsageIsSound(kind, events + [e]) {
      AmountsSnoc(kind, events, e);
    }
  }

  lemma UseIsNothingElse(kind: Kind, e: Event)
    requires Uses(kind, e)
    ensures !Begins(kind, e) && !Marks(kind, e) && !Fails(kind, e)
  {
  }

  /** Up to the terminal, events are legible exactly when their usage is sound. */
  lemma {:induction false} RunningFold(kind: Kind, events: seq<Event>)
    requires kind != Codex && !Has(events, Ended(kind))
    ensures LifecycleFrom(kind, FRESH, events).Ok? <==> UsageIsSound(kind, events)
    ensures UsageIsSound(kind, events) ==>
      TotalFits(kind, events) && LifecycleFrom(kind, FRESH, events) == Ok(Amounts(kind, events))
  {
    if events != [] {
      var before, e := events[..|events| - 1], events[|events| - 1];
      assert events == before + [e];
      HasSnoc(before, e, Ended(kind));
      RunningFold(kind, before);
      SoundSnoc(kind, before, e);
      if UsageIsSound(kind, before) {
        LifecycleSnoc(kind, FRESH, before, e);
        NextStep(kind, before, e);
      } else {
        RejectionStands(kind, FRESH, before, [e]);
      }
    }
  }

  // ----- the terminal and what follows it

  /** The state that a terminal event reports, if it is legible. */
  function Verdict(kind: Kind, e: Event, marked: bool): Option<State> {
    match kind
    case Codex => if e.rpc == ErrorMethod then Some(Failed) else LegibleStatus(e, TurnStatus)
    case Claude => Some(if e.typ == SessionError then Failed else if marked then Interrupted else Completed)
    case Pi => Some(if marked then Interrupted else Completed)
    case OpenCode => LegibleStatus(e, Status)
  }

  function LegibleStatus(e: Event, field: Field): Option<State> {
    if field in e.strings && !IsBlank(e.strings[field]) then Some(StateOf(e.strings[field])) else None
  }

  /** A failed Pi or OpenCode run stays failed, whatever its terminal event says. */
  lemma EndStep(kind: Kind, l: Lifecycle, e: Event)
    requires kind != Codex && Ends(kind, e) && l.state in {NotTerminal, Failed} && (l.state == Failed ==> kind != Claude)
    ensures LifecycleStep(kind, l, e) ==
      if l.state == Failed then Ok(l)
      else if Verdict(kind, e, l.interrupted).Some? then Ok(l.(state := Verdict(kind, e, l.interrupted).value))
      else Err(InvalidRequest)
  {
  }

  /** After the terminal, only marks and failures still count. */
  lemma {:induction false} TrailingFold(kind: Kind, l: Lifecycle, events: seq<Event>)
    requires kind != Codex && !Has(events, Ended(kind)) && !Has(events, Used(kind)) && !Has(events, Begun(kind))
    ensures LifecycleFrom(kind, l, events) == Ok(l.(
      interrupted := l.interrupted || Has(events, Marked(kind)),
      state := if Has(events, Failing(kind)) then Failed else l.state))
    decreases |events|
  {
    if events != [] {
      var before, e := events[..|events| - 1], events[|events| - 1];
      assert events == before + [e];
      HasSnoc(before, e, Ended(kind));
      HasSnoc(before, e, Used(kind));
      HasSnoc(before, e, Begun(kind));
      HasSnoc(before, e, Marked(kind));
      HasSnoc(before, e, Failing(kind));
      TrailingFold(kind, l, before);
      LifecycleSnoc(kind, l, before, e);
      OtherStep(kind, LifecycleFrom(kind, l, before).value, e);
    }
  }

  // ----- whole traces

  /** One start, one terminal after it, and usage strictly between. */
  ghost predicate InOrder(kind: Kind, events: seq<Event>, s: nat, t: nat) {
    && s < t < |events|
    && (forall i: nat :: i < |events| ==> (Begins(kind, events[i]) <==> i == s))
    && (forall i: nat :: i < |events| ==> (Ends(kind, events[i]) <==> i == t))
    && (forall i: nat :: i < |events| && Uses(kind, events[i]) ==> s < i < t)
  }

  lemma OrderIsExact(kind: Kind, events: seq<Event>)
    ensures ValidateLifecycleOrder(kind, events).Ok? <==> exists s, t :: InOrder(kind, events, s, t)
  {
    OrderByPositions(kind, events);
    var starts, terminals, usage :=
      Positions(kind, events, Starts), Positions(kind, events, Terminates), Positions(kind, events, ReportsUsage);
    forall i: nat
      ensures i in starts <==> i < |events| && Begins(kind, events[i])
      ensures i in terminals <==> i < |events| && Ends(kind, events[i])
      ensures i in usage <==> i < |events| && Uses(kind, events[i])
    {
      PositionsByName(kind, events, i);
    }
    OrderOfPositions(kind, events, starts, terminals, usage);
  }

  lemma PositionsByName(kind: Kind, events: seq<Event>, i: nat)
    ensures i in Positions(kind, events, Starts) <==> i < |events| && Begins(kind, events[i])
    ensures i in Positions(kind, events, Terminates) <==> i < |events| && Ends(kind, events[i])
    ensures i in Positions(kind, events, ReportsUsage) <==> i < |events| && Uses(kind, events[i])
  {
    if i < |events| {
      PhasesByName(kind, events[i]);
    }
  }

  ghost predicate Ascending(r: seq<nat>) {
    forall i, j :: 0 <= i < j < |r| ==> r[i] < r[j]
  }

  lemma FirstTwo(r: seq<nat>)
    requires Ascending(r)
    ensures |r| > 1 ==> r[0] < r[1] && r[0] in r && r[1] in r
  {
  }

  lemma OnlyElement(r: seq<nat>, x: nat)
    requires Ascending(r)
    ensures |r| == 1 && r[0] == x <==> forall y: nat :: y in r <==> y == x
  {
    FirstTwo(r);
    if forall y: nat :: y in r <==> y == x {
      assert x in r && r[0] in r;
    }
  }

  lemma OrderOfPositions(kind: Kind, events: seq<Event>, starts: seq<nat>, terminals: seq<nat>, usage: seq<nat>)
    requires Ascending(starts) && Ascending(terminals)
    requires forall i: nat :: i in starts <==> i < |events| && Begins(kind, events[i])
    requires forall i: nat :: i in terminals <==> i < |events| && Ends(kind, events[i])
    requires forall i: nat :: i in usage <==> i < |events| && Uses(kind, events[i])
    ensures PositionsInOrder(starts, terminals, usage) <==> exists s, t :: InOrder(kind, events, s, t)
  {
    if PositionsInOrder(starts, terminals, usage) {
      var s, t := starts[0], terminals[0];
      OnlyElement(starts, s);
      OnlyElement(terminals, t);
      assert t in terminals;
      assert InOrder(kind, events, s, t);
    }
    if s, t :| InOrder(kind, events, s, t) {
      OnlyElement(starts, s);
      OnlyElement(terminals, t);
    }
  }

  /** The terminal can be read: the run failed before it, or it reports a state. */
  ghost predicate IsReadable(kind: Kind, events: seq<Event>, t: nat)
    requires t < |events|
  {
    Has(events[..t], Failing(kind)) || Verdict(kind, events[t], Has(events[..t], Marked(kind))).Some?
  }

  ghost function FinalState(kind: Kind, events: seq<Event>, t: nat): State
    requires t < |events| && IsReadable(kind, events, t)
  {
    if Has(events, Failing(kind)) then Failed else Verdict(kind, events[t], Has(events[..t], Marked(kind))).value
  }

  lemma SplitHas(events: seq<Event>, t: nat, property: Event -> bool)
    requires t < |events|
    ensures Has(events, property) <==> Has(events[..t], property) || property(events[t]) || Has(events[t + 1..], property)
  {
    var a, b := events[..t], events[t + 1..];
    if i: nat :| i < |events| && property(events[i]) {
      if i < t {
        assert property(a[i]);
      } else if i > t {
        assert property(b[i - t - 1]);
      }
    }
    if i: nat :| i < |a| && property(a[i]) {
      assert property(events[i]);
    }
    if i: nat :| i < |b| && property(b[i]) {
      assert property(events[i + t + 1]);
    }
  }

  lemma SplitAtEnd(kind: Kind, events: seq<Event>, s: nat, t: nat)
    requires InOrder(kind, events, s, t)
    ensures events == events[..t] + [events[t]] + events[t + 1..]
    ensures !Has(events[..t], Ended(kind)) && Has(events[..t], Begun(kind))
    ensures !Has(events[t + 1..], Ended(kind)) && !Has(events[t + 1..], Used(kind)) && !Has(events[t + 1..], Begun(kind))
  {
    var a, b := events[..t], events[t + 1..];
    assert a[s] == events[s];
    assert forall i: nat :: i < |b| ==> b[i] == events[i + t + 1];
  }

  /** The fold over events in order, for Claude, Pi and OpenCode. */
  lemma WholeFold(kind: Kind, events: seq<Event>, s: nat, t: nat)
    requires kind != Codex && InOrder(kind, events, s, t)
    ensures var a, fold := events[..t], LifecycleFrom(kind, FRESH, events);
      && (fold.Ok? <==> UsageIsSound(kind, a) && IsReadable(kind, events, t))
      && (fold.Ok? ==> fold.value == Lifecycle(true, Has(events, Marked(kind)), FinalState(kind, events, t),
                                               fold.value.inputTokens, fold.value.outputTokens, Has(a, Used(kind)), ""))
      && (fold.Ok? ==> (fold.value.inputTokens, fold.value.outputTokens) == Total(kind, a))
  {
    var a, e, b := events[..t], events[t], events[t + 1..];
    SplitAtEnd(kind, events, s, t);
    SplitHas(events, t, Marked(kind));
    SplitHas(events, t, Failing(kind));
    RunningFold(kind, a);
    AppendIsAssociative(a, [e], b);
    if UsageIsSound(kind, a) {
      var l := Amounts(kind, a);
      NoClaudeFailure(kind, a);
      EndStep(kind, l, e);
      LifecycleSnoc(kind, FRESH, a, e);
      if LifecycleStep(kind, l, e).Ok? {
        LifecycleAppend(kind, FRESH, a + [e], b);
        TrailingFold(kind, LifecycleStep(kind, l, e).value, b);
      } else {
        RejectionStands(kind, FRESH, a + [e], b);
      }
    } else {
      RejectionStands(kind, FRESH, a, [e] + b);
    }
  }

  lemma NoClaudeFailure(kind: Kind, events: seq<Event>)
    ensures kind == Claude ==> !Has(events, Failing(kind))
  {
  }

  predicate IsLegal(state: State) {
    state in {Completed, Interrupted, Failed}
  }

  /** The events in order are accepted exactly when usage was reported and is sound, the
      terminal can be read, and the final state is legal, agrees with whether any event
      marks an interrupt, and comes with a legible summary if it is completed. */
  ghost predicate IsAcceptable(kind: Kind, events: seq<Event>, t: nat, summary: string)
    requires t < |events|
  {
    && Has(events[..t], Used(kind)) && UsageIsSound(kind, events[..t])
    && IsReadable(kind, events, t)
    && var state := FinalState(kind, events, t);
    && IsLegal(state)
    && (Has(events, Marked(kind)) <==> state == Interrupted)
    && (state == Completed ==> !IsBlank(summary))
  }

  ghost function SummaryOf(submission: Option<Submission>): string {
    if submission.Some? then submission.value.summary else ""
  }

  lemma OrderHolds(kind: Kind, events: seq<Event>, s: nat, t: nat)
    requires InOrder(kind, events, s, t)
    ensures ValidateLifecycleOrder(kind, events).Ok?
  {
    OrderIsExact(kind, events);
  }

  lemma ChecksOfWhole(kind: Kind, events: seq<Event>, t: nat, l: Lifecycle, summary: string)
    requires t < |events| && UsageIsSound(kind, events[..t]) && IsReadable(kind, events, t)
    requires l.started && l.state == FinalState(kind, events, t)
    requires l.interrupted == Has(events, Marked(kind)) && l.usageReported == Has(events[..t], Used(kind))
    ensures PassesChecks(l, summary) <==> IsAcceptable(kind, events, t, summary)
  {
  }

  /** The fold over Codex events in order: nothing before the terminal is a terminal, and
      nothing after it changes what was gathered. */
  lemma CodexFold(events: seq<Event>, s: nat, t: nat)
    requires InOrder(Codex, events, s, t)
    ensures var a, e, fold := events[..t], events[t], LifecycleFrom(Codex, FRESH, events);
      && (fold.Ok? <==> UsageIsSound(Codex, a) && Verdict(Codex, e, false).Some?)
      && (fold.Ok? ==>
            && fold.value.started && fold.value.summary == ""
            && fold.value.state == Verdict(Codex, e, false).value
            && fold.value.interrupted == Marks(Codex, e)
            && fold.value.usageReported == Has(a, Used(Codex)))
  {
    var a, e, b := events[..t], events[t], events[t + 1..];
    SplitAtEnd(Codex, events, s, t);
    assert forall i :: 0 <= i < |a| ==> PhaseOf(Codex, a[i]) != Terminates by { NoEarlierEnd(a); }
    CodexAcceptance.TurnFold(a);
    AppendIsAssociative(a, [e], b);
    if UsageIsSound(Codex, a) {
      CodexGathered(a);
      var l := LifecycleFrom(Codex, FRESH, a).value;
      CodexEnd(l, e);
      LifecycleSnoc(Codex, FRESH, a, e);
      if CodexStep(l, e).Ok? {
        LifecycleAppend(Codex, FRESH, a + [e], b);
        CodexTrailing(CodexStep(l, e).value, b);
      } else {
        RejectionStands(Codex, FRESH, a + [e], b);
      }
    } else {
      RejectionStands(Codex, FRESH, a, [e] + b);
    }
  }

  lemma NoEarlierEnd(events: seq<Event>)
    requires !Has(events, Ended(Codex))
    ensures CodexAcceptance.NoneTerminates(events)
  {
    forall i: nat | i < |events| ensures PhaseOf(Codex, events[i]) != Terminates {
      assert !Ended(Codex)(events[i]);
      PhasesByName(Codex, events[i]);
    }
  }

  lemma CodexGathered(events: seq<Event>)
    requires CodexAcceptance.NoneTerminates(events) && UsageIsSound(Codex, events)
    ensures var fold := LifecycleFrom(Codex, FRESH, events);
      && fold.Ok? && !fold.value.interrupted && fold.value.state == NotTerminal && fold.value.summary == ""
      && (fold.value.started <==> Has(events, Begun(Codex)))
      && (fold.value.usageReported <==> Has(events, Used(Codex)))
  {
    CodexAcceptance.TurnFold(events);
    if i: nat :| i < |events| && Begun(Codex)(events[i]) {
      assert CodexAcceptance.StartsAt(events, i);
    }
    if i: nat :| i < |events| && Used(Codex)(events[i]) {
      assert CodexAcceptance.ReportsAt(events, i);
    }
    if i: nat :| CodexAcceptance.StartsAt(events, i) {
      assert Begun(Codex)(events[i]);
    }
    if i: nat :| CodexAcceptance.ReportsAt(events, i) {
      assert Used(Codex)(events[i]);
    }
  }

  lemma CodexEnd(l: Lifecycle, e: Event)
    requires Ends(Codex, e) && !l.interrupted
    ensures CodexStep(l, e) ==
      if Verdict(Codex, e, false).Some?
      then Ok(l.(state := Verdict(Codex, e, false).value, interrupted := Marks(Codex, e))) else Err(InvalidRequest)
  {
    if e.rpc == TurnCompleted && Verdict(Codex, e, false).Some? {
      assert StateOf(e.strings[TurnStatus]) == Interrupted <==> e.strings[TurnStatus] == "interrupted";
    }
  }

  lemma {:induction false} CodexTrailing(l: Lifecycle, events: seq<Event>)
    requires !Has(events, Ended(Codex)) && !Has(events, Used(Codex)) && !Has(events, Begun(Codex))
    ensures LifecycleFrom(Codex, l, events) == Ok(l)
    decreases |events|
  {
    if events != [] {
      var before, e := events[..|events| - 1], events[|events| - 1];
      assert events == before + [e];
      HasSnoc(before, e, Ended(Codex));
      HasSnoc(before, e, Used(Codex));
      HasSnoc(before, e, Begun(Codex));
      CodexTrailing(l, before);
      LifecycleSnoc(Codex, l, before, e);
    }
  }

  lemma CodexMarks(events: seq<Event>, s: nat, t: nat)
    requires InOrder(Codex, events, s, t)
    ensures Has(events, Marked(Codex)) <==> Marks(Codex, events[t])
    ensures !Has(events[..t], Failing(Codex)) && !Has(events, Failing(Codex))
    ensures !Has(events[..t], Marked(Codex))
  {
    if i: nat :| i < |events| && Marked(Codex)(events[i]) {
      assert Ends(Codex, events[i]) && i == t;
    }
    if Marks(Codex, events[t]) {
      assert Marked(Codex)(events[t]);
    }
    forall i: nat | i < t ensures !Marked(Codex)(events[..t][i]) {
      assert !Ends(Codex, events[i]);
    }
  }

  lemma OrderedCodexLifecycle(events: seq<Event>, submission: Option<Submission>, s: nat, t: nat)
    requires InOrder(Codex, events, s, t)
    ensures var result := ValidateLifecycle(Codex, events, submission);
      && (result.Ok? <==> IsAcceptable(Codex, events, t, SummaryOf(submission)))
      && (result.Ok? ==> result.value.state == FinalState(Codex, events, t))
  {
    CodexFold(events, s, t);
    CodexMarks(events, s, t);
    OrderHolds(Codex, events, s, t);
    var fold := LifecycleFrom(Codex, FRESH, events);
    if fold.Ok? {
      LifecycleIsJudged(Codex, events, submission, fold.value);
      ChecksOfWhole(Codex, events, t, fold.value, SummaryOf(submission));
    }
  }

  lemma OrderedLifecycle(kind: Kind, events: seq<Event>, submission: Option<Submission>, s: nat, t: nat)
    requires kind != Codex && InOrder(kind, events, s, t)
    ensures var result := ValidateLifecycle(kind, events, submission);
      && (result.Ok? <==> IsAcceptable(kind, events, t, SummaryOf(submission)))
      && (result.Ok? ==> result.value.state == FinalState(kind, events, t)
                         && (result.value.inputTokens, result.value.outputTokens) == Total(kind, events[..t]))
  {
    WholeFold(kind, events, s, t);
    OrderHolds(kind, events, s, t);
    var fold := LifecycleFrom(kind, FRESH, events);
    if fold.Ok? {
      LifecycleIsJudged(kind, events, submission, fold.value);
      ChecksOfWhole(kind, events, t, fold.value, SummaryOf(submission));
    }
  }

  lemma OneOrder(kind: Kind, events: seq<Event>, s: nat, t: nat, s': nat, t': nat)
    requires InOrder(kind, events, s, t) && InOrder(kind, events, s', t')
    ensures s == s' && t == t'
  {
    assert Begins(kind, events[s]) && Ends(kind, events[t]);
  }

  /** What the contract accepts of vendor events, all of it, for every adapter kind. */
  lemma LifecycleExactly(kind: Kind, events: seq<Event>, submission: Option<Submission>)
    ensures ValidateLifecycle(kind, events, submission).Ok? <==>
      exists s, t :: InOrder(kind, events, s, t) && IsAcceptable(kind, events, t, SummaryOf(submission))
  {
    OrderIsExact(kind, events);
    if ValidateLifecycleOrder(kind, events).Err? {
      DisorderIsRejected(kind, events, submission);
    } else {
      var s, t :| InOrder(kind, events, s, t);
      if kind == Codex {
        OrderedCodexLifecycle(events, submission, s, t);
      } else {
        OrderedLifecycle(kind, events, submission, s, t);
      }
      forall s': nat, t': nat | InOrder(kind, events, s', t') ensures t' == t {
        OneOrder(kind, events, s, t, s', t');
      }
    }
  }
}
