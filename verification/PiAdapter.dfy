/** The Pi adapter: replies and events share one stream, requests set events aside
    in a buffer that the main loop drains first, and settlement reports one
    authoritative usage total before the terminal event. */
module PiAdapter {
  import opened Prelude
  import opened AdapterEvents
  import opened AdapterContract
  import opened AdapterRun
  import opened LiveTelemetry

  /** A line from Pi: an event, or a response to the request with the same id. `text`
      joins the text items of a message. */
  datatype Message = Message(event: Event, id: Option<nat>, success: bool, cost: real, text: string)

  predicate IsReply(m: Message, request: nat) {
    m.event.typ == Response && m.id == Some(request)
  }

  predicate IsEvent(m: Message) {
    m.event.typ != Response
  }

  /** The end of an assistant message, from which tokens and text are taken. */
  predicate EndsAssistantMessage(m: Message) {
    m.event.typ == MessageEnd && m.event.isAssistant
  }

  /** An event of Pi's own: not one that the adapter speaks for itself. */
  predicate IsNative(m: Message) {
    IsVendor(m.event) && m.event.typ != PiUsage && m.event.typ != PiInterrupt
  }

  predicate IsSettled(m: Message) {
    m.event.typ == AgentSettled
  }

  ghost function Events(messages: seq<Message>): seq<Message> {
    if messages == [] then []
    else (if IsEvent(messages[0]) then [messages[0]] else []) + Events(messages[1..])
  }

  lemma {:induction false} EventsAppend(a: seq<Message>, b: seq<Message>)
    ensures Events(a + b) == Events(a) + Events(b)
  {
    if a == [] {
      assert a + b == b;
    } else {
      var ab := a + b;
      assert ab[0] == a[0] && ab[1..] == a[1..] + b;
      EventsAppend(a[1..], b);
      AppendIsAssociative(if IsEvent(a[0]) then [a[0]] else [], Events(a[1..]), Events(b));
    }
  }

  predicate NoneSettled(messages: seq<Message>) {
    forall i :: 0 <= i < |messages| ==> !IsSettled(messages[i])
  }

  /** The events up to and including the one that settles the agent. */
  ghost function UpToSettled(messages: seq<Message>): seq<Message> {
    if messages == [] then []
    else if IsSettled(messages[0]) then [messages[0]]
    else [messages[0]] + UpToSettled(messages[1..])
  }

  lemma {:induction false} SettledEndsPrefix(before: seq<Message>, last: Message, after: seq<Message>)
    requires IsSettled(last) && NoneSettled(before)
    ensures UpToSettled(before + ([last] + after)) == before + [last]
  {
    var all := before + ([last] + after);
    if before != [] {
      assert all[0] == before[0] && all[1..] == before[1..] + ([last] + after);
      SettledEndsPrefix(before[1..], last, after);
    }
  }

  // ----- totals

  function CountOr0(e: Event, field: Field): int {
    if field in e.numbers then e.numbers[field] else 0
  }

  function InputOf(m: Message): int {
    if EndsAssistantMessage(m) then CountOr0(m.event, MessageInputTokens) else 0
  }

  function OutputOf(m: Message): int {
    if EndsAssistantMessage(m) then CountOr0(m.event, MessageOutputTokens) else 0
  }

  function CostOf(m: Message): real {
    if m.event.typ == MessageEnd then m.cost else 0.0
  }

  datatype Observed = Observed(input: int, output: int, cost: real)

  function Add(observed: Observed, m: Message): Observed {
    Observed(observed.input + InputOf(m), observed.output + OutputOf(m), observed.cost + CostOf(m))
  }

  ghost function Total(messages: seq<Message>): Observed {
    if messages == [] then Observed(0, 0, 0.0)
    else Add(Total(messages[..|messages| - 1]), messages[|messages| - 1])
  }

  /** The text of the last assistant message. */
  ghost function LastText(messages: seq<Message>): string {
    if messages == [] then ""
    else
      var last := messages[|messages| - 1];
      if EndsAssistantMessage(last) then last.text else LastText(messages[..|messages| - 1])
  }

  ghost predicate LastAssistantMessage(messages: seq<Message>, i: nat) {
    && i < |messages| && messages[i].event.typ == MessageEnd && messages[i].event.isAssistant
    && forall j :: i < j < |messages| && messages[j].event.typ == MessageEnd ==> !messages[j].event.isAssistant
  }

  lemma {:induction false} LastTextIsOfTheLast(messages: seq<Message>, i: nat)
    requires LastAssistantMessage(messages, i)
    ensures LastText(messages) == messages[i].text
  {
    var n: nat := |messages| - 1;
    if i < n {
      assert messages[..n][i] == messages[i];
      LastTextIsOfTheLast(messages[..n], i);
    }
  }

  // ----- what is relayed

  /** Events that are not interrupt markers. */
  ghost function Unmarked(events: seq<Event>): seq<Event> {
    if events == [] then []
    else
      var last := events[|events| - 1];
      Unmarked(events[..|events| - 1]) + if last.typ != PiInterrupt then [last] else []
  }

  /** The handled events that are passed on as they come: all but the settling one. */
  ghost function Relayed(messages: seq<Message>): seq<Event> {
    if messages == [] then []
    else
      var last := messages[|messages| - 1];
      Relayed(messages[..|messages| - 1]) + if last.event.typ != PiInterrupt && !IsSettled(last) then [last.event] else []
  }

  lemma UnmarkedSnoc(events: seq<Event>, e: Event)
    ensures Unmarked(events + [e]) == Unmarked(events) + if e.typ != PiInterrupt then [e] else []
  {
    var more := events + [e];
    assert more[|more| - 1] == e && more[..|more| - 1] == events;
  }

  /** The main loop's local variables. */
  datatype Progress = Progress(
    handled: seq<Message>, interrupted: bool, emitted: seq<Event>, observed: Observed, lastText: string)

  const BEGUN := Progress([], false, [], Observed(0, 0, 0.0), "")

  function MarkInterrupt(p: Progress): Progress {
    p.(interrupted := true, emitted := p.emitted + [BARE.(typ := PiInterrupt)])
  }

  function Handle(p: Progress, m: Message): Progress {
    p.(handled := p.handled + [m], emitted := if IsSettled(m) then p.emitted else p.emitted + [m.event],
       observed := Add(p.observed, m), lastText := if EndsAssistantMessage(m) then m.text else p.lastText)
  }

  ghost predicate HasType(events: seq<Event>, typ: TypeName) {
    exists i :: 0 <= i < |events| && events[i].typ == typ
  }

  ghost predicate IsMarked(events: seq<Event>) {
    HasType(events, PiInterrupt)
  }

  ghost predicate AllNative(messages: seq<Message>) {
    forall i :: 0 <= i < |messages| ==> IsNative(messages[i])
  }

  /** Totals, last text and relayed events are those of the handled messages, and the
      trace is marked exactly when the run was interrupted. */
  ghost predicate Faithful(p: Progress) {
    && p.observed == Total(p.handled) && p.lastText == LastText(p.handled)
    && Unmarked(p.emitted) == Relayed(p.handled)
    && (p.interrupted ==> IsMarked(p.emitted))
    && (AllNative(p.handled) && IsMarked(p.emitted) ==> p.interrupted)
  }

  lemma MarkKeepsFaithful(p: Progress)
    requires Faithful(p)
    ensures Faithful(MarkInterrupt(p))
  {
    UnmarkedSnoc(p.emitted, BARE.(typ := PiInterrupt));
    assert MarkInterrupt(p).emitted[|p.emitted|].typ == PiInterrupt;
  }

  lemma HandleKeepsFaithful(p: Progress, m: Message)
    requires Faithful(p)
    ensures Faithful(Handle(p, m))
  {
    UnmarkedSnoc(p.emitted, m.event);
    HandledSnoc(p.handled, m);
    MarkedAfterHandling(p, m);
  }

  lemma HandledSnoc(handled: seq<Message>, m: Message)
    ensures Total(handled + [m]) == Add(Total(handled), m)
    ensures LastText(handled + [m]) == if EndsAssistantMessage(m) then m.text else LastText(handled)
    ensures Relayed(handled + [m]) == Relayed(handled) + if m.event.typ != PiInterrupt && !IsSettled(m) then [m.event] else []
  {
    var more := handled + [m];
    assert more[|more| - 1] == m && more[..|more| - 1] == handled;
  }

  lemma MarkedAfterHandling(p: Progress, m: Message)
    ensures IsMarked(p.emitted) ==> IsMarked(Handle(p, m).emitted)
    ensures AllNative(Handle(p, m).handled) && IsMarked(Handle(p, m).emitted) ==> AllNative(p.handled) && IsMarked(p.emitted)
  {
    var after := Handle(p, m);
    assert forall i :: 0 <= i < |p.emitted| ==> after.emitted[i] == p.emitted[i];
    assert forall i :: 0 <= i < |p.handled| ==> after.handled[i] == p.handled[i];
    assert after.handled[|p.handled|] == m;
  }

  // ----- what a request reads

  /** The first response that has the request's id. */
  ghost predicate IsFirstReply(messages: seq<Message>, request: nat, k: nat) {
    && k < |messages| && messages[k].id == Some(request) && messages[k].event.typ == Response
    && NoReply(messages[..k], request)
  }

  ghost predicate NoReply(messages: seq<Message>, request: nat) {
    forall j :: 0 <= j < |messages| ==> messages[j].event.typ == Response ==> messages[j].id != Some(request)
  }

  /** The first reply reports success. */
  ghost predicate IsAnswered(messages: seq<Message>, request: nat) {
    exists k: nat :: IsFirstReply(messages, request, k) && messages[k].success
  }

  lemma FirstReplyIsFirst(messages: seq<Message>, request: nat, k: nat, j: nat)
    requires IsFirstReply(messages, request, k) && IsFirstReply(messages, request, j)
    ensures j <= k
  {
    var earlier := messages[..j];
    assert forall i :: 0 <= i < |earlier| ==> earlier[i] == messages[i];
  }

  lemma ReplyDecides(messages: seq<Message>, request: nat, k: nat)
    requires IsFirstReply(messages, request, k)
    ensures !NoReply(messages, request)
    ensures forall j: nat :: IsFirstReply(messages, request, j) ==> j == k
    ensures IsAnswered(messages, request) <==> messages[k].success
  {
    forall j: nat | IsFirstReply(messages, request, j) ensures j == k {
      FirstReplyIsFirst(messages, request, k, j);
      FirstReplyIsFirst(messages, request, j, k);
    }
  }

  lemma NoReplyNoAnswer(messages: seq<Message>, request: nat)
    requires NoReply(messages, request)
    ensures forall k: nat :: !IsFirstReply(messages, request, k)
    ensures !IsAnswered(messages, request)
  {
  }

  /** Dropping a response and setting aside what came before it moves no event. */
  lemma ReadingKeepsEvents(buffered: seq<Message>, arrivals: seq<Message>, k: nat)
    requires k < |arrivals| && !IsEvent(arrivals[k])
    ensures Events(buffered + arrivals[..k]) + Events(arrivals[k + 1..]) == Events(buffered) + Events(arrivals)
  {
    var before, after := arrivals[..k], arrivals[k..];
    assert arrivals == before + after && after[1..] == arrivals[k + 1..];
    EventsAppend(before, after);
    EventsAppend(buffered, before);
    AppendIsAssociative(Events(buffered), Events(before), Events(after));
  }

  lemma UnlessReplied(messages: seq<Message>, read: nat, request: nat)
    requires read < |messages| && NoReply(messages[..read], request) && !IsReply(messages[read], request)
    ensures messages[..read + 1] == messages[..read] + [messages[read]] && NoReply(messages[..read + 1], request)
  {
  }

  // ----- the connection

  datatype Reply = Answered | Rejected | Exited | Waiting

  datatype Control = Steer | Interrupt | NoControl

  datatype Turn = Turn(control: Control, timedOut: bool)

  predicate IsQuiet(turn: Turn) {
    turn.control == NoControl && !turn.timedOut
  }

  datatype Outcome = Settled(last: Message) | Raised | Running

  class PiRpc {
    var inbox: seq<Message>
    var buffered: seq<Message>
    var nextId: nat
    const ends: bool

    /** The one first-in-first-out queue that the two stores stand for. */
    ghost function Queue(): seq<Message>
      reads this`buffered, this`inbox
    {
      Events(buffered) + Events(inbox)
    }

    constructor (arrivals: seq<Message>, ends: bool)
      ensures inbox == arrivals && buffered == [] && nextId == 1 && this.ends == ends
    {
      inbox, buffered, nextId, this.ends := arrivals, [], 1, ends;
    }

    /** Sends a request and reads until its response; everything else is kept. */
    method Request() returns (reply: Reply)
      modifies this
      ensures Queue() == old(Queue())
      ensures nextId == old(nextId) + 1
      ensures forall k: nat :: IsFirstReply(old(inbox), old(nextId), k) ==>
        && inbox == old(inbox)[k + 1..] && buffered == old(buffered) + old(inbox)[..k]
        && reply == if old(inbox)[k].success then Answered else Rejected
      ensures NoReply(old(inbox), old(nextId)) ==>
        inbox == [] && buffered == old(buffered) + old(inbox) && reply == if ends then Exited else Waiting
      ensures reply == Answered <==> IsAnswered(old(inbox), old(nextId))
      ensures |buffered| + |inbox| <= |old(buffered)| + |old(inbox)|
    {
      ghost var arrivals, read := inbox, 0;
      var request := nextId;
      nextId := nextId + 1;
      while inbox != []
        invariant nextId == old(nextId) + 1 && request == old(nextId)
        invariant read <= |arrivals| && inbox == arrivals[read..] && arrivals == old(inbox)
        invariant buffered == old(buffered) + arrivals[..read] && NoReply(arrivals[..read], request)
        decreases |inbox|
      {
        var message := inbox[0];
        inbox := inbox[1..];
        if IsReply(message, request) {
          ReplyDecides(arrivals, request, read);
          ReadingKeepsEvents(old(buffered), arrivals, read);
          return if message.success then Answered else Rejected;
        }
        UnlessReplied(arrivals, read, request);
        buffered := buffered + [message];
        AppendIsAssociative(old(buffered), arrivals[..read], [message]);
        read := read + 1;
      }
      assert arrivals[..read] == arrivals;
      NoReplyNoAnswer(arrivals, request);
      EventsAppend(old(buffered), arrivals);
      return if ends then Exited else Waiting;
    }

    method NextMessage(timedOut: bool) returns (message: Option<Message>)
      modifies this`buffered, this`inbox
      ensures message.None? <==> old(buffered) == [] && (old(inbox) == [] || timedOut)
      ensures message.None? ==> buffered == old(buffered) && inbox == old(inbox)
      ensures message.Some? ==> |buffered| + |inbox| + 1 == |old(buffered)| + |old(inbox)|
      ensures message.Some? ==> old(Queue()) == (if IsEvent(message.value) then [message.value] else []) + Queue()
    {
      if buffered != [] {
        message := Some(buffered[0]);
        buffered := buffered[1..];
      } else if inbox != [] && !timedOut {
        message := Some(inbox[0]);
        inbox := inbox[1..];
      } else {
        message := None;
      }
    }

    /** The requests one control message makes: one for a steer, two for an interrupt. */
    method ApplyControl(control: Control) returns (ok: bool)
      modifies this
      ensures Queue() == old(Queue())
      ensures control == NoControl ==> ok && buffered == old(buffered) && inbox == old(inbox)
      ensures control != NoControl && !IsAnswered(old(inbox), old(nextId)) ==> !ok
      ensures control == Steer && IsAnswered(old(inbox), old(nextId)) ==> ok
      ensures forall k: nat :: control == Interrupt && IsFirstReply(old(inbox), old(nextId), k) && old(inbox)[k].success ==>
        (ok <==> IsAnswered(old(inbox)[k + 1..], old(nextId) + 1))
    {
      ok := true;
      if control == Steer {
        var reply := Request();
        ok := reply == Answered;
      } else if control == Interrupt {
        var cleared := Request();
        ok := cleared == Answered;
        if ok {
          var aborted := Request();
          ok := aborted == Answered;
        }
      }
    }

    /** The loop invariant: handled and queued events are the arrivals. */
    ghost predicate InOrder(arrivals: seq<Message>, handled: seq<Message>)
      reads this`buffered, this`inbox
    {
      arrivals == handled + Queue() && NoneSettled(handled)
    }

    /** The next event, if one is there; stray responses are skipped. */
    method NextEvent(timedOut: bool, ghost handled: seq<Message>, ghost arrivals: seq<Message>)
      returns (event: Option<Message>, ended: bool)
      requires arrivals == handled + Queue()
      modifies this`buffered, this`inbox
      ensures event.None? ==> arrivals == handled + Queue()
      ensures ended ==> event.None? && Queue() == []
      ensures !timedOut && |old(buffered)| + |old(inbox)| == 0 ==> ended == ends && |buffered| + |inbox| == 0
      ensures !timedOut && |old(buffered)| + |old(inbox)| > 0 ==>
        !ended && |buffered| + |inbox| < |old(buffered)| + |old(inbox)|
      ensures event.Some? ==> arrivals == handled + ([event.value] + Queue())
    {
      var message := NextMessage(timedOut);
      if message.None? {
        return None, buffered == [] && inbox == [] && ends && !timedOut;
      }
      if !IsEvent(message.value) {
        return None, false;
      }
      return message, false;
    }

    /** One event: relayed and counted, and the end of the run if it settles the agent. */
    method HandleEvent(before: Progress, event: Message, ghost rest: seq<Message>, ghost arrivals: seq<Message>)
      returns (after: Progress, outcome: Outcome)
      requires arrivals == before.handled + ([event] + rest)
      requires NoneSettled(before.handled) && Faithful(before)
      ensures after == Handle(before, event) && Faithful(after) && HandlesPrefix(arrivals, after.handled, outcome)
      ensures outcome == if IsSettled(event) then Settled(event) else Running
      ensures arrivals == after.handled + rest
      ensures outcome.Settled? ==> IsDecided(arrivals, outcome, ends)
    {
      after := Handle(before, event);
      HandleKeepsFaithful(before, event);
      TakenIsPrefix(before.handled, event, rest);
      if !IsSettled(event) {
        return after, Running;
      }
      SettledEndsPrefix(before.handled, event, rest);
      SettledIsAmong(arrivals, after.handled, event);
      return after, Settled(event);
    }

    /** One iteration after its control message: at most one message is handled. */
    method HandleNext(before: Progress, timedOut: bool, ghost arrivals: seq<Message>)
      returns (after: Progress, outcome: Outcome)
      requires InOrder(arrivals, before.handled) && Faithful(before)
      modifies this`buffered, this`inbox
      ensures after == before || exists m :: after == Handle(before, m)
      ensures Faithful(after) && HandlesPrefix(arrivals, after.handled, outcome)
      ensures outcome.Running? ==> InOrder(arrivals, after.handled)
      ensures outcome.Raised? ==> after == before
      ensures !timedOut && !outcome.Running? ==> IsDecided(arrivals, outcome, ends)
      ensures !timedOut && outcome.Running? ==>
        |buffered| + |inbox| < |old(buffered)| + |old(inbox)| || (|buffered| + |inbox| == 0 && !ends)
    {
      var event, ended := NextEvent(timedOut, before.handled, arrivals);
      if event.None? {
        return before, if ended then Raised else Running;
      }
      after, outcome := HandleEvent(before, event.value, Queue(), arrivals);
    }

    /** One iteration of the main loop. */
    method Iterate(before: Progress, turn: Turn, ghost arrivals: seq<Message>) returns (p: Progress, outcome: Outcome)
      requires InOrder(arrivals, before.handled) && Faithful(before)
      modifies this
      ensures Faithful(p) && HandlesPrefix(arrivals, p.handled, outcome)
      ensures outcome.Running? ==> InOrder(arrivals, p.handled)
      ensures p.interrupted <==> before.interrupted || turn.control == Interrupt
      ensures turn.control != NoControl && !IsAnswered(old(inbox), old(nextId)) ==> outcome == Raised
      ensures IsQuiet(turn) && !outcome.Running? ==> IsDecided(arrivals, outcome, ends)
      ensures IsQuiet(turn) && outcome.Running? ==>
        |buffered| + |inbox| < |old(buffered)| + |old(inbox)| || (|buffered| + |inbox| == 0 && !ends)
    {
      var marked := if turn.control == Interrupt then MarkInterrupt(before) else before;
      if turn.control == Interrupt {
        MarkKeepsFaithful(before);
      }
      var ok := ApplyControl(turn.control);
      if !ok {
        return marked, Raised;
      }
      p, outcome := HandleNext(marked, turn.timedOut, arrivals);
    }

    /** The main loop. */
    method HandleUntilSettled(turns: seq<Turn>, ghost arrivals: seq<Message>) returns (p: Progress, outcome: Outcome)
      requires InOrder(arrivals, [])
      modifies this
      ensures Faithful(p) && HandlesPrefix(arrivals, p.handled, outcome)
      ensures ReadsAll(turns, |old(buffered)| + |old(inbox)|) ==> IsDecided(arrivals, outcome, ends)
    {
      ghost var all := |buffered| + |inbox|;
      p := BEGUN;
      for i := 0 to |turns|
        invariant InOrder(arrivals, p.handled) && Faithful(p)
        invariant ReadsAll(turns, all) ==> |buffered| + |inbox| + i <= all || (|buffered| + |inbox| == 0 && !ends)
      {
        p, outcome := Iterate(p, turns[i], arrivals);
        if !outcome.Running? {
          return;
        }
      }
      outcome := Running;
    }

    /** The prompt request and the main loop: what is handled is a prefix of the events
        that arrive, and every event that arrives from then on
        is handled in arrival order up to the one that settles, however many steer
        and interrupt requests run in between; totals and relayed events are theirs. A
        prompt that is answered and not disturbed settles exactly when such an event arrives. */
    method RunPrompt(turns: seq<Turn>) returns (p: Progress, outcome: Outcome)
      modifies this
      ensures Faithful(p) && HandlesPrefix(old(Queue()), p.handled, outcome)
      ensures !IsAnswered(old(inbox), old(nextId)) ==> p == BEGUN && outcome == Raised
      ensures IsAnswered(old(inbox), old(nextId)) && ReadsAll(turns, |old(buffered)| + |old(inbox)|) ==>
        IsDecided(old(Queue()), outcome, ends)
    {
      ghost var arrivals := Queue();
      var reply := Request();
      if reply != Answered {
        return BEGUN, Raised;
      }
      p, outcome := HandleUntilSettled(turns, arrivals);
    }
  }

  /** A prefix of the arrivals is handled, and the right one when the agent settles. */
  ghost predicate HandlesPrefix(arrivals: seq<Message>, handled: seq<Message>, outcome: Outcome) {
    && handled <= arrivals
    && (outcome.Settled? ==> handled == UpToSettled(arrivals) && IsSettled(outcome.last))
    && (!outcome.Settled? ==> NoneSettled(handled))
  }

  /** More iterations than messages, without control messages or time-outs. */
  ghost predicate ReadsAll(turns: seq<Turn>, messages: nat) {
    |turns| > messages && forall i :: 0 <= i < |turns| ==> IsQuiet(turns[i])
  }

  /** What the events alone decide once they are all read. */
  ghost predicate IsDecided(arrivals: seq<Message>, outcome: Outcome, ends: bool) {
    && (outcome.Settled? <==> !NoneSettled(arrivals))
    && (outcome.Running? <==> NoneSettled(arrivals) && !ends)
  }

  lemma SettledIsAmong(arrivals: seq<Message>, handled: seq<Message>, last: Message)
    requires handled <= arrivals && handled != [] && handled[|handled| - 1] == last && IsSettled(last)
    ensures !NoneSettled(arrivals)
  {
    assert arrivals[|handled| - 1] == last;
  }

  // ----- totals while the agent runs

  /** An assistant message reports both counts, as u64, or neither. */
  predicate CountsWhole(m: Message) {
    var i, o := MessageInputTokens in m.event.numbers, MessageOutputTokens in m.event.numbers;
    EndsAssistantMessage(m) ==>
      (!i && !o) || (i && o && FitsU64(m.event.numbers[MessageInputTokens]) && FitsU64(m.event.numbers[MessageOutputTokens]))
  }

  ghost predicate AllWhole(messages: seq<Message>) {
    forall i :: 0 <= i < |messages| ==> CountsWhole(messages[i])
  }

  ghost predicate SameTotals(usage: Usage, observed: Observed) {
    usage.inputTokens == observed.input && usage.outputTokens == observed.output
  }

  lemma {:induction false} MarkersCountNothing(events: seq<Event>)
    ensures ObserveAll(Pi, UNREPORTED, Unmarked(events)) == ObserveAll(Pi, UNREPORTED, events)
  {
    if events != [] {
      var before, last := events[..|events| - 1], events[|events| - 1];
      assert events == before + [last];
      MarkersCountNothing(before);
      ObserveSnoc(Pi, UNREPORTED, before, last);
      ObserveSnoc(Pi, UNREPORTED, Unmarked(before), last);
      assert Unmarked(before) + [] == Unmarked(before);
    }
  }

  lemma {:induction false} TotalsNeverShrink(messages: seq<Message>)
    requires AllWhole(messages) && messages != []
    ensures Total(messages[..|messages| - 1]).input <= Total(messages).input
    ensures Total(messages[..|messages| - 1]).output <= Total(messages).output
    ensures AllWhole(messages[..|messages| - 1])
  {
    assert CountsWhole(messages[|messages| - 1]);
  }

  lemma {:induction false} TotalsAreNatural(messages: seq<Message>)
    requires AllWhole(messages)
    ensures Total(messages).input >= 0 && Total(messages).output >= 0
  {
    if messages != [] {
      TotalsNeverShrink(messages);
      TotalsAreNatural(messages[..|messages| - 1]);
    }
  }

  lemma MessageAddsTheSame(usage: Usage, observed: Observed, m: Message)
    requires SameTotals(usage, observed) && CountsWhole(m) && IsNative(m)
    requires FitsU64(Add(observed, m).input) && FitsU64(Add(observed, m).output)
    ensures SameTotals(ObserveUsage(Pi, usage, m.event), Add(observed, m))
  {
  }

  lemma {:induction false} RelayedTotals(messages: seq<Message>)
    requires AllNative(messages) && AllWhole(messages) && FitsU64(Total(messages).input) && FitsU64(Total(messages).output)
    ensures SameTotals(ObserveAll(Pi, UNREPORTED, Relayed(messages)), Total(messages))
  {
    if messages != [] {
      var before, last := messages[..|messages| - 1], messages[|messages| - 1];
      TotalsNeverShrink(messages);
      TotalsAreNatural(before);
      RelayedTotals(before);
      ObserveSnoc(Pi, UNREPORTED, Relayed(before), last.event);
      assert IsNative(last) && CountsWhole(last);
      MessageAddsTheSame(ObserveAll(Pi, UNREPORTED, Relayed(before)), Total(before), last);
      assert Relayed(before) + [] == Relayed(before);
    }
  }

  /** Until Pi settles, the totals the adapter sums up and those followed live from what it
      emitted agree, as long as messages report both counts and the sums are u64. */
  lemma ObservedIsLive(p: Progress)
    requires Faithful(p) && AllNative(p.handled) && AllWhole(p.handled)
    requires FitsU64(p.observed.input) && FitsU64(p.observed.output)
    ensures SameTotals(ObserveAll(Pi, UNREPORTED, p.emitted), p.observed)
  {
    MarkersCountNothing(p.emitted);
    RelayedTotals(p.handled);
  }

  // ----- settlement

  /** `get_session_stats`, as far as it is read: integers only when they are integers. */
  datatype Stats = Stats(sameSession: bool, input: Option<int>, output: Option<int>, zeroCost: bool)

  /** The authoritative totals, refused when they contradict what was observed. */
  function SessionUsage(stats: Stats, observed: Observed): (usage: Option<(int, int)>)
    ensures usage.Some? <==>
      && stats.sameSession && stats.zeroCost && observed.cost == 0.0
      && stats.input.Some? && observed.input <= stats.input.value
      && stats.output.Some? && observed.output <= stats.output.value
    ensures usage.Some? ==> stats.input == Some(usage.value.0) && stats.output == Some(usage.value.1)
  {
    if !stats.sameSession || stats.input.None? || stats.output.None? then None
    else if stats.input.value < observed.input || stats.output.value < observed.output then None
    else if !stats.zeroCost || observed.cost != 0.0 then None
    else Some((stats.input.value, stats.output.value))
  }

  function UsageEvent(usage: (int, int)): Event {
    BARE.(typ := PiUsage, numbers := map[InputTokens := usage.0, OutputTokens := usage.1, Cost := 0])
  }

  function VendorPart(p: Progress, usage: (int, int), settled: Event): seq<Event> {
    p.emitted + [UsageEvent(usage)] + [settled]
  }

  function OwnResult(launch: Launch, p: Progress, summary: string): Option<Event> {
    if p.interrupted then None else Some(ResultEvent(launch, summary))
  }

  function TraceOf(launch: Launch, p: Progress, usage: (int, int), settled: Event, summary: string): seq<Event> {
    Trace(launch, VendorPart(p, usage, settled), OwnResult(launch, p, summary))
  }

  /** The summary that a finished run submits: none is needed when interrupted. */
  function SummaryOf(p: Progress, parse: string -> Option<string>): Option<string> {
    if p.interrupted then Some("") else parse(p.lastText)
  }

  /** The whole trace of a run, unless the statistics contradict it or the last text
      is not a structured Result. */
  function Settle(launch: Launch, p: Progress, settled: Event, stats: Stats, parse: string -> Option<string>): Option<seq<Event>> {
    var usage, summary := SessionUsage(stats, p.observed), SummaryOf(p, parse);
    if usage.None? || summary.None? then None else Some(TraceOf(launch, p, usage.value, settled, summary.value))
  }

  lemma TraceAroundUsage(launch: Launch, p: Progress, usage: (int, int), settled: Event, summary: string)
    ensures TraceOf(launch, p, usage, settled, summary)
         == (Opening(launch) + p.emitted) + [UsageEvent(usage)] + ([settled] + Ending(OwnResult(launch, p, summary)))
  {
  }

  lemma ClosingCountsNothing(launch: Launch, p: Progress, settled: Event, summary: string, e: Event)
    requires settled.typ == AgentSettled && e in [settled] + Ending(OwnResult(launch, p, summary))
    ensures MessageCounts(e) == None
  {
  }

  ghost predicate CountsNothing(events: seq<Event>) {
    forall e :: e in events ==> MessageCounts(e) == None
  }

  lemma NothingCountsAfter(before: seq<Event>, usage: Event, after: seq<Event>, totals: Usage)
    requires CountsNothing(after)
    ensures var trace, u := before + [usage] + after, |before|;
      trace[u] == usage && forall i :: u < i < |trace| ==> AddsNothing(trace[i], totals)
  {
    var trace, u := before + [usage] + after, |before|;
    forall i | u < i < |trace| ensures AddsNothing(trace[i], totals) {
      assert trace[i] == after[i - u - 1];
    }
  }

  /** If nothing after the usage report counts, live totals are the reported ones. */
  lemma ReportIsLast(trace: seq<Event>, u: nat, expectation: Expectation, report: Report)
    requires u < |trace| && trace[u].typ == PiUsage
    requires forall i :: u < i < |trace| ==> AddsNothing(trace[i], Usage(report.inputTokens, report.outputTokens, true))
    requires ValidateTrace(Pi, trace, expectation) == Ok(report)
    ensures ReportsSameTokens(ObserveAll(Pi, UNREPORTED, trace), report)
  {
    PiLiveMatchesExactly(trace, expectation, report, u);
  }

  lemma UsageReportIsLast(launch: Launch, p: Progress, usage: (int, int), settled: Event, summary: string,
                          expectation: Expectation, report: Report)
    requires settled.typ == AgentSettled
    requires ValidateTrace(Pi, TraceOf(launch, p, usage, settled, summary), expectation) == Ok(report)
    ensures ReportsSameTokens(ObserveAll(Pi, UNREPORTED, TraceOf(launch, p, usage, settled, summary)), report)
  {
    var before, after := Opening(launch) + p.emitted, [settled] + Ending(OwnResult(launch, p, summary));
    TraceAroundUsage(launch, p, usage, settled, summary);
    forall e | e in after ensures MessageCounts(e) == None {
      ClosingCountsNothing(launch, p, settled, summary, e);
    }
    NothingCountsAfter(before, UsageEvent(usage), after, Usage(report.inputTokens, report.outputTokens, true));
    ReportIsLast(TraceOf(launch, p, usage, settled, summary), |before|, expectation, report);
  }

  /** Whatever Pi sent before it settled, an accepted trace of this adapter has live
      totals equal to the reported ones: no assistant message follows its report. */
  lemma SettledRunKeepsLiveTotals(launch: Launch, p: Progress, settled: Event, stats: Stats, parse: string -> Option<string>,
                                  expectation: Expectation, report: Report)
    requires settled.typ == AgentSettled && Settle(launch, p, settled, stats, parse).Some?
    requires ValidateTrace(Pi, Settle(launch, p, settled, stats, parse).value, expectation) == Ok(report)
    ensures ReportsSameTokens(ObserveAll(Pi, UNREPORTED, Settle(launch, p, settled, stats, parse).value), report)
  {
    UsageReportIsLast(launch, p, SessionUsage(stats, p.observed).value, settled, SummaryOf(p, parse).value, expectation, report);
  }
}
