/** The Codex adapter's demultiplexer: replies and notifications share one stream,
    and requests made in mid-turn set notifications aside in a buffer. */
module CodexQueues {
  import opened Prelude
  import opened AdapterEvents

  /** What a message has at `params.turn.status` when that is not a string. */
  datatype StatusShape = Missing | Null | OtherValue

  /** A JSON-RPC message; `event.rpc` is its method, `id` its request id, if any,
      `text` the text of the item it completes, and `shape` that of a status without a string. */
  datatype Message = Message(event: Event, id: Option<nat>, isError: bool, text: Option<string>, shape: StatusShape)

  predicate IsReply(m: Message, request: nat) {
    m.id == Some(request) && m.event.rpc == NoMethod
  }

  /** A request from the server, which is denied at once. */
  predicate IsInteractive(m: Message) {
    m.id.Some? && m.event.rpc != NoMethod
  }

  predicate IsNotification(m: Message) {
    m.id.None? && m.event.rpc != NoMethod
  }

  predicate HasStatus(m: Message) {
    AsStr(m.event, TurnStatus).Some?
  }

  /** Leaves the loop's `terminal` set: an error, or a completed turn with any status but null. */
  predicate IsTerminal(m: Message) {
    m.event.rpc == ErrorMethod || (m.event.rpc == TurnCompleted && (HasStatus(m) || m.shape.OtherValue?))
  }

  /** A completed turn without a status raises. */
  predicate IsMalformed(m: Message) {
    m.event.rpc == TurnCompleted && !HasStatus(m) && m.shape.Missing?
  }

  /** The five methods that the adapter passes on. */
  predicate IsRelayed(m: Message) {
    m.event.rpc in {TurnStarted, ItemCompleted, TokenUsageUpdated, TurnCompleted, ErrorMethod}
  }

  predicate CompletesText(m: Message) {
    m.event.rpc == ItemCompleted && m.text.Some?
  }

  /** The events passed on for the handled messages, in order. */
  ghost function Relayed(messages: seq<Message>): seq<Event> {
    if messages == [] then []
    else
      var last := messages[|messages| - 1];
      Relayed(messages[..|messages| - 1]) + if IsRelayed(last) then [last.event] else []
  }

  /** The text of the last completed item that has one. */
  ghost function LastText(messages: seq<Message>): string {
    if messages == [] then ""
    else
      var last := messages[|messages| - 1];
      if CompletesText(last) then last.text.value else LastText(messages[..|messages| - 1])
  }

  ghost predicate LastCompletedText(messages: seq<Message>, i: nat) {
    && i < |messages| && messages[i].event.rpc == ItemCompleted && messages[i].text.Some?
    && forall j :: i < j < |messages| && messages[j].event.rpc == ItemCompleted ==> messages[j].text.None?
  }

  lemma {:induction false} LastTextIsOfTheLast(messages: seq<Message>, i: nat)
    requires LastCompletedText(messages, i)
    ensures messages[i].text == Some(LastText(messages))
  {
    var n: nat := |messages| - 1;
    if i < n {
      assert messages[..n][i] == messages[i];
      LastTextIsOfTheLast(messages[..n], i);
    }
  }

  /** The main loop's local variables. */
  datatype Progress = Progress(handled: seq<Message>, emitted: seq<Event>, lastText: string)

  const BEGUN := Progress([], [], "")

  function Handle(p: Progress, m: Message): Progress {
    Progress(p.handled + [m],
             if IsRelayed(m) then p.emitted + [m.event] else p.emitted,
             if CompletesText(m) then m.text.value else p.lastText)
  }

  ghost predicate Faithful(p: Progress) {
    p.emitted == Relayed(p.handled) && p.lastText == LastText(p.handled)
  }

  lemma HandleKeepsFaithful(p: Progress, m: Message)
    requires Faithful(p)
    ensures Faithful(Handle(p, m))
  {
    var handled := p.handled + [m];
    assert handled[|handled| - 1] == m && handled[..|handled| - 1] == p.handled;
    assert p.emitted + [] == p.emitted;
  }

  ghost function Notifications(messages: seq<Message>): seq<Message> {
    if messages == [] then []
    else (if IsNotification(messages[0]) then [messages[0]] else []) + Notifications(messages[1..])
  }

  lemma {:induction false} NotificationsAppend(a: seq<Message>, b: seq<Message>)
    ensures Notifications(a + b) == Notifications(a) + Notifications(b)
  {
    if a == [] {
      assert a + b == b;
    } else {
      var ab := a + b;
      assert ab[0] == a[0] && ab[1..] == a[1..] + b;
      NotificationsAppend(a[1..], b);
      AppendIsAssociative(if IsNotification(a[0]) then [a[0]] else [], Notifications(a[1..]), Notifications(b));
    }
  }

  lemma NotificationsSnoc(a: seq<Message>, m: Message)
    ensures Notifications(a + [m]) == Notifications(a) + if IsNotification(m) then [m] else []
  {
    NotificationsAppend(a, [m]);
    assert [m][1..] == [];
  }

  // ----- what a request reads

  /** The first message that has the request's id and no method. */
  ghost predicate IsFirstReply(messages: seq<Message>, request: nat, k: nat) {
    && k < |messages| && messages[k].id == Some(request) && messages[k].event.rpc == NoMethod
    && NoReply(messages[..k], request)
  }

  ghost predicate NoReply(messages: seq<Message>, request: nat) {
    forall j :: 0 <= j < |messages| ==> messages[j].event.rpc == NoMethod ==> messages[j].id != Some(request)
  }

  /** The first reply is no error. */
  ghost predicate IsAnswered(messages: seq<Message>, request: nat) {
    exists k: nat :: IsFirstReply(messages, request, k) && !messages[k].isError
  }

  /** All but the requests from the server, in order. */
  ghost function SetAside(messages: seq<Message>): seq<Message> {
    if messages == [] then []
    else
      var last := messages[|messages| - 1];
      SetAside(messages[..|messages| - 1]) + if last.id.Some? && last.event.rpc != NoMethod then [] else [last]
  }

  /** The ids of the requests from the server, in order. */
  ghost function Asked(messages: seq<Message>): seq<nat> {
    if messages == [] then []
    else
      var last := messages[|messages| - 1];
      Asked(messages[..|messages| - 1]) + if last.id.Some? && last.event.rpc != NoMethod then [last.id.value] else []
  }

  lemma ReadSnoc(messages: seq<Message>, m: Message)
    ensures SetAside(messages + [m]) == SetAside(messages) + if IsInteractive(m) then [] else [m]
    ensures Asked(messages + [m]) == Asked(messages) + if IsInteractive(m) then [m.id.value] else []
  {
    var more := messages + [m];
    assert more[|more| - 1] == m && more[..|more| - 1] == messages;
  }

  lemma FirstReplyIsFirst(messages: seq<Message>, request: nat, k: nat, j: nat)
    requires IsFirstReply(messages, request, k) && IsFirstReply(messages, request, j)
    ensures j <= k
  {
    var earlier := messages[..j];
    assert forall i :: 0 <= i < |earlier| ==> earlier[i] == messages[i];
  }

  /** A reply decides what the request is answered. */
  lemma ReplyDecides(messages: seq<Message>, request: nat, k: nat)
    requires IsFirstReply(messages, request, k)
    ensures !NoReply(messages, request)
    ensures forall j: nat :: IsFirstReply(messages, request, j) ==> j == k
    ensures IsAnswered(messages, request) <==> !messages[k].isError
  {
    forall j: nat | IsFirstReply(messages, request, j) ensures j == k {
      FirstReplyIsFirst(messages, request, k, j);
      FirstReplyIsFirst(messages, request, j, k);
    }
  }

  lemma NoReplyNoAnswer(messages: seq<Message>, request: nat)
    requires NoReply(messages, request)
    ensures forall k: nat :: !IsFirstReply(messages, request, k)
    ensures !IsAnswered(messages, request)
  {
  }

  lemma {:induction false} SetAsideKeepsNotifications(messages: seq<Message>)
    ensures Notifications(SetAside(messages)) == Notifications(messages) && |SetAside(messages)| <= |messages|
  {
    if messages != [] {
      var before, last := messages[..|messages| - 1], messages[|messages| - 1];
      assert messages == before + [last];
      SetAsideKeepsNotifications(before);
      NotificationsSnoc(before, last);
      if IsInteractive(last) {
        assert SetAside(messages) == SetAside(before);
      } else {
        NotificationsSnoc(SetAside(before), last);
      }
    }
  }

  lemma SettingAsideKeepsNotifications(buffered: seq<Message>, messages: seq<Message>)
    ensures Notifications(buffered + SetAside(messages)) == Notifications(buffered) + Notifications(messages)
    ensures |SetAside(messages)| <= |messages|
  {
    SetAsideKeepsNotifications(messages);
    NotificationsAppend(buffered, SetAside(messages));
  }

  /** Dropping a reply and setting aside what came before it moves no notification. */
  lemma ReadingKeepsNotifications(buffered: seq<Message>, arrivals: seq<Message>, k: nat)
    requires k < |arrivals| && !IsNotification(arrivals[k])
    ensures Notifications(buffered + SetAside(arrivals[..k])) + Notifications(arrivals[k + 1..])
         == Notifications(buffered) + Notifications(arrivals)
    ensures |SetAside(arrivals[..k])| <= k
  {
    var before, after := arrivals[..k], arrivals[k..];
    assert arrivals == before + after && after[1..] == arrivals[k + 1..];
    SettingAsideKeepsNotifications(buffered, before);
    NotificationsAppend(before, after);
    AppendIsAssociative(Notifications(buffered), Notifications(before), Notifications(after));
  }

  lemma UnlessReplied(messages: seq<Message>, read: nat, request: nat)
    requires read < |messages| && NoReply(messages[..read], request) && !IsReply(messages[read], request)
    ensures messages[..read + 1] == messages[..read] + [messages[read]] && NoReply(messages[..read + 1], request)
  {
  }

  datatype Reply = Answered | Rejected | Exited | Waiting

  datatype Turn = Turn(controlled: bool, timedOut: bool)

  predicate IsQuiet(turn: Turn) {
    !turn.controlled && !turn.timedOut
  }

  datatype Outcome = Terminal(last: Message) | Raised | Running

  /** The server connection. `inbox` is everything that will ever arrive and has
      not been read; `ends` says whether the stream then closes. */
  class AppServer {
    var inbox: seq<Message>
    var buffered: seq<Message>
    var nextId: nat
    var denied: seq<nat>
    const ends: bool

    /** The one first-in-first-out queue that the two stores stand for. */
    ghost function Queue(): seq<Message>
      reads this`buffered, this`inbox
    {
      Notifications(buffered) + Notifications(inbox)
    }

    /** What is still to be handled: the main loop's pending list, then the queue. */
    ghost function Remaining(pending: seq<Message>): seq<Message>
      reads this`buffered, this`inbox
    {
      Notifications(pending) + Queue()
    }

    constructor (arrivals: seq<Message>, ends: bool)
      ensures inbox == arrivals && buffered == [] && nextId == 1 && denied == [] && this.ends == ends
    {
      inbox, buffered, nextId, denied, this.ends := arrivals, [], 1, [], ends;
    }

    /** The first `k` messages that were still to arrive are set aside or denied. */
    twostate predicate ReadUpTo(k: nat)
      requires k <= |old(inbox)|
      reads this
    {
      buffered == old(buffered) + SetAside(old(inbox)[..k]) && denied == old(denied) + Asked(old(inbox)[..k])
    }

    /** Sends a request and reads until its reply; requests from the server are denied,
        and whatever else arrives is kept. */
    method Request() returns (reply: Reply)
      modifies this
      ensures Queue() == old(Queue())
      ensures nextId == old(nextId) + 1 && old(buffered) <= buffered
      ensures forall k: nat :: IsFirstReply(old(inbox), old(nextId), k) ==>
        && inbox == old(inbox)[k + 1..] && ReadUpTo(k)
        && reply == if old(inbox)[k].isError then Rejected else Answered
      ensures NoReply(old(inbox), old(nextId)) ==>
        inbox == [] && ReadUpTo(|old(inbox)|) && reply == if ends then Exited else Waiting
      ensures reply == Answered <==> IsAnswered(old(inbox), old(nextId))
      ensures |inbox| <= |old(inbox)| && |buffered| + |inbox| <= |old(buffered)| + |old(inbox)|
    {
      ghost var arrivals, read := inbox, 0;
      var request := nextId;
      nextId := nextId + 1;
      assert arrivals[..0] == [];
      while inbox != []
        invariant nextId == old(nextId) + 1 && request == old(nextId)
        invariant read <= |arrivals| && inbox == arrivals[read..] && arrivals == old(inbox)
        invariant ReadUpTo(read) && NoReply(arrivals[..read], request)
        decreases |inbox|
      {
        var message := inbox[0];
        inbox := inbox[1..];
        if IsReply(message, request) {
          ReplyDecides(arrivals, request, read);
          ReadingKeepsNotifications(old(buffered), arrivals, read);
          return if message.isError then Rejected else Answered;
        }
        UnlessReplied(arrivals, read, request);
        ReadSnoc(arrivals[..read], message);
        if IsInteractive(message) {
          denied := denied + [message.id.value];
        } else {
          buffered := buffered + [message];
        }
        read := read + 1;
      }
      assert arrivals[..read] == arrivals;
      NoReplyNoAnswer(arrivals, request);
      SettingAsideKeepsNotifications(old(buffered), arrivals);
      return if ends then Exited else Waiting;
    }

    method TakeBuffered() returns (taken: seq<Message>)
      modifies this`buffered
      ensures taken == old(buffered) && buffered == []
    {
      taken := buffered;
      buffered := [];
    }

    /** A steer or interrupt request in mid-turn, and the messages it set aside. */
    method RequestAndKeep(pending: seq<Message>) returns (reply: Reply, kept: seq<Message>)
      requires buffered == []
      modifies this
      ensures buffered == []
      ensures Remaining(kept) == old(Remaining(pending))
      ensures reply == Answered <==> IsAnswered(old(inbox), old(nextId))
      ensures |kept| + |inbox| <= |pending| + |old(inbox)|
    {
      reply := Request();
      var more := TakeBuffered();
      NotificationsAppend(pending, more);
      kept := pending + more;
    }

    /** The request of a control message, if the turn has one. */
    method ApplyControl(turn: Turn, pending: seq<Message>) returns (answered: bool, kept: seq<Message>)
      requires buffered == []
      modifies this
      ensures buffered == [] && Remaining(kept) == old(Remaining(pending))
      ensures answered <==> (turn.controlled ==> IsAnswered(old(inbox), old(nextId)))
      ensures |kept| + |inbox| <= |pending| + |old(inbox)|
      ensures !turn.controlled ==> kept == pending && inbox == old(inbox)
    {
      if !turn.controlled {
        return true, pending;
      }
      var reply;
      reply, kept := RequestAndKeep(pending);
      answered := reply == Answered;
    }

    /** The next message to handle: pending ones first, then the stream. */
    method NextMessage(pending: seq<Message>, timedOut: bool) returns (message: Option<Message>, rest: seq<Message>)
      requires buffered == []
      modifies this`inbox
      ensures message.None? <==> pending == [] && (old(inbox) == [] || timedOut)
      ensures message.None? ==> rest == pending && inbox == old(inbox)
      ensures message.Some? ==> |rest| + |inbox| + 1 == |pending| + |old(inbox)|
      ensures message.Some? ==>
        old(Remaining(pending)) == (if IsNotification(message.value) then [message.value] else []) + Remaining(rest)
    {
      if pending != [] {
        return Some(pending[0]), pending[1..];
      }
      if inbox != [] && !timedOut {
        message, rest := Some(inbox[0]), pending;
        inbox := inbox[1..];
      } else {
        return None, pending;
      }
    }

    /** The loop invariant: handled and remaining notifications are the arrivals. */
    ghost predicate InOrder(arrivals: seq<Message>, handled: seq<Message>, pending: seq<Message>)
      reads this`buffered, this`inbox
    {
      buffered == [] && arrivals == handled + Remaining(pending) && NoneTerminal(handled)
    }

    /** One notification: emitted and remembered, and terminal, malformed or neither. */
    method HandleNotification(before: Progress, message: Message, ghost rest: seq<Message>, ghost arrivals: seq<Message>)
      returns (p: Progress, outcome: Outcome)
      requires arrivals == before.handled + ([message] + rest)
      requires NoneTerminal(before.handled) && Faithful(before)
      ensures p == Handle(before, message) && Faithful(p) && arrivals == p.handled + rest && p.handled <= arrivals
      ensures outcome.Terminal? ==> p.handled == UpToTerminal(arrivals) && EndsWith(p.handled, outcome.last)
      ensures !outcome.Terminal? ==> NoneTerminal(p.handled)
      ensures outcome.Raised? <==> IsMalformed(message)
      ensures NoneMalformed(before.handled) && !outcome.Running? ==> IsDecided(arrivals, outcome, ends)
    {
      TakenIsPrefix(before.handled, message, rest);
      HandleKeepsFaithful(before, message);
      p := Handle(before, message);
      if IsTerminal(message) {
        assert p.handled[..|p.handled| - 1] == before.handled;
        TerminalEndsPrefix(before.handled, message, rest);
        FinishedByPrefix(before.handled, message, arrivals);
        return p, Terminal(message);
      }
      RaisedByPrefix(before.handled, message, arrivals);
      return p, if IsMalformed(message) then Raised else Running;
    }

    /** What was taken from the queue: a notification is handled, a request from the
        server is denied, and a stray reply is dropped. */
    method Dispatch(before: Progress, message: Message, ghost rest: seq<Message>, ghost arrivals: seq<Message>)
      returns (p: Progress, outcome: Outcome)
      requires arrivals == before.handled + ((if IsNotification(message) then [message] else []) + rest)
      requires NoneTerminal(before.handled) && Faithful(before)
      modifies this`denied
      ensures HandlesPrefix(arrivals, p, outcome)
      ensures outcome.Running? ==> arrivals == p.handled + rest
      ensures outcome.Raised? ==> MetMalformed(before, p)
      ensures outcome.Running? && NoneMalformed(before.handled) ==> NoneMalformed(p.handled)
      ensures NoneMalformed(before.handled) && !outcome.Running? ==> IsDecided(arrivals, outcome, ends)
      ensures denied == old(denied) + if IsInteractive(message) then [message.id.value] else []
    {
      if IsNotification(message) {
        p, outcome := HandleNotification(before, message, rest, arrivals);
        return;
      }
      if IsInteractive(message) {
        denied := denied + [message.id.value];
      }
      return before, Running;
    }

    /** One iteration after its control message: at most one notification is handled, and
        at most one request from the server is denied. */
    method HandleNext(before: Progress, pendingBefore: seq<Message>, timedOut: bool, ghost arrivals: seq<Message>)
      returns (p: Progress, pending: seq<Message>, outcome: Outcome)
      requires InOrder(arrivals, before.handled, pendingBefore) && Faithful(before)
      modifies this`inbox, this`denied
      ensures HandlesPrefix(arrivals, p, outcome)
      ensures outcome.Running? ==> InOrder(arrivals, p.handled, pending)
      ensures outcome.Raised? ==> p == before || MetMalformed(before, p)
      ensures outcome.Running? && NoneMalformed(before.handled) ==> NoneMalformed(p.handled)
      ensures !timedOut && NoneMalformed(before.handled) && !outcome.Running? ==> IsDecided(arrivals, outcome, ends)
      ensures !timedOut && outcome.Running? ==>
        |pending| + |inbox| < |pendingBefore| + |old(inbox)| || (|pending| + |inbox| == 0 && !ends)
    {
      var message;
      message, pending := NextMessage(pendingBefore, timedOut);
      if message.None? {
        NothingFinishes(before.handled);
        assert before.handled <= arrivals;
        return before, pending, if inbox == [] && ends && !timedOut then Raised else Running;
      }
      p, outcome := Dispatch(before, message.value, Remaining(pending), arrivals);
    }

    /** One iteration of the main loop. */
    method Iterate(before: Progress, pendingBefore: seq<Message>, turn: Turn, ghost arrivals: seq<Message>)
      returns (p: Progress, pending: seq<Message>, outcome: Outcome)
      requires InOrder(arrivals, before.handled, pendingBefore) && Faithful(before)
      modifies this
      ensures HandlesPrefix(arrivals, p, outcome)
      ensures outcome.Running? ==> InOrder(arrivals, p.handled, pending)
      ensures outcome.Raised? ==> p == before || MetMalformed(before, p)
      ensures turn.controlled && !IsAnswered(old(inbox), old(nextId)) ==> outcome == Raised
      ensures outcome.Running? && NoneMalformed(before.handled) ==> NoneMalformed(p.handled)
      ensures IsQuiet(turn) && NoneMalformed(before.handled) && !outcome.Running? ==> IsDecided(arrivals, outcome, ends)
      ensures IsQuiet(turn) && outcome.Running? ==>
        |pending| + |inbox| < |pendingBefore| + |old(inbox)| || (|pending| + |inbox| == 0 && !ends)
    {
      var answered, kept := ApplyControl(turn, pendingBefore);
      if !answered {
        assert before.handled <= arrivals;
        return before, kept, Raised;
      }
      p, pending, outcome := HandleNext(before, kept, turn.timedOut, arrivals);
    }

    /** The main loop, from its pending messages on. */
    method HandleUntilTerminal(turns: seq<Turn>, pendingBefore: seq<Message>, ghost arrivals: seq<Message>)
      returns (p: Progress, outcome: Outcome)
      requires InOrder(arrivals, [], pendingBefore)
      modifies this
      ensures HandlesPrefix(arrivals, p, outcome)
      ensures ReadsAll(turns, |pendingBefore| + |old(inbox)|) ==> IsDecided(arrivals, outcome, ends)
    {
      ghost var all := |pendingBefore| + |inbox|;
      p := BEGUN;
      var pending := pendingBefore;
      for i := 0 to |turns|
        invariant InOrder(arrivals, p.handled, pending) && Faithful(p) && NoneMalformed(p.handled)
        invariant ReadsAll(turns, all) ==> |pending| + |inbox| + i <= all || (|pending| + |inbox| == 0 && !ends)
      {
        p, pending, outcome := Iterate(p, pending, turns[i], arrivals);
        if !outcome.Running? {
          return;
        }
      }
      NothingFinishes(p.handled);
      return p, Running;
    }

    /** One turn: the request that starts it, then the `pending` loop with any
        number of steer and interrupt requests in between. Every notification that
        arrived is handled in arrival order, up to the first terminal one, and those
        of the five methods are passed on. A turn that is started and not disturbed
        finishes exactly when a terminal notification arrives before any malformed one. */
    method RunTurn(turns: seq<Turn>) returns (p: Progress, outcome: Outcome)
      requires buffered == []
      modifies this
      ensures HandlesPrefix(Notifications(old(inbox)), p, outcome)
      ensures !IsAnswered(old(inbox), old(nextId)) ==> p == BEGUN && outcome == Raised
      ensures IsAnswered(old(inbox), old(nextId)) && ReadsAll(turns, |old(inbox)|) ==>
        IsDecided(Notifications(old(inbox)), outcome, ends)
    {
      ghost var arrivals := Notifications(inbox);
      var reply, pending := RequestAndKeep([]);
      if reply != Answered {
        return BEGUN, Raised;
      }
      p, outcome := HandleUntilTerminal(turns, pending, arrivals);
    }
  }

  /** A prefix of the arrivals is handled, and the right one when a terminal one is met. */
  ghost predicate HandlesPrefix(arrivals: seq<Message>, p: Progress, outcome: Outcome) {
    && Faithful(p) && p.handled <= arrivals
    && (outcome.Terminal? ==> p.handled == UpToTerminal(arrivals) && EndsWith(p.handled, outcome.last))
    && (!outcome.Terminal? ==> NoneTerminal(p.handled))
  }

  /** The last thing handled raised. */
  ghost predicate MetMalformed(before: Progress, after: Progress) {
    exists m :: IsMalformed(m) && after == Handle(before, m)
  }

  /** One terminal message, at the end. */
  ghost predicate EndsWith(messages: seq<Message>, last: Message) {
    && messages != [] && messages[|messages| - 1] == last && IsTerminal(last)
    && NoneTerminal(messages[..|messages| - 1])
  }

  predicate NoneMalformed(messages: seq<Message>) {
    forall i :: 0 <= i < |messages| ==> !IsMalformed(messages[i])
  }

  ghost predicate NoneEnds(messages: seq<Message>) {
    NoneTerminal(messages) && NoneMalformed(messages)
  }

  /** A terminal notification comes before any malformed one. */
  ghost predicate FinishesTurn(messages: seq<Message>) {
    exists k: nat :: k < |messages| && IsTerminal(messages[k]) && NoneEnds(messages[..k])
  }

  /** More iterations than messages, without control messages or time-outs. */
  ghost predicate ReadsAll(turns: seq<Turn>, messages: nat) {
    |turns| > messages && forall i :: 0 <= i < |turns| ==> IsQuiet(turns[i])
  }

  /** What the messages alone decide once they are all read. */
  ghost predicate IsDecided(arrivals: seq<Message>, outcome: Outcome, ends: bool) {
    && (outcome.Terminal? <==> FinishesTurn(arrivals))
    && (outcome.Running? <==> NoneEnds(arrivals) && !ends)
  }

  lemma FinishedByPrefix(before: seq<Message>, last: Message, arrivals: seq<Message>)
    requires before + [last] <= arrivals && NoneTerminal(before) && IsTerminal(last)
    ensures NoneMalformed(before) ==> FinishesTurn(arrivals)
    ensures !NoneEnds(arrivals)
  {
    var k: nat := |before|;
    assert arrivals[k] == last && arrivals[..k] == before;
  }

  lemma RaisedByPrefix(before: seq<Message>, last: Message, arrivals: seq<Message>)
    requires before + [last] <= arrivals && NoneTerminal(before + [last])
    ensures IsMalformed(last) ==> !FinishesTurn(arrivals) && !NoneEnds(arrivals)
  {
    var k, upTo := |before|, before + [last];
    assert forall i: nat :: i < |upTo| ==> upTo[i] == arrivals[i] && !IsTerminal(upTo[i]);
    if IsMalformed(last) {
      assert arrivals[k] == last;
      forall j: nat | j < |arrivals| && IsTerminal(arrivals[j]) ensures !NoneEnds(arrivals[..j]) {
        LaterSeesEarlier(arrivals, k, j);
      }
    }
  }

  lemma LaterSeesEarlier(messages: seq<Message>, k: nat, j: nat)
    requires k < j <= |messages| && IsMalformed(messages[k])
    ensures !NoneMalformed(messages[..j])
  {
    assert messages[..j][k] == messages[k];
  }

  lemma NothingFinishes(arrivals: seq<Message>)
    requires NoneTerminal(arrivals)
    ensures !FinishesTurn(arrivals)
  {
  }

  predicate NoneTerminal(messages: seq<Message>) {
    forall i :: 0 <= i < |messages| ==> !IsTerminal(messages[i])
  }

  /** The messages up to and including the first terminal one. */
  ghost function UpToTerminal(messages: seq<Message>): seq<Message> {
    if messages == [] then []
    else if IsTerminal(messages[0]) then [messages[0]]
    else [messages[0]] + UpToTerminal(messages[1..])
  }

  lemma {:induction false} TerminalEndsPrefix(before: seq<Message>, last: Message, after: seq<Message>)
    requires IsTerminal(last) && NoneTerminal(before)
    ensures UpToTerminal(before + ([last] + after)) == before + [last]
  {
    var all := before + ([last] + after);
    if before != [] {
      assert all[0] == before[0] && all[1..] == before[1..] + ([last] + after);
      TerminalEndsPrefix(before[1..], last, after);
    }
  }
}
