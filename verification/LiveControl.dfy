/** Live control of a Worker. Each lock-protected section is one atomic step; the
    Watchdog takes several. */
module LiveControl {
  import opened Prelude

  type Command = (string, string)

  datatype ControlMessage =
    | SteerMessage(command: string, clarification: string)
    | InterruptMessage(command: string, reason: string)

  /** The control record, and everything written to the adapter so far. */
  datatype Snapshot = Snapshot(
    interrupted: bool,
    interruptReason: Option<Command>,
    watchdogSignal: Option<string>,
    clarifications: seq<Command>,
    delivered: set<string>,
    hasInput: bool,
    wasAttached: bool,
    detached: bool,
    stream: seq<ControlMessage>)

  const NEW_CONTROL := Snapshot(false, None, None, [], {}, false, false, false, [])

  datatype Outcome = Accepted | Repeated | Denied

  function Steers(commands: seq<Command>): (messages: seq<ControlMessage>)
    ensures |messages| == |commands|
    ensures forall i :: 0 <= i < |messages| ==> messages[i] == SteerMessage(commands[i].0, commands[i].1)
  {
    seq(|commands|, i requires 0 <= i < |commands| => SteerMessage(commands[i].0, commands[i].1))
  }

  function Interrupts(command: Option<Command>): seq<ControlMessage> {
    if command.Some? then [InterruptMessage(command.value.0, command.value.1)] else []
  }

  // ----- the atomic steps

  function SteerStep(s: Snapshot, id: string, text: string): (Snapshot, Outcome) {
    if id in s.delivered then (s, Repeated)
    else if s.detached || s.interrupted then (s, Denied)
    else (s.(clarifications := s.clarifications + [(id, text)],
             stream := if s.hasInput then s.stream + [SteerMessage(id, text)] else s.stream,
             delivered := s.delivered + {id}),
          Accepted)
  }

  function InterruptStep(s: Snapshot, id: string, reason: string): (Snapshot, Outcome) {
    if id in s.delivered then (s, Repeated)
    else if s.detached || s.interrupted then (s, Denied)
    else (s.(stream := if s.hasInput then s.stream + [InterruptMessage(id, reason)] else s.stream,
             interruptReason := Some((id, reason)),
             interrupted := true,
             delivered := s.delivered + {id}),
          Accepted)
  }

  /** Replays what was accepted so far, then opens the channel; fails without a reason to replay. */
  function AttachStep(s: Snapshot): (Snapshot, bool) {
    var replayed := s.(stream := s.stream + Steers(s.clarifications));
    if s.interrupted && s.interruptReason.None? then (replayed, false)
    else (replayed.(stream := replayed.stream + if s.interrupted then Interrupts(s.interruptReason) else [],
                    hasInput := true, wasAttached := true),
          true)
  }

  function DetachStep(s: Snapshot): Snapshot {
    s.(detached := s.detached || s.wasAttached, hasInput := false)
  }

  function WatchdogCommand(signal: string): Command {
    ("watchdog-" + signal, "Watchdog contained " + signal)
  }

  // ----- the object

  class WorkerControl {
    var interrupted: bool
    var interruptReason: Option<Command>
    var watchdogSignal: Option<string>
    var clarifications: seq<Command>
    var delivered: set<string>
    var hasInput: bool
    var wasAttached: bool
    var detached: bool
    var stream: seq<ControlMessage>

    ghost function State(): Snapshot
      reads this
    {
      Snapshot(interrupted, interruptReason, watchdogSignal, clarifications, delivered, hasInput, wasAttached, detached, stream)
    }

    constructor ()
      ensures State() == NEW_CONTROL
    {
      interrupted, interruptReason, watchdogSignal, clarifications := false, None, None, [];
      delivered, hasInput, wasAttached, detached, stream := {}, false, false, false, [];
    }

    method Steer(id: string, text: string) returns (outcome: Outcome)
      modifies this
      ensures (State(), outcome) == SteerStep(old(State()), id, text)
    {
      if id in delivered {
        return Repeated;
      }
      if detached {
        return Denied;
      }
      if interrupted {
        return Denied;
      }
      clarifications := clarifications + [(id, text)];
      if hasInput {
        stream := stream + [SteerMessage(id, text)];
      }
      delivered := delivered + {id};
      return Accepted;
    }

    method Interrupt(id: string, reason: string) returns (outcome: Outcome)
      modifies this
      ensures (State(), outcome) == InterruptStep(old(State()), id, reason)
    {
      if id in delivered {
        return Repeated;
      }
      if detached {
        return Denied;
      }
      if interrupted {
        return Denied;
      }
      if hasInput {
        stream := stream + [InterruptMessage(id, reason)];
      }
      interruptReason := Some((id, reason));
      interrupted := true;
      delivered := delivered + {id};
      return Accepted;
    }

    method AttachAdapterInput() returns (ok: bool)
      modifies this
      ensures (State(), ok) == AttachStep(old(State()))
    {
      var commands := clarifications;
      for i := 0 to |commands|
        invariant State() == old(State()).(stream := old(stream) + Steers(commands[..i]))
      {
        SteersSnoc(commands[..i], commands[i]);
        assert commands[..i + 1] == commands[..i] + [commands[i]];
        stream := stream + [SteerMessage(commands[i].0, commands[i].1)];
      }
      assert commands[..|commands|] == commands;
      assert stream + [] == stream;
      if interrupted {
        if interruptReason.None? {
          return false;
        }
        stream := stream + [InterruptMessage(interruptReason.value.0, interruptReason.value.1)];
      }
      hasInput := true;
      wasAttached := true;
      return true;
    }

    method DetachAdapterInput()
      modifies this
      ensures State() == DetachStep(old(State()))
    {
      if wasAttached {
        detached := true;
      }
      hasInput := false;
    }
  }

  // ----- interleavings

  /** Where a Watchdog thread stands inside `watchdog_contain`. */
  datatype Watchdog =
    | Signalled(signal: string)
    | WillInterrupt(signal: string)
    | WillRecordReason(signal: string)
    | WillSetFlag(signal: string)

  datatype Action =
    | DoSteer(id: string, text: string)
    | DoInterrupt(id: string, reason: string)
    | DoAttach
    | DoDetach
    | DoSignal(thread: nat, signal: string)
    | DoWatchdog(thread: nat)
    | DoReadFlag

  /** The record, the threads, and what the run has accepted and observed so far. */
  datatype Runtime = Runtime(
    control: Snapshot,
    watchdogs: map<nat, Watchdog>,
    steered: seq<Command>,
    stopped: Option<Command>,
    flagRead: Option<bool>)

  const START := Runtime(NEW_CONTROL, map[], [], None, None)

  function AfterInterrupt(r: Runtime, id: string, reason: string): Runtime {
    var (control, outcome) := InterruptStep(r.control, id, reason);
    r.(control := control, stopped := if outcome == Accepted then Some((id, reason)) else r.stopped)
  }

  /** The next atomic step of a Watchdog thread. */
  function WatchdogStep(r: Runtime, thread: nat): Runtime {
    if thread !in r.watchdogs then r
    else
      match r.watchdogs[thread]
      case Signalled(signal) =>
        r.(watchdogs := r.watchdogs[thread := if r.control.detached then WillRecordReason(signal) else WillInterrupt(signal)])
      case WillInterrupt(signal) =>
        AfterInterrupt(r, WatchdogCommand(signal).0, WatchdogCommand(signal).1).(watchdogs := r.watchdogs - {thread})
      case WillRecordReason(signal) =>
        r.(control := r.control.(interruptReason := Some(WatchdogCommand(signal))),
           watchdogs := r.watchdogs[thread := WillSetFlag(signal)])
      case WillSetFlag(signal) =>
        r.(control := r.control.(interrupted := true), watchdogs := r.watchdogs - {thread})
  }

  function Exec(r: Runtime, action: Action): Runtime {
    match action
    case DoSteer(id, text) =>
      var (control, outcome) := SteerStep(r.control, id, text);
      r.(control := control, steered := if outcome == Accepted then r.steered + [(id, text)] else r.steered)
    case DoInterrupt(id, reason) => AfterInterrupt(r, id, reason)
    case DoAttach => r.(control := AttachStep(r.control).0)
    case DoDetach => r.(control := DetachStep(r.control))
    case DoSignal(thread, signal) =>
      if thread in r.watchdogs then r
      else r.(control := r.control.(watchdogSignal := Some(signal)), watchdogs := r.watchdogs[thread := Signalled(signal)])
    case DoWatchdog(thread) => WatchdogStep(r, thread)
    case DoReadFlag => if r.flagRead.Some? then r else r.(flagRead := Some(r.control.interrupted))
  }

  /** The state after an interleaving, taken one action at a time. */
  function After(actions: seq<Action>): Runtime {
    if actions == [] then START else Exec(After(actions[..|actions| - 1]), actions[|actions| - 1])
  }

  function Attaches(actions: seq<Action>): nat {
    if actions == [] then 0
    else Attaches(actions[..|actions| - 1]) + if actions[|actions| - 1] == DoAttach then 1 else 0
  }

  // ----- what every step keeps

  ghost function IdsOf(commands: seq<Command>): (ids: set<string>)
    ensures forall c :: c in commands ==> c.0 in ids
    ensures forall id :: id in ids ==> exists c :: c in commands && c.0 == id
  {
    set c | c in commands :: c.0
  }

  ghost function AcceptedIds(r: Runtime): set<string> {
    IdsOf(r.steered) + (if r.stopped.Some? then {r.stopped.value.0} else {})
  }

  ghost predicate DistinctIds(commands: seq<Command>) {
    forall i, j :: 0 <= i < j < |commands| ==> commands[i].0 != commands[j].0
  }

  /** Accepted clarifications in order, then the accepted interrupt if any. */
  ghost function AcceptedStream(r: Runtime): seq<ControlMessage> {
    Steers(r.steered) + Interrupts(r.stopped)
  }

  ghost predicate Bookkeeping(r: Runtime) {
    && r.control.clarifications == r.steered
    && r.control.delivered == AcceptedIds(r)
    && DistinctIds(r.steered)
    && (r.stopped.Some? ==> forall c :: c in r.steered ==> c.0 != r.stopped.value.0)
  }

  ghost predicate Channel(r: Runtime, attaches: nat) {
    && (attaches == 0 ==> !r.control.wasAttached)
    && (!r.control.wasAttached ==> !r.control.hasInput && !r.control.detached && (attaches == 0 ==> r.control.stream == []))
    && (r.control.wasAttached ==> r.control.stream == AcceptedStream(r))
    && (r.control.wasAttached && !r.control.detached ==> r.control.hasInput)
    && (r.control.detached ==> !r.control.hasInput)
  }

  ghost predicate Flags(r: Runtime) {
    && (r.stopped.Some? ==> r.control.interrupted)
    && (!r.control.detached ==> r.control.interruptReason == r.stopped && (r.control.interrupted <==> r.stopped.Some?))
    && (forall t :: t in r.watchdogs && (r.watchdogs[t].WillRecordReason? || r.watchdogs[t].WillSetFlag?) ==> r.control.detached)
  }

  ghost predicate Invariant(r: Runtime, attaches: nat) {
    Bookkeeping(r) && Channel(r, attaches) && Flags(r)
  }

  lemma SteersSnoc(commands: seq<Command>, c: Command)
    ensures Steers(commands + [c]) == Steers(commands) + [SteerMessage(c.0, c.1)]
  {
  }

  lemma IdsSnoc(commands: seq<Command>, c: Command)
    ensures IdsOf(commands + [c]) == IdsOf(commands) + {c.0}
  {
    var more := commands + [c];
    forall id | id in IdsOf(commands) ensures id in IdsOf(more) {
      var earlier :| earlier in commands && earlier.0 == id;
      assert earlier in more;
    }
    assert c in more;
  }

  lemma SteerKeepsBookkeeping(r: Runtime, id: string, text: string)
    requires Bookkeeping(r) && SteerStep(r.control, id, text).1 == Accepted
    ensures Bookkeeping(Exec(r, DoSteer(id, text)))
  {
    IdsSnoc(r.steered, (id, text));
  }

  lemma SteerKeeps(r: Runtime, id: string, text: string, attaches: nat)
    requires Invariant(r, attaches)
    ensures Invariant(Exec(r, DoSteer(id, text)), attaches)
  {
    if SteerStep(r.control, id, text).1 == Accepted {
      SteerKeepsBookkeeping(r, id, text);
      SteersSnoc(r.steered, (id, text));
    }
  }

  lemma InterruptKeeps(r: Runtime, id: string, reason: string, attaches: nat)
    requires Invariant(r, attaches)
    ensures Invariant(AfterInterrupt(r, id, reason), attaches)
  {
  }

  lemma AttachKeeps(r: Runtime)
    requires Invariant(r, 0)
    ensures Invariant(Exec(r, DoAttach), 1) && AttachStep(r.control).1
  {
  }

  lemma WatchdogKeeps(r: Runtime, thread: nat, attaches: nat)
    requires Invariant(r, attaches)
    ensures Invariant(WatchdogStep(r, thread), attaches)
  {
    if thread in r.watchdogs {
      match r.watchdogs[thread]
      case WillInterrupt(signal) => InterruptKeeps(r, WatchdogCommand(signal).0, WatchdogCommand(signal).1, attaches);
      case _ =>
    }
  }

  lemma {:induction false} EveryRunKeepsInvariant(actions: seq<Action>)
    requires Attaches(actions) <= 1
    ensures Invariant(After(actions), Attaches(actions))
  {
    if actions != [] {
      var before, last := actions[..|actions| - 1], actions[|actions| - 1];
      EveryRunKeepsInvariant(before);
      var r := After(before);
      match last
      case DoSteer(id, text) => SteerKeeps(r, id, text, Attaches(before));
      case DoInterrupt(id, reason) => InterruptKeeps(r, id, reason, Attaches(before));
      case DoAttach => AttachKeeps(r);
      case DoWatchdog(thread) => WatchdogKeeps(r, thread, Attaches(before));
      case _ =>
    }
  }

  // ----- what every run guarantees

  /** With at most one attach, what the adapter has been sent is exactly the
      accepted clarifications in order, each id once, then at most one interrupt
      and nothing after it; before an attach it has been sent nothing. */
  lemma StreamIsWhatWasAccepted(actions: seq<Action>)
    requires Attaches(actions) <= 1
    ensures var r := After(actions);
      && r.control.stream == (if Attaches(actions) == 1 then AcceptedStream(r) else [])
      && DistinctIds(r.steered)
      && (r.stopped.Some? ==> forall c :: c in r.steered ==> c.0 != r.stopped.value.0)
  {
    EveryRunKeepsInvariant(actions);
    AttachLeavesItsMark(actions);
  }

  lemma {:induction false} AttachLeavesItsMark(actions: seq<Action>)
    requires Attaches(actions) <= 1
    ensures After(actions).control.wasAttached <==> Attaches(actions) == 1
  {
    if actions != [] {
      var before, last := actions[..|actions| - 1], actions[|actions| - 1];
      AttachLeavesItsMark(before);
      EveryRunKeepsInvariant(before);
      if last == DoAttach {
        AttachKeeps(After(before));
      } else if last.DoWatchdog? {
        assert WatchdogStep(After(before), last.thread).control.wasAttached == After(before).control.wasAttached;
      }
    }
  }

  /** Attaching always finds a reason to replay, so it never fails. */
  lemma AttachAlwaysSucceeds(actions: seq<Action>)
    requires Attaches(actions) == 0
    ensures AttachStep(After(actions).control).1
  {
    EveryRunKeepsInvariant(actions);
    AttachKeeps(After(actions));
  }

  /** A command is answered as a repetition exactly when its id was accepted before,
      as a steer or as an interrupt, and it then has no effect. */
  lemma RepeatedCommandIsNoOp(actions: seq<Action>, id: string, text: string)
    requires Attaches(actions) <= 1
    ensures SteerStep(After(actions).control, id, text).1 == Repeated <==> id in AcceptedIds(After(actions))
    ensures InterruptStep(After(actions).control, id, text).1 == Repeated <==> id in AcceptedIds(After(actions))
    ensures id in AcceptedIds(After(actions)) ==>
      Exec(After(actions), DoSteer(id, text)) == After(actions) == Exec(After(actions), DoInterrupt(id, text))
  {
    EveryRunKeepsInvariant(actions);
  }

  lemma StepKeepsFlag(r: Runtime, action: Action)
    requires r.control.interrupted
    ensures Exec(r, action).control.interrupted
  {
  }

  lemma {:induction false} FlagNeverClears(actions: seq<Action>, k: nat)
    requires k <= |actions| && After(actions[..k]).control.interrupted
    ensures After(actions).control.interrupted
    decreases |actions|
  {
    if k == |actions| {
      assert actions[..k] == actions;
    } else {
      var before := actions[..|actions| - 1];
      assert before[..k] == actions[..k];
      FlagNeverClears(before, k);
      StepKeepsFlag(After(before), actions[|actions| - 1]);
    }
  }

  /** An interrupt accepted before `execute` reads the flag always discards the Result. */
  lemma {:induction false} AcceptedInterruptDiscardsResult(actions: seq<Action>, k: nat)
    requires Attaches(actions) <= 1 && k <= |actions|
    requires After(actions[..k]).stopped.Some? && After(actions[..k]).flagRead.None?
    ensures After(actions).flagRead != Some(false)
    decreases |actions|
  {
    if k == |actions| {
      assert actions[..k] == actions;
    } else {
      var before := actions[..|actions| - 1];
      assert before[..k] == actions[..k];
      AcceptedInterruptDiscardsResult(before, k);
      EveryRunKeepsInvariant(before[..k]) by { AttachesOfPrefix(actions, k); }
      FlagNeverClears(before, k);
    }
  }

  lemma {:induction false} AttachesOfPrefix(actions: seq<Action>, k: nat)
    requires k <= |actions|
    ensures Attaches(actions[..k]) <= Attaches(actions)
    decreases |actions|
  {
    if k == |actions| {
      assert actions[..k] == actions;
    } else {
      assert actions[..|actions| - 1][..k] == actions[..k];
      AttachesOfPrefix(actions[..|actions| - 1], k);
    }
  }

  // ----- the Watchdog and detach

  /** The thread's next step is its last. */
  ghost predicate IsLastStep(watchdog: Watchdog) {
    watchdog.WillInterrupt? || watchdog.WillSetFlag?
  }

  /** In every run, a Watchdog thread ends with the Attempt interrupted exactly when it
      took the detached branch, or something else interrupted the Attempt, or the
      adapter is still attached and no clarification took the thread's command id. */
  lemma WatchdogContainsExactly(actions: seq<Action>, thread: nat)
    requires Attaches(actions) <= 1
    requires thread in After(actions).watchdogs && IsLastStep(After(actions).watchdogs[thread])
    ensures var r := After(actions);
      var watchdog := r.watchdogs[thread];
      WatchdogStep(r, thread).control.interrupted <==>
        || watchdog.WillSetFlag? || r.control.interrupted
        || (!r.control.detached && WatchdogCommand(watchdog.signal).0 !in IdsOf(r.steered))
  {
    EveryRunKeepsInvariant(actions);
  }

  lemma AfterSnoc(actions: seq<Action>, last: Action)
    ensures After(actions + [last]) == Exec(After(actions), last)
  {
    var more := actions + [last];
    assert more[|more| - 1] == last && more[..|more| - 1] == actions;
  }

  /** A detach between the Watchdog's check and its interrupt makes it miss: the
      signal is recorded, yet the Result is kept. */
  lemma WatchdogCanMissADetach(signal: string)
    ensures var r := After([] + [DoAttach] + [DoSignal(0, signal)] + [DoWatchdog(0)] + [DoDetach] + [DoWatchdog(0)] + [DoReadFlag]);
      r.flagRead == Some(false) && r.control.watchdogSignal == Some(signal) && 0 !in r.watchdogs
  {
    var a1 := [] + [DoAttach];
    var a2 := a1 + [DoSignal(0, signal)];
    var a3 := a2 + [DoWatchdog(0)];
    var a4 := a3 + [DoDetach];
    var a5 := a4 + [DoWatchdog(0)];
    AfterSnoc([], DoAttach);
    AfterSnoc(a1, DoSignal(0, signal));
    AfterSnoc(a2, DoWatchdog(0));
    AfterSnoc(a3, DoDetach);
    AfterSnoc(a4, DoWatchdog(0));
    AfterSnoc(a5, DoReadFlag);
    assert After(a1).control.wasAttached && !After(a1).control.interrupted;
    assert After(a3).watchdogs[0] == WillInterrupt(signal);
    assert After(a4).control.detached && After(a4).watchdogs[0] == WillInterrupt(signal);
  }

  function ThreadSteps(r: Runtime, thread: nat): Runtime {
    Exec(Exec(Exec(r, DoWatchdog(thread)), DoWatchdog(thread)), DoWatchdog(thread))
  }

  lemma ThreadContains(r: Runtime, thread: nat, signal: string)
    requires Bookkeeping(r) && Flags(r) && thread in r.watchdogs && r.watchdogs[thread] == Signalled(signal)
    ensures var r' := ThreadSteps(r, thread);
      && r'.control.watchdogSignal == r.control.watchdogSignal && thread !in r'.watchdogs
      && (r'.control.interrupted <==>
            r.control.interrupted || r.control.detached || WatchdogCommand(signal).0 !in IdsOf(r.steered))
  {
    if r.control.detached {
      assert Exec(r, DoWatchdog(thread)).watchdogs[thread] == WillRecordReason(signal);
    } else {
      assert Exec(r, DoWatchdog(thread)).watchdogs[thread] == WillInterrupt(signal);
    }
  }

  /** A Watchdog that is not overtaken: its signal is recorded, and the Attempt is left
      interrupted unless a clarification took the thread's command id. */
  lemma WatchdogAloneContains(actions: seq<Action>, thread: nat, signal: string)
    requires Attaches(actions) <= 1 && thread !in After(actions).watchdogs
    ensures var before := After(actions);
      var r := After(actions + [DoSignal(thread, signal)] + [DoWatchdog(thread)] + [DoWatchdog(thread)] + [DoWatchdog(thread)]);
      && r.control.watchdogSignal == Some(signal) && thread !in r.watchdogs
      && (r.control.interrupted <==>
            || before.control.interrupted || before.control.detached
            || WatchdogCommand(signal).0 !in IdsOf(before.steered))
  {
    var a1 := actions + [DoSignal(thread, signal)];
    var a2 := a1 + [DoWatchdog(thread)];
    var a3 := a2 + [DoWatchdog(thread)];
    EveryRunKeepsInvariant(actions);
    AfterSnoc(actions, DoSignal(thread, signal));
    AfterSnoc(a1, DoWatchdog(thread));
    AfterSnoc(a2, DoWatchdog(thread));
    AfterSnoc(a3, DoWatchdog(thread));
    var r := After(a1);
    assert r.steered == After(actions).steered && r.watchdogs[thread] == Signalled(signal);
    ThreadContains(r, thread, signal);
  }

  // ----- what has to be accepted

  /** Some detach followed an attach: the terminal boundary. */
  ghost predicate HasEnded(actions: seq<Action>) {
    exists i, j :: 0 <= i < j < |actions| && actions[i] == DoAttach && actions[j] == DoDetach
  }

  lemma {:induction false} AttachIsSomewhere(actions: seq<Action>)
    ensures Attaches(actions) > 0 <==> exists i :: 0 <= i < |actions| && actions[i] == DoAttach
  {
    if actions != [] {
      var before := actions[..|actions| - 1];
      AttachIsSomewhere(before);
      assert forall i :: 0 <= i < |before| ==> before[i] == actions[i];
    }
  }

  lemma EndedSnoc(actions: seq<Action>)
    requires actions != []
    ensures var before, last := actions[..|actions| - 1], actions[|actions| - 1];
      HasEnded(actions) <==> HasEnded(before) || (last == DoDetach && Attaches(before) > 0)
  {
    var before, n := actions[..|actions| - 1], |actions| - 1;
    AttachIsSomewhere(before);
    assert forall i :: 0 <= i < n ==> before[i] == actions[i];
    if actions[n] == DoDetach && Attaches(before) > 0 {
      var i :| 0 <= i < |before| && before[i] == DoAttach;
      assert actions[i] == DoAttach && actions[n] == DoDetach;
    }
    if HasEnded(actions) {
      var i, j :| 0 <= i < j < |actions| && actions[i] == DoAttach && actions[j] == DoDetach;
      assert before[i] == DoAttach;
      if j < n {
        assert before[j] == DoDetach;
      }
    }
  }

  lemma {:induction false} DetachedExactlyWhenEnded(actions: seq<Action>)
    requires Attaches(actions) <= 1
    ensures After(actions).control.detached <==> HasEnded(actions)
  {
    if actions != [] {
      var before, last := actions[..|actions| - 1], actions[|actions| - 1];
      DetachedExactlyWhenEnded(before);
      AttachLeavesItsMark(before);
      EndedSnoc(actions);
      if last.DoWatchdog? {
        assert WatchdogStep(After(before), last.thread).control.detached == After(before).control.detached;
      }
    }
  }

  /** A new command, before any interrupt and before the terminal boundary. */
  ghost predicate MustBeAccepted(actions: seq<Action>, id: string) {
    id !in AcceptedIds(After(actions)) && After(actions).stopped.None? && !HasEnded(actions)
  }

  lemma AcceptanceIsExact(actions: seq<Action>, id: string, text: string)
    requires Attaches(actions) <= 1
    ensures SteerStep(After(actions).control, id, text).1 == Accepted <==> MustBeAccepted(actions, id)
    ensures InterruptStep(After(actions).control, id, text).1 == Accepted <==> MustBeAccepted(actions, id)
    ensures MustBeAccepted(actions, id) ==> (After(actions).control.hasInput <==> Attaches(actions) == 1)
  {
    EveryRunKeepsInvariant(actions);
    DetachedExactlyWhenEnded(actions);
    AttachLeavesItsMark(actions);
  }

  /** In every run a clarification is accepted exactly when its id is new, nothing has
      interrupted the Attempt and no detach followed an attach; the accepted list and,
      if attached, the stream then grow by exactly it, and otherwise nothing changes. */
  lemma SteerGrowsExactly(actions: seq<Action>, id: string, text: string)
    requires Attaches(actions) <= 1
    ensures var before, after := After(actions), After(actions + [DoSteer(id, text)]);
      if MustBeAccepted(actions, id) then
        && after.steered == before.steered + [(id, text)] && after.stopped == before.stopped
        && after.control.stream
           == before.control.stream + if Attaches(actions) == 1 then [SteerMessage(id, text)] else []
      else after == before
  {
    AfterSnoc(actions, DoSteer(id, text));
    AcceptanceIsExact(actions, id, text);
    assert After(actions).control.stream + [] == After(actions).control.stream;
  }

  /** And the same for an interrupt. */
  lemma InterruptStopsExactly(actions: seq<Action>, id: string, reason: string)
    requires Attaches(actions) <= 1
    ensures var before, after := After(actions), After(actions + [DoInterrupt(id, reason)]);
      if MustBeAccepted(actions, id) then
        && after.stopped == Some((id, reason)) && after.steered == before.steered && after.control.interrupted
        && after.control.stream
           == before.control.stream + if Attaches(actions) == 1 then [InterruptMessage(id, reason)] else []
      else after == before
  {
    AfterSnoc(actions, DoInterrupt(id, reason));
    AcceptanceIsExact(actions, id, reason);
    assert After(actions).control.stream + [] == After(actions).control.stream;
  }
}
