/** When an Entry Session has more than one Commission under way. The session refuses
    a new task while the tracked Commission is not terminal; what it does not track
    is a start whose acceptance was applied but whose answer was lost. */
module EntryDiscipline {
  import opened Prelude
  import opened EntrySession

  ghost predicate IsUnderway(d: Daemon, id: nat) {
    id < |d.commissions| && d.commissions[id].status == Underway
  }

  ghost predicate AtMostOneUnderway(d: Daemon) {
    forall a: nat, b: nat :: IsUnderway(d, a) && IsUnderway(d, b) ==> a == b
  }

  // ----- what one start puts under way

  /** The operation under whose keys the next attempt at an uncached proposal runs. */
  ghost function TargetOperation(s: Session): nat {
    if s.lastStarted.Some? then s.nextOperation else s.operation
  }

  /** The Commission that the proposal's key answers with, or will once it is used. */
  ghost function Target(d: Daemon, operation: nat, p: Proposal): nat
    requires ProposalsAreStored(d)
  {
    var key := ProposeKey(operation, p);
    if key in d.stored then d.stored[key].response.commission else |d.commissions|
  }

  /** The target does not exist yet, or still waits to be accepted. */
  ghost predicate AwaitsAcceptance(d: Daemon, operation: nat, p: Proposal)
    requires ProposalsAreStored(d)
  {
    var target := Target(d, operation, p);
    target < |d.commissions| ==> d.commissions[target].status == Proposed
  }

  /** Nothing is tracked, or what is tracked was inspected and is complete or cancelled. */
  predicate MayStart(s: Session, d: Daemon, inspect: Fault) {
    s.current.Some? ==>
      && inspect == NoFault && s.current.value < |d.commissions|
      && d.commissions[s.current.value].status in {VerifiedComplete, Cancelled}
  }

  lemma ReleaseIsExact(s: Session, d: Daemon, inspect: Fault)
    ensures ReleasePrevious(s, d, inspect).Some? <==> MayStart(s, d, inspect)
    ensures MayStart(s, d, inspect) ==> ReleasePrevious(s, d, inspect) == Some(s.(current := None))
  {
  }

  /** Both calls reach the daemon, and the first one's answer comes back. */
  predicate BothApplied(f: Faults) {
    f.first == NoFault && f.second != LostBefore
  }

  /** The attempt is made, its acceptance is applied, and its target was not accepted before. */
  ghost predicate PutsUnderway(s: Session, d: Daemon, p: Proposal, f: Faults)
    requires ProposalsAreStored(d)
  {
    && !IsCached(s, p) && p.isAllowed && MayStart(s, d, f.inspect)
    && BothApplied(f) && AwaitsAcceptance(d, TargetOperation(s), p)
  }

  /** `d'` has what `d` has under way, and the target if `added`. */
  ghost predicate AddsUnderway(d: Daemon, d': Daemon, added: bool, target: nat) {
    && (added ==> !IsUnderway(d, target))
    && forall id: nat :: IsUnderway(d', id) <==> IsUnderway(d, id) || (added && id == target)
  }

  lemma CreatePutsNothingUnderway(d: Daemon, o: nat, p: Proposal)
    requires DaemonInvariant(d)
    ensures var (d', answer) := Serve(d, ProposeKey(o, p), CreateProposal(p));
      && AddsUnderway(d, d', false, 0)
      && DaemonInvariant(d') && answer == Replied(Created(Target(d, o, p), 1))
      && Target(d, o, p) < |d'.commissions| && d'.commissions[Target(d, o, p)].origin == o
      && (d'.commissions[Target(d, o, p)].status == Proposed <==> AwaitsAcceptance(d, o, p))
  {
    CreateKeeps(d, o, p);
  }

  lemma AcceptPutsUnderway(d: Daemon, o: nat, id: nat)
    requires DaemonInvariant(d) && id < |d.commissions| && d.commissions[id].origin == o
    ensures var (d', answer) := Serve(d, AcceptKey(o, id), AcceptCommission(id, 1));
      AddsUnderway(d, d', d.commissions[id].status == Proposed, id)
  {
    AcceptKeeps(d, o, id);
    assert CommissionIsSound(d, id);
    var (d', _) := Serve(d, AcceptKey(o, id), AcceptCommission(id, 1));
    forall other: nat | other != id ensures IsUnderway(d', other) <==> IsUnderway(d, other) {
      assert other < |d.commissions| ==> d'.commissions[other] == d.commissions[other];
    }
  }

  lemma CreateAndAcceptPutsUnderway(s: Session, d: Daemon, p: Proposal, f: Faults)
    requires DaemonInvariant(d)
    ensures AddsUnderway(d, CreateAndAccept(s, d, p, f).1, BothApplied(f) && AwaitsAcceptance(d, s.operation, p), Target(d, s.operation, p))
  {
    CreatePutsNothingUnderway(d, s.operation, p);
    if f.first == NoFault {
      var d1 := Serve(d, ProposeKey(s.operation, p), CreateProposal(p)).0;
      AcceptPutsUnderway(d1, s.operation, Target(d, s.operation, p));
    }
  }

  /** A start puts its target under way exactly when its acceptance is applied for the
      first time, and changes nothing else about what is under way. */
  lemma StartPutsUnderwayExactly(s: Session, d: Daemon, p: Proposal, f: Faults)
    requires Invariant(s, d)
    ensures AddsUnderway(d, StartCommission(s, d, p, f).1, PutsUnderway(s, d, p, f), Target(d, TargetOperation(s), p))
  {
    ReleaseIsExact(s, d, f.inspect);
    if !IsCached(s, p) && p.isAllowed && ReleasePrevious(s, d, f.inspect).Some? {
      CreateAndAcceptPutsUnderway(Renew(ReleasePrevious(s, d, f.inspect).value), d, p, f);
    }
  }

  /** The start puts a Commission under way beside one that already is. */
  ghost predicate Collides(s: Session, d: Daemon, p: Proposal, f: Faults)
    requires ProposalsAreStored(d)
  {
    PutsUnderway(s, d, p, f) && exists id :: IsUnderway(d, id)
  }

  /** A start leaves two Commissions under way exactly when it collides. */
  lemma StartCollidesExactly(s: Session, d: Daemon, p: Proposal, f: Faults)
    requires Invariant(s, d) && AtMostOneUnderway(d)
    ensures AtMostOneUnderway(StartCommission(s, d, p, f).1) <==> !Collides(s, d, p, f)
  {
    StartPutsUnderwayExactly(s, d, p, f);
    if Collides(s, d, p, f) {
      var d', target := StartCommission(s, d, p, f).1, Target(d, TargetOperation(s), p);
      var id :| IsUnderway(d, id);
      assert IsUnderway(d', id) && IsUnderway(d', target);
    }
  }

  // ----- when a start and a cancel succeed

  /** A start succeeds exactly when it is a repetition of the last one, or an allowed
      proposal may start and both calls are answered. */
  lemma StartSucceedsExactly(s: Session, d: Daemon, p: Proposal, f: Faults)
    requires Invariant(s, d)
    ensures StartCommission(s, d, p, f).2.Some? <==>
      IsCached(s, p) || (p.isAllowed && MayStart(s, d, f.inspect) && f.first == NoFault && f.second == NoFault)
    ensures IsCached(s, p) ==> StartCommission(s, d, p, f) == (s, d, Some(s.lastStarted.value.1))
  {
    ReleaseIsExact(s, d, f.inspect);
    if !IsCached(s, p) && p.isAllowed && MayStart(s, d, f.inspect) {
      ReleaseAndRenewKeep(s, d, f.inspect);
      var s1 := Renew(ReleasePrevious(s, d, f.inspect).value);
      CreateKeeps(d, s1.operation, p);
      if f.first == NoFault {
        var d1 := Serve(d, ProposeKey(s1.operation, p), CreateProposal(p)).0;
        AcceptKeeps(d1, s1.operation, Target(d, s1.operation, p)) by {
          CreatePutsNothingUnderway(d, s1.operation, p);
        }
      }
    }
  }

  /** The tracked Commission is inspected and is in this state. */
  predicate Tracks(s: Session, d: Daemon, f: Faults, status: Status) {
    && s.current.Some? && f.inspect == NoFault
    && s.current.value < |d.commissions| && d.commissions[s.current.value].status == status
  }

  /** The daemon after its Commission `id` is cancelled, and nothing else is. */
  ghost predicate CancelsOnly(d: Daemon, d': Daemon, id: nat)
    requires id < |d.commissions|
  {
    && |d'.commissions| == |d.commissions|
    && d'.commissions[id].status == Cancelled
    && d'.commissions[id].proposal == d.commissions[id].proposal && d'.commissions[id].origin == d.commissions[id].origin
    && forall other: nat :: other < |d.commissions| && other != id ==> d'.commissions[other] == d.commissions[other]
  }

  /** A cancel takes effect exactly when the tracked Commission is under way and the call
      reaches the daemon. It succeeds exactly when that call is answered, or the
      Commission was cancelled before; only then is the session cleared. */
  lemma CancelIsExact(s: Session, d: Daemon, f: Faults)
    requires Invariant(s, d)
    ensures var (s', d', ok) := CancelCurrent(s, d, f);
      && (if Tracks(s, d, f, Underway) && f.first != LostBefore then CancelsOnly(d, d', s.current.value)
          else d' == d)
      && (ok <==> Tracks(s, d, f, Cancelled) || (Tracks(s, d, f, Underway) && f.first == NoFault))
      && (if ok then s'.current == None && s'.lastStarted == None && s'.operation == s.nextOperation else s' == s)
  {
    if s.current.Some? && s.current.value < |d.commissions| {
      assert d.commissions[s.current.value].status != Cancelled ==> CancelKey(s.operation, s.current.value) !in d.stored;
    }
  }

  // ----- whole sessions

  ghost predicate ActionCollides(s: Session, d: Daemon, action: Action)
    requires ProposalsAreStored(d)
  {
    action.DoStart? && Collides(s, d, action.proposal, action.faults)
  }

  lemma CancelPutsNothingUnderway(s: Session, d: Daemon, f: Faults)
    requires Invariant(s, d)
    ensures forall id: nat :: IsUnderway(CancelCurrent(s, d, f).1, id) ==> IsUnderway(d, id)
  {
  }

  lemma ActionCollidesExactly(s: Session, d: Daemon, action: Action)
    requires Invariant(s, d) && AtMostOneUnderway(d)
    ensures AtMostOneUnderway(Exec(s, d, action).1) <==> !ActionCollides(s, d, action)
  {
    match action
    case DoStart(p, f) => StartCollidesExactly(s, d, p, f);
    case DoCancel(f) =>
      CancelPutsNothingUnderway(s, d, f);
      assert Exec(s, d, action).1 == CancelCurrent(s, d, f).1;
    case DoAdvance(id, completes) =>
      assert forall other: nat :: IsUnderway(Advance(d, id, completes), other) ==> IsUnderway(d, other);
  }

  /** After every action so far, at most one Commission was under way. */
  ghost predicate NeverTwoUnderway(actions: seq<Action>) {
    AtMostOneUnderway(After(actions).1) && (actions != [] ==> NeverTwoUnderway(actions[..|actions| - 1]))
  }

  /** No start so far collided in the state it was made in. */
  ghost predicate NoStartCollides(actions: seq<Action>) {
    actions == [] || (
      var before, last := actions[..|actions| - 1], actions[|actions| - 1];
      var (s, d) := After(before);
      NoStartCollides(before) && ProposalsAreStored(d) && !ActionCollides(s, d, last))
  }

  /** A session never has two Commissions under way exactly when none of its starts
      collides: what to avoid, and nothing more, is a first-time acceptance while an
      untracked Commission is under way. */
  lemma {:induction false} NeverTwoUnderwayExactly(actions: seq<Action>)
    ensures NeverTwoUnderway(actions) <==> NoStartCollides(actions)
  {
    if actions != [] {
      var before, last := actions[..|actions| - 1], actions[|actions| - 1];
      NeverTwoUnderwayExactly(before);
      EverySessionIsConsistent(before);
      var (s, d) := After(before);
      if NeverTwoUnderway(before) {
        assert AtMostOneUnderway(d);
        ActionCollidesExactly(s, d, last);
      }
    }
  }

  // ----- a discipline that avoids collisions

  /** The proposal whose start has been attempted and has not succeeded yet. */
  ghost function PendingAfter(s: Session, s': Session, pending: Option<Proposal>, action: Action): Option<Proposal> {
    if s'.lastStarted.Some? then None
    else if action.DoStart? && action.proposal.isAllowed then Some(action.proposal)
    else if action.DoCancel? && s.lastStarted.Some? then None
    else pending
  }

  /** No other proposal is started while one is pending. */
  ghost predicate FinishesWhatItStarts(pending: Option<Proposal>, action: Action) {
    pending.Some? && action.DoStart? ==> action.proposal == pending.value
  }

  /** Every Commission under way is the tracked one, or that of the pending start. */
  ghost predicate OnlyOneUnderway(s: Session, d: Daemon, pending: Option<Proposal>) {
    && (s.current.Some? <==> s.lastStarted.Some?)
    && (s.lastStarted.Some? ==> pending.None?)
    && forall id: nat :: id < |d.commissions| && d.commissions[id].status == Underway ==> IsAccountedFor(s, d, pending, id)
  }

  ghost predicate IsAccountedFor(s: Session, d: Daemon, pending: Option<Proposal>, id: nat)
    requires id < |d.commissions|
  {
    if s.lastStarted.Some? then s.lastStarted.value.1 == id
    else d.commissions[id].origin == s.operation && Some(d.commissions[id].proposal) == pending
  }

  /** What is under way when the session may start is the pending start's own target. */
  lemma UnderwayIsTheTarget(s: Session, d: Daemon, p: Proposal, f: Faults, pending: Option<Proposal>, id: nat)
    requires Invariant(s, d) && OnlyOneUnderway(s, d, pending) && FinishesWhatItStarts(pending, DoStart(p, f))
    requires ReleasePrevious(s, d, f.inspect).Some? && IsUnderway(d, id)
    ensures !AwaitsAcceptance(d, TargetOperation(s), p)
  {
    assert IsAccountedFor(s, d, pending, id);
    assert CommissionIsSound(d, id);
  }

  /** A start that finishes what was started does not collide. */
  lemma DisciplinedStartNeverCollides(s: Session, d: Daemon, p: Proposal, f: Faults, pending: Option<Proposal>)
    requires Invariant(s, d) && OnlyOneUnderway(s, d, pending) && FinishesWhatItStarts(pending, DoStart(p, f))
    ensures !Collides(s, d, p, f)
  {
    if id :| IsUnderway(d, id) {
      if ReleasePrevious(s, d, f.inspect).Some? {
        UnderwayIsTheTarget(s, d, p, f, pending, id);
      }
    }
  }

  lemma CreateAndAcceptKeepsOne(s: Session, d: Daemon, p: Proposal, f: Faults)
    requires Invariant(s, d) && s.current.None? && s.lastStarted.None?
    requires forall id: nat :: id < |d.commissions| && d.commissions[id].status == Underway ==>
      IsAccountedFor(s, d, Some(p), id)
    ensures var (s', d', result) := CreateAndAccept(s, d, p, f);
      OnlyOneUnderway(s', d', if result.Some? then None else Some(p))
  {
    CreateKeeps(d, s.operation, p);
    var (d1, answer) := Call(d, ProposeKey(s.operation, p), CreateProposal(p), f.first);
    assert forall id: nat :: id < |d1.commissions| && d1.commissions[id].status == Underway ==> IsAccountedFor(s, d1, Some(p), id);
    if answer.Replied? {
      AcceptCreatedKeepsOne(s, d1, p, answer.response, f.second);
    }
  }

  lemma AcceptCreatedKeepsOne(s: Session, d: Daemon, p: Proposal, created: Response, fault: Fault)
    requires DaemonInvariant(d) && s.current.None? && s.lastStarted.None?
    requires ProposeKey(s.operation, p) in d.stored && created == d.stored[ProposeKey(s.operation, p)].response
    requires created.Created?
    requires forall id: nat :: id < |d.commissions| && d.commissions[id].status == Underway ==>
      IsAccountedFor(s, d, Some(p), id)
    ensures var (s', d', result) := AcceptCreated(s, d, p, created, fault);
      OnlyOneUnderway(s', d', if result.Some? then None else Some(p))
  {
    AcceptKeeps(d, s.operation, created.commission);
    var (s', d', result) := AcceptCreated(s, d, p, created, fault);
    forall other: nat | other < |d'.commissions| && d'.commissions[other].status == Underway
      ensures IsAccountedFor(s', d', if result.Some? then None else Some(p), other)
    {
      assert CommissionIsSound(d, other);
      assert d.commissions[other].status == Underway ==> IsAccountedFor(s, d, Some(p), other);
    }
  }

  lemma StartKeepsOne(s: Session, d: Daemon, p: Proposal, f: Faults, pending: Option<Proposal>)
    requires Invariant(s, d) && OnlyOneUnderway(s, d, pending) && FinishesWhatItStarts(pending, DoStart(p, f))
    ensures var (s', d', _) := StartCommission(s, d, p, f);
      OnlyOneUnderway(s', d', PendingAfter(s, s', pending, DoStart(p, f)))
  {
    if !IsCached(s, p) && p.isAllowed && ReleasePrevious(s, d, f.inspect).Some? {
      var s1 := Renew(ReleasePrevious(s, d, f.inspect).value);
      ReleaseAndRenewKeep(s, d, f.inspect);
      forall id: nat | id < |d.commissions| && d.commissions[id].status == Underway ensures IsAccountedFor(s1, d, Some(p), id) {
        assert IsAccountedFor(s, d, pending, id);
      }
      CreateAndAcceptKeepsOne(s1, d, p, f);
      StartKeeps(s, d, p, f);
    }
  }

  lemma CancelKeepsOne(s: Session, d: Daemon, f: Faults, pending: Option<Proposal>)
    requires Invariant(s, d) && OnlyOneUnderway(s, d, pending)
    ensures var (s', d', _) := CancelCurrent(s, d, f);
      OnlyOneUnderway(s', d', PendingAfter(s, s', pending, DoCancel(f)))
  {
    var (s', d', _) := CancelCurrent(s, d, f);
    if s.current.Some? && f.inspect == NoFault && s.current.value < |d.commissions| {
      if d.commissions[s.current.value].status != Cancelled {
        CancelKeeps(d, s.operation, s.current.value);
      }
      forall id: nat | id < |d'.commissions| && d'.commissions[id].status == Underway
        ensures IsAccountedFor(s', d', PendingAfter(s, s', pending, DoCancel(f)), id)
      {
        assert IsAccountedFor(s, d, pending, id);
      }
    }
  }

  lemma AdvanceKeepsOne(s: Session, d: Daemon, id: nat, completes: bool, pending: Option<Proposal>)
    requires Invariant(s, d) && OnlyOneUnderway(s, d, pending)
    ensures OnlyOneUnderway(s, Advance(d, id, completes), pending)
  {
    var d' := Advance(d, id, completes);
    forall other: nat | other < |d'.commissions| && d'.commissions[other].status == Underway
      ensures IsAccountedFor(s, d', pending, other)
    {
      assert IsAccountedFor(s, d, pending, other);
    }
  }

  ghost function Pending(actions: seq<Action>): Option<Proposal> {
    if actions == [] then None
    else
      var before, last := actions[..|actions| - 1], actions[|actions| - 1];
      PendingAfter(After(before).0, After(actions).0, Pending(before), last)
  }

  ghost predicate IsDisciplined(actions: seq<Action>) {
    actions == [] || (
      var before, last := actions[..|actions| - 1], actions[|actions| - 1];
      IsDisciplined(before) && FinishesWhatItStarts(Pending(before), last))
  }

  lemma {:induction false} DisciplineAccountsForUnderway(actions: seq<Action>)
    requires IsDisciplined(actions)
    ensures var (s, d) := After(actions); Invariant(s, d) && OnlyOneUnderway(s, d, Pending(actions))
  {
    EverySessionIsConsistent(actions);
    if actions != [] {
      var before, last := actions[..|actions| - 1], actions[|actions| - 1];
      DisciplineAccountsForUnderway(before);
      var (s, d) := After(before);
      match last
      case DoStart(p, f) => StartKeepsOne(s, d, p, f, Pending(before));
      case DoCancel(f) => CancelKeepsOne(s, d, f, Pending(before));
      case DoAdvance(id, completes) => AdvanceKeepsOne(s, d, id, completes, Pending(before));
    }
  }

  lemma {:induction false} DisciplinedStartsNeverCollide(actions: seq<Action>)
    requires IsDisciplined(actions)
    ensures NoStartCollides(actions)
  {
    if actions != [] {
      var before, last := actions[..|actions| - 1], actions[|actions| - 1];
      DisciplinedStartsNeverCollide(before);
      DisciplineAccountsForUnderway(before);
      if last.DoStart? {
        DisciplinedStartNeverCollides(After(before).0, After(before).1, last.proposal, last.faults, Pending(before));
      }
    }
  }

  /** In every session that retries a failed start before it starts anything else,
      at most one Commission is ever under way. */
  lemma DisciplinedSessionHasOneUnderway(actions: seq<Action>)
    requires IsDisciplined(actions)
    ensures NeverTwoUnderway(actions)
  {
    DisciplinedStartsNeverCollide(actions);
    NeverTwoUnderwayExactly(actions);
  }

  /** Without that discipline there can be two: the first start is accepted but its
      answer is lost, and the session then starts another task. */
  lemma {:induction false} AbandonedStartLeavesTwoUnderway(p: Proposal, q: Proposal)
    requires p.isAllowed && q.isAllowed && p != q
    ensures var lost, fine := Faults(NoFault, NoFault, LostAfter), Faults(NoFault, NoFault, NoFault);
      var (s1, d1, r1) := StartCommission(NEW_SESSION, NEW_DAEMON, p, lost);
      var (s2, d2, r2) := StartCommission(s1, d1, q, fine);
      && r1 == None && r2 == Some(1) && |d2.commissions| == 2
      && d2.commissions[0].status == Underway && d2.commissions[1].status == Underway
  {
    var lost := Faults(NoFault, NoFault, LostAfter);
    var (s1, d1, r1) := StartCommission(NEW_SESSION, NEW_DAEMON, p, lost);
    assert s1 == NEW_SESSION && |d1.commissions| == 1 && d1.commissions[0].status == Underway;
    assert d1.stored.Keys == {ProposeKey(0, p), AcceptKey(0, 0)};
    var (d2, created) := Serve(d1, ProposeKey(0, q), CreateProposal(q));
    assert created == Replied(Created(1, 1)) && d2.commissions[1].status == Proposed;
    assert AcceptKey(0, 1) !in d2.stored;
  }
}
