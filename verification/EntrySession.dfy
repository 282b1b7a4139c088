/** Entry Sessions: a client that retries over unreliable calls, and a daemon that
    replays stored responses per idempotency key. */
module EntrySession {
  import opened Prelude

  /** A proposal is known by its digest; `isAllowed` is the native entry check. */
  datatype Proposal = Proposal(content: string, isAllowed: bool)

  // ----- the daemon, as far as the client relies on it

  datatype Status = Proposed | Underway | VerifiedComplete | Cancelled

  /** `origin` is the start operation whose key created it. */
  datatype Commission = Commission(proposal: Proposal, origin: nat, status: Status, revision: int)

  datatype Key =
    | ProposeKey(operation: nat, digest: Proposal)
    | AcceptKey(operation: nat, commission: nat)
    | CancelKey(operation: nat, commission: nat)

  datatype Request =
    | CreateProposal(proposal: Proposal)
    | AcceptCommission(commission: nat, expectedRevision: int)
    | CancelCommission(commission: nat, expectedRevision: int)

  datatype Response = Created(commission: nat, revision: int) | Acknowledged(commission: nat)

  datatype Stored = Stored(request: Request, response: Response)

  datatype Daemon = Daemon(commissions: seq<Commission>, stored: map<Key, Stored>)

  datatype Answer = Replied(response: Response) | Refused | Conflict | Lost

  function Transition(d: Daemon, id: nat, expectedRevision: int, from: Status, to: Status): Option<Daemon> {
    if id < |d.commissions| && d.commissions[id].revision == expectedRevision && d.commissions[id].status == from
    then
      var c := d.commissions[id];
      Some(d.(commissions := d.commissions[id := c.(status := to, revision := c.revision + 1)]))
    else None
  }

  /** A request that no stored response answers. */
  function Perform(d: Daemon, key: Key, request: Request): (Daemon, Answer) {
    match request
    case CreateProposal(proposal) =>
      var response := Created(|d.commissions|, 1);
      (Daemon(d.commissions + [Commission(proposal, key.operation, Proposed, 1)], d.stored[key := Stored(request, response)]),
       Replied(response))
    case AcceptCommission(id, revision) =>
      var next := Transition(d, id, revision, Proposed, Underway);
      if next.None? then (d, Refused)
      else (next.value.(stored := d.stored[key := Stored(request, Acknowledged(id))]), Replied(Acknowledged(id)))
    case CancelCommission(id, revision) =>
      var next := Transition(d, id, revision, Underway, Cancelled);
      if next.None? then (d, Refused)
      else (next.value.(stored := d.stored[key := Stored(request, Acknowledged(id))]), Replied(Acknowledged(id)))
  }

  function Serve(d: Daemon, key: Key, request: Request): (Daemon, Answer) {
    if key in d.stored then
      (d, if d.stored[key].request == request then Replied(d.stored[key].response) else Conflict)
    else Perform(d, key, request)
  }

  datatype Fault = NoFault | LostBefore | LostAfter

  /** A call that may be lost before or after the daemon applies it. */
  function Call(d: Daemon, key: Key, request: Request, fault: Fault): (Daemon, Answer) {
    match fault
    case NoFault => Serve(d, key, request)
    case LostBefore => (d, Lost)
    case LostAfter => (Serve(d, key, request).0, Lost)
  }

  /** Workers move Commissions that are under way. */
  function Advance(d: Daemon, id: nat, completes: bool): Daemon {
    if id < |d.commissions| && d.commissions[id].status == Underway then
      var c := d.commissions[id];
      d.(commissions := d.commissions[id := c.(status := if completes then VerifiedComplete else Underway, revision := c.revision + 1)])
    else d
  }

  // ----- the session

  datatype Session = Session(current: Option<nat>, lastStarted: Option<(Proposal, nat)>, operation: nat, nextOperation: nat)

  datatype Faults = Faults(inspect: Fault, first: Fault, second: Fault)

  predicate IsTerminal(status: Status) {
    status == VerifiedComplete || status == Cancelled
  }

  /** `ensure_previous_commission_is_terminal`: forgets a finished Commission, or refuses. */
  function ReleasePrevious(s: Session, d: Daemon, inspect: Fault): Option<Session> {
    if s.current.None? then Some(s)
    else if inspect != NoFault || s.current.value >= |d.commissions| then None
    else if IsTerminal(d.commissions[s.current.value].status) then Some(s.(current := None))
    else None
  }

  /** A start after a success moves to a fresh operation; a retry keeps its own. */
  function Renew(s: Session): Session {
    if s.lastStarted.Some?
    then s.(lastStarted := None, operation := s.nextOperation, nextOperation := s.nextOperation + 1)
    else s
  }

  function AcceptCreated(s: Session, d: Daemon, p: Proposal, created: Response, fault: Fault): (Session, Daemon, Option<nat>)
    requires created.Created?
  {
    var id := created.commission;
    var (d', answer) := Call(d, AcceptKey(s.operation, id), AcceptCommission(id, created.revision), fault);
    if !answer.Replied? then (s, d', None)
    else (s.(current := Some(id), lastStarted := Some((p, id))), d', Some(id))
  }

  function CreateAndAccept(s: Session, d: Daemon, p: Proposal, f: Faults): (Session, Daemon, Option<nat>) {
    var (d', answer) := Call(d, ProposeKey(s.operation, p), CreateProposal(p), f.first);
    if !answer.Replied? || !answer.response.Created? then (s, d', None)
    else AcceptCreated(s, d', p, answer.response, f.second)
  }

  function StartCommission(s: Session, d: Daemon, p: Proposal, f: Faults): (Session, Daemon, Option<nat>) {
    if s.lastStarted.Some? && s.lastStarted.value.0 == p then (s, d, Some(s.lastStarted.value.1))
    else if !p.isAllowed then (s, d, None)
    else
      var released := ReleasePrevious(s, d, f.inspect);
      if released.None? then (s, d, None)
      else CreateAndAccept(Renew(released.value), d, p, f)
  }

  function Clear(s: Session): Session {
    Session(None, None, s.nextOperation, s.nextOperation + 1)
  }

  function CancelCurrent(s: Session, d: Daemon, f: Faults): (Session, Daemon, bool) {
    if s.current.None? || f.inspect != NoFault || s.current.value >= |d.commissions| then (s, d, false)
    else
      var id := s.current.value;
      var c := d.commissions[id];
      if c.status == Cancelled then (Clear(s), d, true)
      else
        var (d', answer) := Call(d, CancelKey(s.operation, id), CancelCommission(id, c.revision), f.first);
        if answer.Replied? then (Clear(s), d', true) else (s, d', false)
  }

  // ----- the object

  class EntryState {
    var current: Option<nat>
    var lastStarted: Option<(Proposal, nat)>
    var operation: nat
    var nextOperation: nat
    var daemon: Daemon

    ghost function State(): Session
      reads this
    {
      Session(current, lastStarted, operation, nextOperation)
    }

    constructor ()
      ensures State() == NEW_SESSION && daemon == NEW_DAEMON
    {
      current, lastStarted, operation, nextOperation, daemon := None, None, 0, 1, NEW_DAEMON;
    }

    method EnsurePreviousIsTerminal(inspect: Fault) returns (ok: bool)
      modifies this`current
      ensures ok <==> ReleasePrevious(old(State()), daemon, inspect).Some?
      ensures State() == if ok then ReleasePrevious(old(State()), daemon, inspect).value else old(State())
    {
      if current.None? {
        return true;
      }
      if inspect != NoFault || current.value >= |daemon.commissions| {
        return false;
      }
      if IsTerminal(daemon.commissions[current.value].status) {
        current := None;
        return true;
      }
      return false;
    }

    method Start(p: Proposal, f: Faults) returns (result: Option<nat>)
      modifies this
      ensures (State(), daemon, result) == StartCommission(old(State()), old(daemon), p, f)
    {
      if lastStarted.Some? && lastStarted.value.0 == p {
        return Some(lastStarted.value.1);
      }
      if !p.isAllowed {
        return None;
      }
      var released := EnsurePreviousIsTerminal(f.inspect);
      if !released {
        return None;
      }
      if lastStarted.Some? {
        lastStarted, operation, nextOperation := None, nextOperation, nextOperation + 1;
      }
      var proposed := Call(daemon, ProposeKey(operation, p), CreateProposal(p), f.first);
      daemon := proposed.0;
      var created := proposed.1;
      if !created.Replied? || !created.response.Created? {
        return None;
      }
      var id := created.response.commission;
      var answer := Call(daemon, AcceptKey(operation, id), AcceptCommission(id, created.response.revision), f.second);
      daemon := answer.0;
      if !answer.1.Replied? {
        return None;
      }
      current, lastStarted := Some(id), Some((p, id));
      return Some(id);
    }

    method ClearCurrentOperation()
      modifies this`current, this`lastStarted, this`operation, this`nextOperation
      ensures State() == Clear(old(State()))
    {
      current, lastStarted, operation, nextOperation := None, None, nextOperation, nextOperation + 1;
    }

    method Cancel(f: Faults) returns (ok: bool)
      modifies this
      ensures (State(), daemon, ok) == CancelCurrent(old(State()), old(daemon), f)
    {
      if current.None? || f.inspect != NoFault || current.value >= |daemon.commissions| {
        return false;
      }
      var id := current.value;
      var c := daemon.commissions[id];
      if c.status == Cancelled {
        ClearCurrentOperation();
        return true;
      }
      var answer := Call(daemon, CancelKey(operation, id), CancelCommission(id, c.revision), f.first);
      daemon := answer.0;
      if !answer.1.Replied? {
        return false;
      }
      ClearCurrentOperation();
      return true;
    }
  }

  // ----- the invariant of session and daemon

  ghost predicate ProposalsAreStored(d: Daemon) {
    forall o: nat, p {:trigger ProposeKey(o, p)} :: ProposeKey(o, p) in d.stored ==>
      var entry := d.stored[ProposeKey(o, p)];
      && entry.request == CreateProposal(p) && entry.response.Created? && entry.response.revision == 1
      && entry.response.commission < |d.commissions|
      && d.commissions[entry.response.commission].proposal == p && d.commissions[entry.response.commission].origin == o
  }

  ghost predicate AcceptancesAreStored(d: Daemon) {
    forall o: nat, id: nat {:trigger AcceptKey(o, id)} :: AcceptKey(o, id) in d.stored ==>
      d.stored[AcceptKey(o, id)] == Stored(AcceptCommission(id, 1), Acknowledged(id))
      && id < |d.commissions| && d.commissions[id].origin == o
  }

  ghost predicate CancellationsAreStored(d: Daemon) {
    forall o: nat, id: nat {:trigger CancelKey(o, id)} :: CancelKey(o, id) in d.stored ==>
      id < |d.commissions| && d.commissions[id].status == Cancelled
  }

  /** A Commission is the one its creating key answers with, and is under way
      exactly when its acceptance is stored. */
  ghost predicate CommissionIsSound(d: Daemon, id: nat)
    requires id < |d.commissions|
  {
    var c := d.commissions[id];
    && ProposeKey(c.origin, c.proposal) in d.stored
    && d.stored[ProposeKey(c.origin, c.proposal)].response == Created(id, 1)
    && (c.status == Proposed <==> AcceptKey(c.origin, id) !in d.stored)
    && (c.status == Proposed ==> c.revision == 1)
  }

  ghost predicate DaemonInvariant(d: Daemon) {
    && ProposalsAreStored(d) && AcceptancesAreStored(d) && CancellationsAreStored(d)
    && forall id: nat :: id < |d.commissions| ==> CommissionIsSound(d, id)
  }

  /** Every operation in use was issued before the next one. */
  ghost predicate OperationsAreIssued(s: Session, d: Daemon) {
    && s.operation < s.nextOperation
    && forall key :: key in d.stored ==> key.operation < s.nextOperation
  }

  /** A tracked Commission has a cached start, which belongs to the operation. */
  ghost predicate SessionInvariant(s: Session, d: Daemon) {
    && (s.current.Some? ==> s.lastStarted.Some? && s.lastStarted.value.1 == s.current.value)
    && (s.lastStarted.Some? ==> IsStarted(d, s.lastStarted.value.1, s.lastStarted.value.0, s.operation))
  }

  /** An accepted Commission for the proposal, created by the operation. */
  ghost predicate IsStarted(d: Daemon, id: nat, p: Proposal, operation: nat) {
    && id < |d.commissions| && d.commissions[id].proposal == p && d.commissions[id].origin == operation
    && d.commissions[id].status != Proposed
  }

  ghost predicate Invariant(s: Session, d: Daemon) {
    DaemonInvariant(d) && OperationsAreIssued(s, d) && SessionInvariant(s, d)
  }

  const NEW_SESSION := Session(None, None, 0, 1)
  const NEW_DAEMON := Daemon([], map[])

  lemma InitialInvariant()
    ensures Invariant(NEW_SESSION, NEW_DAEMON)
  {
  }

  // ----- what each call keeps

  lemma CreateKeeps(d: Daemon, o: nat, p: Proposal)
    requires DaemonInvariant(d)
    ensures var (d', answer) := Serve(d, ProposeKey(o, p), CreateProposal(p));
      && DaemonInvariant(d')
      && ProposeKey(o, p) in d'.stored && answer == Replied(d'.stored[ProposeKey(o, p)].response)
      && d.commissions <= d'.commissions
      && |d'.commissions| == |d.commissions| + (if ProposeKey(o, p) in d.stored then 0 else 1)
      && d'.stored.Keys == d.stored.Keys + {ProposeKey(o, p)}
  {
    var key := ProposeKey(o, p);
    if key !in d.stored {
      var (d', _) := Serve(d, key, CreateProposal(p));
      var n := |d.commissions|;
      assert AcceptKey(o, n) !in d.stored;
      forall id: nat | id < |d'.commissions| ensures CommissionIsSound(d', id) {
        if id < n {
          assert CommissionIsSound(d, id);
          assert d'.commissions[id] == d.commissions[id];
        }
      }
    }
  }

  lemma AcceptKeeps(d: Daemon, o: nat, id: nat)
    requires DaemonInvariant(d) && id < |d.commissions| && d.commissions[id].origin == o
    ensures var (d', answer) := Serve(d, AcceptKey(o, id), AcceptCommission(id, 1));
      && DaemonInvariant(d') && answer == Replied(Acknowledged(id))
      && |d'.commissions| == |d.commissions|
      && d'.commissions[id].status != Proposed
      && d'.commissions[id].proposal == d.commissions[id].proposal && d'.commissions[id].origin == o
      && d'.stored.Keys == d.stored.Keys + {AcceptKey(o, id)}
      && (forall other :: 0 <= other < |d.commissions| && other != id ==> d'.commissions[other] == d.commissions[other])
  {
    assert CommissionIsSound(d, id);
    var (d', _) := Serve(d, AcceptKey(o, id), AcceptCommission(id, 1));
    forall other: nat | other < |d'.commissions| ensures CommissionIsSound(d', other) {
      assert CommissionIsSound(d, other);
    }
  }

  lemma CancelKeeps(d: Daemon, o: nat, id: nat)
    requires DaemonInvariant(d) && id < |d.commissions| && d.commissions[id].status != Cancelled
    ensures var (d', answer) := Serve(d, CancelKey(o, id), CancelCommission(id, d.commissions[id].revision));
      && DaemonInvariant(d') && !answer.Conflict?
      && |d'.commissions| == |d.commissions|
      && d'.stored.Keys <= d.stored.Keys + {CancelKey(o, id)}
      && (forall other :: 0 <= other < |d.commissions| && other != id ==> d'.commissions[other] == d.commissions[other])
      && d'.commissions[id].proposal == d.commissions[id].proposal && d'.commissions[id].origin == d.commissions[id].origin
      && (d'.commissions[id].status == Proposed <==> d.commissions[id].status == Proposed)
  {
    var (d', _) := Serve(d, CancelKey(o, id), CancelCommission(id, d.commissions[id].revision));
    forall other: nat | other < |d'.commissions| ensures CommissionIsSound(d', other) {
      assert CommissionIsSound(d, other);
    }
  }

  lemma AdvanceKeeps(s: Session, d: Daemon, id: nat, completes: bool)
    requires Invariant(s, d)
    ensures Invariant(s, Advance(d, id, completes))
    ensures Advance(d, id, completes).stored == d.stored && |Advance(d, id, completes).commissions| == |d.commissions|
  {
    var d' := Advance(d, id, completes);
    forall other: nat | other < |d'.commissions| ensures CommissionIsSound(d', other) {
      assert CommissionIsSound(d, other);
    }
  }

  // ----- starting

  /** The key under which the next attempt at a proposal creates its Commission. */
  ghost function TargetKey(s: Session, p: Proposal): Key {
    ProposeKey(if s.lastStarted.Some? then s.nextOperation else s.operation, p)
  }

  ghost function One(condition: bool): nat {
    if condition then 1 else 0
  }

  lemma AcceptCreatedKeeps(s: Session, d: Daemon, p: Proposal, created: Response, fault: Fault)
    requires Invariant(s, d) && s.current.None? && s.lastStarted.None?
    requires ProposeKey(s.operation, p) in d.stored && created == d.stored[ProposeKey(s.operation, p)].response
    ensures created.Created?
    ensures var (s', d', result) := AcceptCreated(s, d, p, created, fault);
      var key := ProposeKey(s.operation, p);
      && Invariant(s', d') && |d'.commissions| == |d.commissions|
      && (ProposeKey(s.operation, p) in d'.stored && d'.stored[key].response == created)
      && s'.operation == s.operation && s'.nextOperation == s.nextOperation
      && (result.None? ==> s' == s)
      && (result.Some? ==>
           && created == Created(result.value, 1) && IsStarted(d', result.value, p, s.operation)
           && s'.current == Some(result.value) && s'.lastStarted == Some((p, result.value)))
  {
    AcceptKeeps(d, s.operation, created.commission);
  }

  lemma CreateAndAcceptKeeps(s: Session, d: Daemon, p: Proposal, f: Faults)
    requires Invariant(s, d) && s.current.None? && s.lastStarted.None?
    ensures var (s', d', result) := CreateAndAccept(s, d, p, f);
      var key := ProposeKey(s.operation, p);
      && Invariant(s', d')
      && |d'.commissions| == |d.commissions| + One(key in d'.stored) - One(key in d.stored)
      && s'.operation == s.operation && s'.nextOperation == s.nextOperation
      && (result.None? ==> s' == s)
      && (result.Some? ==>
           && key in d'.stored && d'.stored[key].response == Created(result.value, 1)
           && IsStarted(d', result.value, p, s.operation)
           && s'.current == Some(result.value) && s'.lastStarted == Some((p, result.value)))
  {
    var key := ProposeKey(s.operation, p);
    CreateKeeps(d, s.operation, p);
    var (d1, answer) := Call(d, key, CreateProposal(p), f.first);
    if answer.Replied? {
      assert ProposeKey(s.operation, p) in d1.stored;
      AcceptCreatedKeeps(s, d1, p, answer.response, f.second);
    }
  }

  lemma ReleaseAndRenewKeep(s: Session, d: Daemon, inspect: Fault)
    requires Invariant(s, d) && ReleasePrevious(s, d, inspect).Some?
    ensures var s1 := Renew(ReleasePrevious(s, d, inspect).value);
      && Invariant(s1, d) && s1.current.None? && s1.lastStarted.None?
      && s1.operation == (if s.lastStarted.Some? then s.nextOperation else s.operation)
      && s1.operation < s1.nextOperation
  {
  }

  ghost predicate IsCached(s: Session, p: Proposal) {
    s.lastStarted.Some? && s.lastStarted.value.0 == p
  }

  /** One attempt at a proposal that is not cached: the invariant is kept, Commissions
      are only created under the target key, a failure leaves the target as it was,
      and a success is the accepted Commission of that key. */
  lemma StartKeeps(s: Session, d: Daemon, p: Proposal, f: Faults)
    requires Invariant(s, d) && !IsCached(s, p)
    ensures var (s', d', result) := StartCommission(s, d, p, f);
      var key := TargetKey(s, p);
      && Invariant(s', d')
      && |d'.commissions| == |d.commissions| + One(key in d'.stored) - One(key in d.stored)
      && (result.None? ==> TargetKey(s', p) == key && !IsCached(s', p))
      && (result.Some? ==>
           && key in d'.stored && d'.stored[key].response == Created(result.value, 1)
           && IsStarted(d', result.value, p, key.operation)
           && s'.current == Some(result.value) && s'.lastStarted == Some((p, result.value)))
  {
    if p.isAllowed && ReleasePrevious(s, d, f.inspect).Some? {
      ReleaseAndRenewKeep(s, d, f.inspect);
      CreateAndAcceptKeeps(Renew(ReleasePrevious(s, d, f.inspect).value), d, p, f);
    }
  }

  /** An attempt, after Workers may have advanced some Commission. */
  datatype Attempt = Attempt(advanced: nat, completes: bool, faults: Faults)

  /** Retrying one proposal until an attempt succeeds or the attempts run out. */
  ghost function Retry(s: Session, d: Daemon, p: Proposal, attempts: seq<Attempt>): (Session, Daemon, Option<nat>)
    decreases |attempts|
  {
    if attempts == [] then (s, d, None)
    else
      var d1 := Advance(d, attempts[0].advanced, attempts[0].completes);
      var (s', d', result) := StartCommission(s, d1, p, attempts[0].faults);
      if result.Some? then (s', d', result) else Retry(s', d', p, attempts[1..])
  }

  /** However calls are lost, retrying a proposal until it succeeds leaves exactly one
      Commission created under its key, accepted, tracked and cached. */
  lemma {:induction false} RetryStartsExactlyOne(s: Session, d: Daemon, p: Proposal, attempts: seq<Attempt>)
    requires Invariant(s, d) && !IsCached(s, p)
    ensures var (s', d', result) := Retry(s, d, p, attempts);
      var key := TargetKey(s, p);
      && Invariant(s', d')
      && |d'.commissions| == |d.commissions| + One(key in d'.stored) - One(key in d.stored)
      && (result.Some? ==>
           && key in d'.stored && d'.stored[key].response == Created(result.value, 1)
           && IsStarted(d', result.value, p, key.operation)
           && s'.current == Some(result.value) && s'.lastStarted == Some((p, result.value)))
    decreases |attempts|
  {
    if attempts != [] {
      var d1 := Advance(d, attempts[0].advanced, attempts[0].completes);
      AdvanceKeeps(s, d, attempts[0].advanced, attempts[0].completes);
      StartKeeps(s, d1, p, attempts[0].faults);
      var (s', d', result) := StartCommission(s, d1, p, attempts[0].faults);
      if result.None? {
        RetryStartsExactlyOne(s', d', p, attempts[1..]);
      }
    }
  }

  /** After a success, a different proposal is created under a key never used before,
      so retrying it creates exactly one new Commission. */
  lemma {:induction false} NextProposalUsesAFreshKey(s: Session, d: Daemon, p: Proposal)
    requires Invariant(s, d) && s.lastStarted.Some?
    ensures TargetKey(s, p) !in d.stored
  {
    assert TargetKey(s, p).operation == s.nextOperation;
  }

  /** So after any success, retrying another proposal until it succeeds creates and
      accepts one Commission and no more. */
  lemma RetryAfterSuccessAddsOne(s: Session, d: Daemon, p: Proposal, attempts: seq<Attempt>)
    requires Invariant(s, d) && s.lastStarted.Some? && !IsCached(s, p)
    requires Retry(s, d, p, attempts).2.Some?
    ensures var (s', d', result) := Retry(s, d, p, attempts);
      |d'.commissions| == |d.commissions| + 1 && IsStarted(d', result.value, p, s.nextOperation)
  {
    NextProposalUsesAFreshKey(s, d, p);
    RetryStartsExactlyOne(s, d, p, attempts);
  }

  /** A cancel keeps the invariant, never meets an idempotency conflict, and when it
      succeeds leaves nothing tracked and an operation no stored key has. */
  lemma CancelKeepsInvariant(s: Session, d: Daemon, f: Faults)
    requires Invariant(s, d)
    ensures var (s', d', ok) := CancelCurrent(s, d, f);
      && Invariant(s', d') && |d'.commissions| == |d.commissions|
      && (ok ==> s'.current.None? && s'.lastStarted.None? && forall key :: key in d'.stored ==> key.operation != s'.operation)
  {
    if s.current.Some? && f.inspect == NoFault && s.current.value < |d.commissions|
       && d.commissions[s.current.value].status != Cancelled {
      CancelKeeps(d, s.operation, s.current.value);
    }
  }

  // ----- every session

  datatype Action =
    | DoStart(proposal: Proposal, faults: Faults)
    | DoCancel(faults: Faults)
    | DoAdvance(commission: nat, completes: bool)

  function Exec(s: Session, d: Daemon, action: Action): (Session, Daemon) {
    match action
    case DoStart(p, f) => var (s', d', _) := StartCommission(s, d, p, f); (s', d')
    case DoCancel(f) => var (s', d', _) := CancelCurrent(s, d, f); (s', d')
    case DoAdvance(id, completes) => (s, Advance(d, id, completes))
  }

  function After(actions: seq<Action>): (Session, Daemon) {
    if actions == [] then (NEW_SESSION, NEW_DAEMON)
    else
      var (s, d) := After(actions[..|actions| - 1]);
      Exec(s, d, actions[|actions| - 1])
  }

  /** In every session, a tracked Commission has a cached start, and every Commission
      the daemon holds was created by exactly one key. */
  lemma {:induction false} EverySessionIsConsistent(actions: seq<Action>)
    ensures var (s, d) := After(actions); Invariant(s, d)
  {
    if actions != [] {
      var before, last := actions[..|actions| - 1], actions[|actions| - 1];
      EverySessionIsConsistent(before);
      var (s, d) := After(before);
      match last
      case DoStart(p, f) =>
        if !IsCached(s, p) {
          StartKeeps(s, d, p, f);
        }
      case DoCancel(f) => CancelKeepsInvariant(s, d, f);
      case DoAdvance(id, completes) => AdvanceKeeps(s, d, id, completes);
    } else {
      InitialInvariant();
    }
  }
}
