/** What the daemon promises of its calls, beside any session: a key answers one request
    only and always the same, and a stale revision changes nothing. */
module IdempotentCalls {
  import opened EntrySession

  /** Many calls, one after the other. */
  ghost function ServeAll(d: Daemon, calls: seq<(Key, Request)>): Daemon
    decreases |calls|
  {
    if calls == [] then d else ServeAll(Serve(d, calls[0].0, calls[0].1).0, calls[1..])
  }

  lemma {:induction false} StoredStays(d: Daemon, key: Key, calls: seq<(Key, Request)>)
    requires key in d.stored
    ensures key in ServeAll(d, calls).stored && ServeAll(d, calls).stored[key] == d.stored[key]
    decreases |calls|
  {
    if calls != [] {
      StoredStays(Serve(d, calls[0].0, calls[0].1).0, key, calls[1..]);
    }
  }

  /** A call that was answered is answered the same from then on, whatever else the
      daemon serves in between, and is applied only once. */
  lemma {:induction false} AnsweredOnceForAll(d: Daemon, key: Key, request: Request, later: seq<(Key, Request)>)
    requires Serve(d, key, request).1.Replied?
    ensures var d' := ServeAll(Serve(d, key, request).0, later);
      Serve(d', key, request) == (d', Serve(d, key, request).1)
  {
    var d1, answer := Serve(d, key, request).0, Serve(d, key, request).1;
    assert key in d1.stored && d1.stored[key] == Stored(request, answer.response);
    StoredStays(d1, key, later);
  }

  /** Another request under a key that was answered is a conflict and changes nothing. */
  lemma AnotherRequestConflicts(d: Daemon, key: Key, request: Request, later: seq<(Key, Request)>, other: Request)
    requires Serve(d, key, request).1.Replied? && other != request
    ensures var d' := ServeAll(Serve(d, key, request).0, later); Serve(d', key, other) == (d', Conflict)
  {
    var d1, answer := Serve(d, key, request).0, Serve(d, key, request).1;
    assert key in d1.stored && d1.stored[key] == Stored(request, answer.response);
    StoredStays(d1, key, later);
  }

  /** The Commission, its revision and the status a call needs, and the status it gives. */
  ghost predicate Moves(request: Request, id: nat, revision: int, from: Status, to: Status) {
    || (request == AcceptCommission(id, revision) && from == Proposed && to == Underway)
    || (request == CancelCommission(id, revision) && from == Underway && to == Cancelled)
  }

  ghost predicate IsCurrent(d: Daemon, id: nat, revision: int, from: Status) {
    id < |d.commissions| && d.commissions[id].revision == revision && d.commissions[id].status == from
  }

  /** A new accept or cancel is answered exactly when the Commission has the revision the
      caller expects and the status the call needs. Then that Commission alone changes, to
      the next revision, which makes every older expectation stale; else nothing does. */
  lemma TransitionsAreExact(d: Daemon, key: Key, request: Request, id: nat, revision: int, from: Status, to: Status)
    requires key !in d.stored && Moves(request, id, revision, from, to)
    ensures var (d', answer) := Serve(d, key, request);
      && (answer.Replied? <==> IsCurrent(d, id, revision, from))
      && (!answer.Replied? ==> d' == d && answer == Refused)
      && (answer.Replied? ==>
            && answer == Replied(Acknowledged(id)) && |d'.commissions| == |d.commissions|
            && d'.commissions[id].status == to && d'.commissions[id].revision == revision + 1
            && d'.commissions[id].proposal == d.commissions[id].proposal
            && d'.commissions[id].origin == d.commissions[id].origin
            && (forall other: nat :: other < |d.commissions| && other != id ==> d'.commissions[other] == d.commissions[other])
            && d'.stored == d.stored[key := Stored(request, Acknowledged(id))])
  {
  }

  /** Of two calls that expect the same revision of one Commission, under different new
      keys, at most one is answered. */
  lemma OneOfTwoSucceeds(d: Daemon, first: Key, second: Key, a: Request, b: Request, id: nat, revision: int,
                         from: Status, to: Status, from': Status, to': Status)
    requires first !in d.stored && second !in d.stored && first != second
    requires Moves(a, id, revision, from, to) && Moves(b, id, revision, from', to')
    ensures var (d1, answer) := Serve(d, first, a); answer.Replied? ==> Serve(d1, second, b) == (d1, Refused)
  {
    TransitionsAreExact(d, first, a, id, revision, from, to);
    var d1 := Serve(d, first, a).0;
    if second !in d1.stored {
      TransitionsAreExact(d1, second, b, id, revision, from', to');
    }
  }

  /** A creation adds one proposed Commission at revision one and stores its answer. */
  lemma CreationIsExact(d: Daemon, key: Key, p: Proposal)
    requires key !in d.stored
    ensures var (d', answer) := Serve(d, key, CreateProposal(p));
      && answer == Replied(Created(|d.commissions|, 1))
      && d'.commissions == d.commissions + [Commission(p, key.operation, Proposed, 1)]
      && d'.stored == d.stored[key := Stored(CreateProposal(p), Created(|d.commissions|, 1))]
  {
  }
}
