/** Every step of the session client keeps its invariant. */
module ClientInvariants {
  import opened Wrappers
  import opened ClientModel

  // ---- one operation moves on -------------------------------------------------------

  /** Only this operation changed, and only in its phase and in what it was sent under. */
  ghost predicate Rephased(s: State, t: State, id: Id) {
    && id < |s.ops| == |t.ops| && t.epoch == s.epoch && t.queue == s.queue && t.flights == s.flights
    && (forall i | 0 <= i < |s.ops| && i != id :: t.ops[i] == s.ops[i])
    && t.ops[id].kind == s.ops[id].kind && t.ops[id].epoch == s.ops[id].epoch
    && t.ops[id].after == s.ops[id].after
    && s.ops[id].phase != Done && t.ops[id].phase != Waiting
  }

  lemma RephasedKeepsChain(s: State, t: State, id: Id)
    requires Chained(s) && Rephased(s, t, id)
    ensures Chained(t)
  {
    forall i: Id ensures QueuedAt(t, i) <==> QueuedAt(s, i) {
    }
  }

  lemma ReadyMeansNext(s: State, i: Id, id: Id)
    requires Chained(s) && InOrder(s) && QueuedAt(s, i) && QueuedAt(s, id) && i < id && Ready(s, id)
    ensures s.ops[i].phase == Done
  {
    var a := s.ops[id].after.value;
    assert i <= a && QueuedAt(s, a) && s.ops[a].phase == Done;
  }

  lemma RephasedKeepsOrder(s: State, t: State, id: Id)
    requires Chained(s) && InOrder(s) && Rephased(s, t, id)
    requires s.ops[id].phase == Waiting ==> Ready(s, id)
    ensures InOrder(t)
  {
    forall i: Id, j: Id | QueuedAt(t, i) && QueuedAt(t, j) && i < j && t.ops[j].phase != Waiting
      ensures t.ops[i].phase == Done
    {
      assert QueuedAt(s, i) && QueuedAt(s, j);
      if j == id && s.ops[id].phase == Waiting {
        ReadyMeansNext(s, i, id);
      } else {
        assert s.ops[i].phase == Done;
      }
    }
  }

  lemma RephasedKeepsFlights(s: State, t: State, id: Id)
    requires Remembered(s) && LogoutIsLast(s) && Rephased(s, t, id)
    ensures Remembered(t) && LogoutIsLast(t)
  {
    forall i: Id | Flying(t, i) ensures Flying(s, i) {
    }
  }

  lemma RephasedKeepsValid(s: State, t: State, id: Id)
    requires Valid(s) && Rephased(s, t, id) && (s.ops[id].phase == Waiting ==> Ready(s, id))
    requires HeldTogether(t) && SentUnder(t)
    ensures Valid(t)
  {
    RephasedKeepsChain(s, t, id);
    RephasedKeepsOrder(s, t, id);
    RephasedKeepsFlights(s, t, id);
  }

  // ---- steps ----------------------------------------------------------------------

  lemma InitialIsValid()
    ensures Valid(INITIAL)
  {
  }

  lemma AppendKeepsQueue(s: State, t: State, op: Op)
    requires Chained(s) && InOrder(s)
    requires t.ops == s.ops + [op] && op.phase == Waiting
    requires if Queued(op.kind) then op.after == s.queue && t.queue == Some(|s.ops|) else t.queue == s.queue
    ensures Chained(t) && InOrder(t)
  {
    forall i: Id ensures QueuedAt(t, i) <==> QueuedAt(s, i) || (i == |s.ops| && Queued(op.kind)) {
    }
  }

  lemma AppendKeepsFlights(s: State, t: State, op: Op)
    requires Remembered(s) && LogoutIsLast(s) && SentUnder(s)
    requires t.ops == s.ops + [op] && t.epoch == s.epoch == op.epoch && op.phase == Waiting
    requires if Shared(op.kind) then op.kind !in s.flights && t.flights == s.flights[op.kind := |s.ops|]
             else Logout !in s.flights && t.flights == s.flights
    ensures Remembered(t) && LogoutIsLast(t)
  {
    forall i: Id ensures Flying(t, i) <==> Flying(s, i) || (i == |s.ops| && Shared(op.kind)) {
    }
    assert forall i | 0 <= i < |s.ops| :: t.ops[i] == s.ops[i];
  }

  /** A call that is neither shared nor refused, before its first turn. */
  function Added(s: State, kind: Kind): State {
    var id := |s.ops|;
    s.(ops := s.ops + [Op(kind, s.epoch, if Queued(kind) then s.queue else None, Waiting, None, None, 0)],
       queue := if Queued(kind) then Some(id) else s.queue,
       flights := if Shared(kind) then s.flights[kind := id] else s.flights)
  }

  lemma AddedIsValid(s: State, kind: Kind)
    requires Valid(s) && Accepted(s, kind)
    ensures Valid(Added(s, kind))
  {
    var op := Op(kind, s.epoch, if Queued(kind) then s.queue else None, Waiting, None, None, 0);
    AppendKeepsQueue(s, Added(s, kind), op);
    AppendKeepsFlights(s, Added(s, kind), op);
  }

  predicate Accepted(s: State, kind: Kind) {
    if Shared(kind) then kind !in s.flights else Logout !in s.flights
  }

  lemma CallIsAdded(s: State, kind: Kind, now: int)
    ensures AfterCall(s, kind, now) == if !Accepted(s, kind) then s
                                       else if kind == Read then AfterStart(Added(s, kind), |s.ops|, now)
                                       else Added(s, kind)
  {
  }

  lemma CallKeepsValid(s: State, kind: Kind, now: int)
    requires Valid(s)
    ensures Valid(AfterCall(s, kind, now))
  {
    CallIsAdded(s, kind, now);
    if Accepted(s, kind) {
      AddedIsValid(s, kind);
      StartKeepsValid(Added(s, kind), |s.ops|, now);
    }
  }

  lemma StartKeepsValid(s: State, id: Id, now: int)
    requires Valid(s)
    ensures Valid(AfterStart(s, id, now))
  {
    if id < |s.ops| && Ready(s, id) {
      if AfterStart(s, id, now) == Send(s, id) {
        RephasedKeepsValid(s, Send(s, id), id);
      } else {
        RequiredKeepsValid(s, now);
        FinishKeepsValid(s, id);
        FinishKeepsValid(Required(s, now), id);
      }
    }
  }

  ghost predicate InFlight(s: State, id: Id) {
    Valid(s) && id < |s.ops| && s.ops[id].phase in {Fetching, Reading}
  }

  lemma AnswerKeepsValid(s: State, id: Id, reply: Reply)
    requires InFlight(s, id) && s.ops[id].kind in {Recover, Renew}
    ensures Valid(AfterAnswer(s, id, reply))
  {
    if AfterAnswer(s, id, reply) == Move(s, id, Reading) {
      RephasedKeepsValid(s, Move(s, id, Reading), id);
    } else {
      EndKeepsValid(s, id, if reply == Answer(401) then SignedOut else Unavailable);
    }
  }

  lemma RespondKeepsValid(s: State, id: Id, reply: Reply)
    requires Valid(s)
    ensures Valid(AfterRespond(s, id, reply))
  {
    if id < |s.ops| && s.ops[id].phase == Fetching {
      if s.ops[id].kind in {Recover, Renew} {
        AnswerKeepsValid(s, id, reply);
      } else if AfterRespond(s, id, reply) == Finish(s, id) {
        FinishKeepsValid(s, id);
      } else {
        EndKeepsValid(s, id, if AfterRespond(s, id, reply) == End(s, id, SignedOut) then SignedOut else Unavailable);
      }
    }
  }

  lemma RecoveredKeepsValid(s: State, id: Id, session: Session, csrf: Proof, now: int)
    requires InFlight(s, id) && s.ops[id].epoch == s.epoch
    ensures Valid(AfterRecovered(s, id, session, csrf, now))
  {
    var taken := s.(session := Some(session), csrf := Some(csrf), status := Authenticated,
                    revision := s.revision + 1);
    if Usable(taken, now) {
      ChangedThenDone(s, taken, id);
    } else {
      var cleared := Clear(Clear(taken, SignedOut), Unavailable);
      assert AfterRecovered(s, id, session, csrf, now) == Finish(cleared, id);
      ChangedThenDone(s, cleared, id);
    }
  }

  lemma RenewedKeepsValid(s: State, id: Id, body: Body)
    requires InFlight(s, id) && s.ops[id].kind == Renew && RenewalMatches(s.ops[id], body)
    ensures Valid(AfterRenewed(s, id, body))
  {
    var csrf := if body.rotated then body.renewal else s.ops[id].csrf;
    var renewed := s.(csrf := csrf, revision := s.revision + 1);
    assert csrf.Some? && HeldTogether(renewed);
    assert AfterRenewed(s, id, body) == Finish(renewed, id);
    ChangedThenDone(s, renewed, id);
  }

  lemma ReadBodyKeepsValid(s: State, id: Id, body: Body, now: int)
    requires Valid(s)
    ensures Valid(AfterReadBody(s, id, body, now))
  {
    if id < |s.ops| && s.ops[id].phase == Reading {
      var op := s.ops[id];
      if op.epoch == s.epoch && op.kind == Recover && body.Recovered? {
        RecoveredKeepsValid(s, id, body.session, body.csrf, now);
      } else if op.epoch == s.epoch && op.kind == Renew && RenewalMatches(op, body) {
        RenewedKeepsValid(s, id, body);
      } else {
        FinishKeepsValid(s, id);
        EndKeepsValid(s, id, Unavailable);
      }
    }
  }

  /** The view may change if the revision moves on. */
  lemma ViewKeepsValid(s: State, t: State)
    requires Valid(s) && HeldTogether(t) && t.revision > s.revision
    requires t == s.(session := t.session, csrf := t.csrf, status := t.status, revision := t.revision)
    ensures Valid(t)
  {
    forall i: Id ensures (QueuedAt(t, i) <==> QueuedAt(s, i)) && (Flying(t, i) <==> Flying(s, i)) {
    }
    SameOpsKeepQueue(s, t);
  }

  lemma ChangedThenDone(s: State, t: State, id: Id)
    requires InFlight(s, id) && HeldTogether(t) && t.revision > s.revision
    requires t == s.(session := t.session, csrf := t.csrf, status := t.status, revision := t.revision)
    ensures Valid(Finish(t, id))
  {
    ViewKeepsValid(s, t);
    FinishKeepsValid(t, id);
  }

  lemma RequiredKeepsValid(s: State, now: int)
    requires Valid(s)
    ensures Valid(Required(s, now))
  {
    ViewKeepsValid(s, Clear(s, SignedOut));
  }

  lemma FinishKeepsValid(s: State, id: Id)
    requires Valid(s) && id < |s.ops| && s.ops[id].phase != Done
    requires s.ops[id].phase == Waiting ==> Ready(s, id)
    ensures Valid(Finish(s, id))
  {
    RephasedKeepsValid(s, Finish(s, id), id);
  }

  lemma EndKeepsValid(s: State, id: Id, status: Status)
    requires Valid(s) && status != Authenticated
    requires id < |s.ops| && s.ops[id].phase in {Fetching, Reading}
    ensures Valid(End(s, id, status))
  {
    ViewKeepsValid(s, Clear(s, status));
    FinishKeepsValid(s, id);
    FinishKeepsValid(Clear(s, status), id);
  }

  lemma SameOpsKeepQueue(s: State, t: State)
    requires Chained(s) && InOrder(s) && t.ops == s.ops && t.queue == s.queue
    ensures Chained(t) && InOrder(t)
  {
    forall i: Id ensures QueuedAt(t, i) <==> QueuedAt(s, i) {
    }
  }

  lemma SettleKeepsValid(s: State, id: Id)
    requires Valid(s)
    ensures Valid(AfterSettle(s, id))
  {
    var t := AfterSettle(s, id);
    SameOpsKeepQueue(s, t);
    SettleKeepsFlights(s, t, id);
  }

  lemma SettleKeepsFlights(s: State, t: State, id: Id)
    requires Remembered(s) && LogoutIsLast(s) && t == AfterSettle(s, id)
    ensures Remembered(t) && LogoutIsLast(t)
  {
    forall i: Id ensures Flying(t, i) <==> Flying(s, i) {
    }
  }

  lemma DiscardKeepsValid(s: State, status: Status)
    requires Valid(s) && status != Authenticated
    ensures Valid(Discard(s, status))
  {
    var t := Discard(s, status);
    SameOpsKeepQueue(s, t);
    forall i: Id ensures !Flying(t, i) {
    }
  }

  lemma StepKeepsValid(s: State, e: Event)
    requires Valid(s)
    ensures Valid(Apply(s, e))
  {
    match e
    case Call(kind, now) => CallKeepsValid(s, kind, now);
    case Start(id, now) => StartKeepsValid(s, id, now);
    case Respond(id, reply) => RespondKeepsValid(s, id, reply);
    case ReadBody(id, body, now) => ReadBodyKeepsValid(s, id, body, now);
    case Settle(id) => SettleKeepsValid(s, id);
    case Forget => DiscardKeepsValid(s, Unknown);
    case Hear(notice) => DiscardKeepsValid(s, if notice.PeerSignedOut? then SignedOut else Unknown);
    case Confirm(_, _) => DiscardKeepsValid(s, Unknown);
  }

  lemma {:induction false} RunKeepsValid(s: State, events: seq<Event>)
    requires Valid(s)
    ensures Valid(Run(s, events))
    decreases |events|
  {
    if events != [] {
      StepKeepsValid(s, events[0]);
      RunKeepsValid(Apply(s, events[0]), events[1..]);
    }
  }
}
