/** The session client's fields and the steps that reassign them. */
module SessionClient {
  import opened Wrappers
  import opened ClientModel
  import opened ClientInvariants

  class ServerSessionClient {
    var session: Option<Session>
    var csrf: Option<Proof>
    var status: Status
    var epoch: nat
    var revision: nat
    var queue: Option<Id>
    /** The shared recovery, renewal and logout, while each is pending. */
    var flights: map<Kind, Id>
    var ops: seq<Op>

    function Now(): State
      reads this
    {
      State(session, csrf, status, epoch, revision, queue, flights, ops)
    }

    constructor ()
      ensures Now() == INITIAL && Valid(Now())
    {
      session, csrf, status := None, None, Unknown;
      epoch, revision, queue, flights, ops := 0, 0, None, map[], [];
      new;
      InitialIsValid();
    }

    method ClearTo(next: Status)
      modifies this
      ensures Now() == Clear(old(Now()), next)
    {
      session := None;
      csrf := None;
      status := next;
      revision := revision + 1;
    }

    method Release(next: Status)
      modifies this
      ensures Now() == Discard(old(Now()), next)
    {
      epoch := epoch + 1;
      flights := map[];
      ClearTo(next);
    }

    method Forgets()
      requires Valid(Now())
      modifies this
      ensures Valid(Now()) && Now() == Apply(old(Now()), Forget)
    {
      StepKeepsValid(Now(), Forget);
      Release(Unknown);
    }

    method OnNotice(notice: Notice)
      requires Valid(Now())
      modifies this
      ensures Valid(Now()) && Now() == Apply(old(Now()), Hear(notice))
    {
      StepKeepsValid(Now(), Hear(notice));
      Release(if notice.PeerSignedOut? then SignedOut else Unknown);
    }

    method ConfirmIssuedProof(proof: Proof, expires: int) returns (matches: bool)
      requires Valid(Now())
      modifies this
      ensures Valid(Now()) && Now() == Apply(old(Now()), Confirm(proof, expires))
      ensures matches <==> Confirms(old(Now()), proof, expires)
    {
      StepKeepsValid(Now(), Confirm(proof, expires));
      matches := session.Some? && session.value.expires == expires && csrf == Some(proof);
      if !matches {
        Release(Unknown);
      }
    }

    method Require(now: int) returns (held: bool)
      modifies this
      ensures Now() == Required(old(Now()), now)
      ensures held <==> Usable(old(Now()), now)
    {
      if session.None? || csrf.None? {
        return false;
      }
      if session.value.expires <= now {
        ClearTo(SignedOut);
        return false;
      }
      held := true;
    }

    method SetPhase(id: Id, phase: Phase)
      requires id < |ops|
      modifies this`ops
      ensures Now() == Move(old(Now()), id, phase)
    {
      ops := ops[id := ops[id].(phase := phase)];
    }

    /** Recover, renew, log out or send a request. */
    method Ask(kind: Kind, now: int) returns (id: Option<Id>)
      requires Valid(Now())
      modifies this
      ensures Valid(Now()) && Now() == Apply(old(Now()), Call(kind, now))
      ensures id.None? <==> !Shared(kind) && Logout in old(flights)
      ensures id.Some? && Shared(kind) && kind in old(flights) ==> id.value == old(flights)[kind]
    {
      CallIsAdded(Now(), kind, now);
      if Shared(kind) && kind in flights {
        return Some(flights[kind]);
      }
      if !Shared(kind) && Logout in flights {
        return None;
      }
      var added := |ops|;
      Add(kind);
      if kind == Read {
        Resume(added, now);
      }
      id := Some(added);
    }

    method Add(kind: Kind)
      requires Valid(Now()) && Accepted(Now(), kind)
      modifies this
      ensures Valid(Now()) && Now() == Added(old(Now()), kind)
    {
      AddedIsValid(Now(), kind);
      var id := |ops|;
      ops := ops + [Op(kind, epoch, if Queued(kind) then queue else None, Waiting, None, None, 0)];
      if Queued(kind) {
        queue := Some(id);
      }
      if Shared(kind) {
        flights := flights[kind := id];
      }
    }

    /** The first turn of an operation, up to the network. */
    method Resume(id: Id, now: int)
      requires Valid(Now())
      modifies this
      ensures Valid(Now()) && Now() == Apply(old(Now()), Start(id, now))
    {
      StepKeepsValid(Now(), Start(id, now));
      if id >= |ops| || !Ready(Now(), id) {
        return;
      }
      if ops[id].epoch != epoch {
        SetPhase(id, Done);
        return;
      }
      if ops[id].kind != Recover {
        var held := Require(now);
        if !held {
          SetPhase(id, Done);
          return;
        }
      }
      ops := ops[id := ops[id].(phase := Fetching, session := session, csrf := csrf, revision := revision)];
    }

    /** An operation fails or finishes; the session is cleared if it is still its own. */
    method Close(id: Id, next: Status)
      requires id < |ops|
      modifies this
      ensures Now() == End(old(Now()), id, next)
    {
      if ops[id].epoch == epoch {
        ClearTo(next);
      }
      SetPhase(id, Done);
    }

    method OnResponse(id: Id, reply: Reply)
      requires Valid(Now())
      modifies this
      ensures Valid(Now()) && Now() == Apply(old(Now()), Respond(id, reply))
    {
      StepKeepsValid(Now(), Respond(id, reply));
      if id >= |ops| || ops[id].phase != Fetching {
        return;
      }
      match ops[id].kind
      case Recover => OnAnswer(id, reply);
      case Renew => OnAnswer(id, reply);
      case Logout => Close(id, if reply == Answer(204) then SignedOut else Unavailable);
      case _ =>
        if reply == Answer(401) && session.Some? && ops[id].revision == revision {
          Close(id, SignedOut);
        } else {
          SetPhase(id, Done);
        }
    }

    method OnAnswer(id: Id, reply: Reply)
      requires id < |ops|
      modifies this
      ensures Now() == AfterAnswer(old(Now()), id, reply)
    {
      if reply.NoAnswer? {
        Close(id, Unavailable);
      } else if epoch == ops[id].epoch && Good(reply.code) {
        SetPhase(id, Reading);
      } else {
        Close(id, if reply.code == 401 then SignedOut else Unavailable);
      }
    }

    method OnBody(id: Id, body: Body, now: int)
      requires Valid(Now())
      modifies this
      ensures Valid(Now()) && Now() == Apply(old(Now()), ReadBody(id, body, now))
    {
      StepKeepsValid(Now(), ReadBody(id, body, now));
      if id >= |ops| || ops[id].phase != Reading {
        return;
      }
      if ops[id].epoch != epoch {
        SetPhase(id, Done);
      } else if ops[id].kind == Recover && body.Recovered? {
        OnRecovered(id, body.session, body.csrf, now);
      } else if ops[id].kind == Renew && RenewalMatches(ops[id], body) {
        csrf := if body.rotated then body.renewal else ops[id].csrf;
        revision := revision + 1;
        SetPhase(id, Done);
      } else {
        Close(id, Unavailable);
      }
    }

    /** Take a recovered session, unless it has already expired. */
    method OnRecovered(id: Id, next: Session, proof: Proof, now: int)
      requires id < |ops|
      modifies this
      ensures Now() == AfterRecovered(old(Now()), id, next, proof, now)
    {
      session, csrf, status := Some(next), Some(proof), Authenticated;
      revision := revision + 1;
      var held := Require(now);
      if held {
        SetPhase(id, Done);
      } else {
        Close(id, Unavailable);
      }
    }

    method OnSettled(id: Id)
      requires Valid(Now())
      modifies this`flights
      ensures Valid(Now()) && Now() == Apply(old(Now()), Settle(id))
    {
      StepKeepsValid(Now(), Settle(id));
      if id < |ops| && ops[id].phase == Done && ops[id].kind in flights && flights[ops[id].kind] == id {
        flights := flights - {ops[id].kind};
      }
    }
  }
}
