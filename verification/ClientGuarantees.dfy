/** What the session client promises in every interleaving of its operations. */
module ClientGuarantees {
  import opened Wrappers
  import opened ClientModel
  import opened ClientInvariants

  // ---- the queue --------------------------------------------------------------------

  predicate Running(s: State, i: Id) {
    i < |s.ops| && s.ops[i].phase in {Fetching, Reading}
  }

  /** Queued operations run one at a time and in the order they were made. */
  lemma QueueIsSerial(events: seq<Event>, i: Id, j: Id)
    ensures var s := Run(INITIAL, events);
            && (QueuedAt(s, i) && QueuedAt(s, j) && Running(s, i) && Running(s, j) ==> i == j)
            && (QueuedAt(s, i) && QueuedAt(s, j) && i < j && s.ops[j].phase != Waiting ==> s.ops[i].phase == Done)
  {
    InitialIsValid();
    RunKeepsValid(INITIAL, events);
  }

  /** At most one unfinished recovery, renewal and logout of the current epoch. */
  lemma SharedCallsAreUnique(events: seq<Event>, i: Id, j: Id)
    ensures var s := Run(INITIAL, events);
            Flying(s, i) && Flying(s, j) && s.ops[i].kind == s.ops[j].kind ==> i == j
  {
    InitialIsValid();
    RunKeepsValid(INITIAL, events);
  }

  // ---- operations only move on ------------------------------------------------------

  function Rank(phase: Phase): nat {
    match phase
    case Waiting => 0
    case Fetching => 1
    case Reading => 2
    case Done => 3
  }

  ghost predicate MovesOn(s: State, t: State) {
    && |s.ops| <= |t.ops| && s.epoch <= t.epoch
    && forall i | 0 <= i < |s.ops| ::
         t.ops[i].kind == s.ops[i].kind && t.ops[i].epoch == s.ops[i].epoch
         && Rank(s.ops[i].phase) <= Rank(t.ops[i].phase)
  }

  lemma StepMovesOn(s: State, e: Event)
    ensures MovesOn(s, Apply(s, e))
  {
    match e
    case Call(kind, now) => CallMovesOn(s, kind, now);
    case Respond(id, reply) => RespondMovesOn(s, id, reply);
    case ReadBody(id, body, now) => BodyMovesOn(s, id, body, now);
    case _ =>
  }

  lemma CallMovesOn(s: State, kind: Kind, now: int)
    ensures MovesOn(s, AfterCall(s, kind, now))
  {
  }

  lemma RespondMovesOn(s: State, id: Id, reply: Reply)
    ensures MovesOn(s, AfterRespond(s, id, reply))
  {
  }

  lemma BodyMovesOn(s: State, id: Id, body: Body, now: int)
    ensures MovesOn(s, AfterReadBody(s, id, body, now))
  {
  }

  lemma {:induction false} RunMovesOn(s: State, events: seq<Event>)
    ensures MovesOn(s, Run(s, events))
    decreases |events|
  {
    if events != [] {
      var t := Apply(s, events[0]);
      StepMovesOn(s, events[0]);
      RunMovesOn(t, events[1..]);
      forall i | 0 <= i < |s.ops|
        ensures Rank(s.ops[i].phase) <= Rank(t.ops[i].phase) <= Rank(Run(s, events).ops[i].phase)
      {
      }
    }
  }

  /** The step in which an operation hands its request to the network. */
  predicate Sends(s: State, e: Event, id: Id) {
    var t := Apply(s, e);
    id < |t.ops| && t.ops[id].phase == Fetching && (id < |s.ops| ==> s.ops[id].phase == Waiting)
  }

  function SendsIn(s: State, events: seq<Event>, id: Id): nat
    decreases |events|
  {
    if events == [] then 0
    else (if Sends(s, events[0], id) then 1 else 0) + SendsIn(Apply(s, events[0]), events[1..], id)
  }

  /** No operation is ever sent twice. */
  lemma {:induction false} SentAtMostOnce(s: State, events: seq<Event>, id: Id)
    ensures SendsIn(s, events, id) <= 1
    ensures id < |s.ops| && s.ops[id].phase != Waiting ==> SendsIn(s, events, id) == 0
    decreases |events|
  {
    if events != [] {
      StepMovesOn(s, events[0]);
      SentAtMostOnce(Apply(s, events[0]), events[1..], id);
    }
  }

  // ---- epochs -------------------------------------------------------------------------

  /** The operation whose continuation this step is. */
  function About(e: Event): Option<Id> {
    match e
    case Start(id, _) => Some(id)
    case Respond(id, _) => Some(id)
    case ReadBody(id, _, _) => Some(id)
    case Settle(id) => Some(id)
    case _ => None
  }

  lemma StaleStepIsInert(s: State, e: Event, id: Id)
    requires Valid(s) && About(e) == Some(id) && id < |s.ops| && s.ops[id].epoch < s.epoch
    ensures ViewOf(Apply(s, e)) == ViewOf(s)
  {
  }

  predicate Discards(s: State, e: Event) {
    match e
    case Forget => true
    case Hear(_) => true
    case Confirm(csrf, expires) => !Confirms(s, csrf, expires)
    case _ => false
  }

  /** Whatever was begun before the page let go of its session never touches it again. */
  lemma NothingOldSpeaks(before: seq<Event>, discard: Event, after: seq<Event>, e: Event, id: Id)
    requires var s := Run(INITIAL, before); Discards(s, discard) && id < |s.ops| && About(e) == Some(id)
    ensures var t := Run(Apply(Run(INITIAL, before), discard), after);
            ViewOf(Apply(t, e)) == ViewOf(t)
  {
    var s := Run(INITIAL, before);
    InitialIsValid();
    RunKeepsValid(INITIAL, before);
    StepKeepsValid(s, discard);
    var gone := Apply(s, discard);
    RunKeepsValid(gone, after);
    RunMovesOn(gone, after);
    assert gone.ops[id].epoch < gone.epoch;
    StaleStepIsInert(Run(gone, after), e, id);
  }

  // ---- session and proof ------------------------------------------------------------

  /** A session is held exactly when authenticated, and then with a proof. */
  lemma SessionMeansProof(events: seq<Event>)
    ensures HeldTogether(Run(INITIAL, events))
  {
    InitialIsValid();
    RunKeepsValid(INITIAL, events);
  }

  predicate RenewsAlone(s: State, e: Event) {
    e.ReadBody? && e.id < |s.ops| && s.session.None? &&
    var op := s.ops[e.id];
    op.phase == Reading && op.epoch == s.epoch && op.kind == Renew && RenewalMatches(op, e.body)
  }

  predicate Together(s: State) { s.csrf.Some? <==> s.session.Some? }

  /** A proof comes to be held without a session just when a renewal ends after its session is gone. */
  lemma ProofAloneExactly(s: State, e: Event)
    requires Valid(s) && Together(s)
    ensures Together(Apply(s, e)) <==> !RenewsAlone(s, e)
  {
    match e
    case Respond(id, reply) => RespondKeepsTogether(s, id, reply);
    case ReadBody(id, body, now) => BodyKeepsTogether(s, id, body, now);
    case _ =>
  }

  predicate TogetherAlong(s: State, events: seq<Event>)
    decreases |events|
  {
    Together(s) && (events != [] ==> TogetherAlong(Apply(s, events[0]), events[1..]))
  }

  predicate RenewedAlone(s: State, events: seq<Event>)
    decreases |events|
  {
    events != [] && (RenewsAlone(s, events[0]) || RenewedAlone(Apply(s, events[0]), events[1..]))
  }

  /** Session and proof are held together in every state of a run exactly when no renewal in it
      ends after its session is gone. */
  lemma {:induction false} ProofAloneAlong(s: State, events: seq<Event>)
    requires Valid(s) && Together(s)
    ensures TogetherAlong(s, events) <==> !RenewedAlone(s, events)
    decreases |events|
  {
    if events != [] {
      ProofAloneExactly(s, events[0]);
      StepKeepsValid(s, events[0]);
      if Together(Apply(s, events[0])) {
        ProofAloneAlong(Apply(s, events[0]), events[1..]);
      }
    }
  }

  lemma RespondKeepsTogether(s: State, id: Id, reply: Reply)
    requires Together(s)
    ensures Together(AfterRespond(s, id, reply))
  {
  }

  lemma BodyKeepsTogether(s: State, id: Id, body: Body, now: int)
    requires Valid(s) && Together(s)
    ensures Together(AfterReadBody(s, id, body, now)) <==> !RenewsAlone(s, ReadBody(id, body, now))
  {
  }

  const SIGN_IN: seq<Event> := [
    Call(Recover, 0), Start(0, 0), Respond(0, Answer(200)), ReadBody(0, Recovered(Session(1, 10), 7), 0), Settle(0)]

  const SIGNED_IN := State(Some(Session(1, 10)), Some(7), Authenticated, 0, 1, Some(0), map[],
                           [Op(Recover, 0, None, Done, None, None, 0)])

  const RENEW_AND_READ: seq<Event> := [
    Call(Renew, 0), Start(1, 0), Call(Read, 0), Respond(1, Answer(200)), Respond(2, Answer(401)),
    ReadBody(1, Renewed(true, 10, Some(8)), 0)]

  lemma SignsIn()
    ensures Run(INITIAL, SIGN_IN) == SIGNED_IN
  {
    var s1 := Apply(INITIAL, SIGN_IN[0]);
    var s2 := Apply(s1, SIGN_IN[1]);
    var s3 := Apply(s2, SIGN_IN[2]);
    var s4 := Apply(s3, SIGN_IN[3]);
    var s5 := Apply(s4, SIGN_IN[4]);
    assert s5 == SIGNED_IN;
    assert Run(s5, SIGN_IN[5..]) == s5;
    RunFrom(s4, SIGN_IN, 4);
    RunFrom(s3, SIGN_IN, 3);
    RunFrom(s2, SIGN_IN, 2);
    RunFrom(s1, SIGN_IN, 1);
    RunFrom(INITIAL, SIGN_IN, 0);
    assert SIGN_IN[0..] == SIGN_IN;
  }

  lemma RunFrom(s: State, events: seq<Event>, k: nat)
    requires k < |events|
    ensures Run(s, events[k..]) == Run(Apply(s, events[k]), events[k + 1..])
  {
    assert events[k..][1..] == events[k + 1..];
  }

  lemma RenewalOutlivesSession()
    ensures var s := Run(SIGNED_IN, RENEW_AND_READ);
            s.session.None? && s.csrf == Some(8) && s.status == SignedOut
  {
    var s1 := Apply(SIGNED_IN, RENEW_AND_READ[0]);
    var s2 := Apply(s1, RENEW_AND_READ[1]);
    var s3 := Apply(s2, RENEW_AND_READ[2]);
    var s4 := Apply(s3, RENEW_AND_READ[3]);
    var s5 := Apply(s4, RENEW_AND_READ[4]);
    assert s5.session.None? && s5.ops[1].phase == Reading;
    var s6 := Apply(s5, RENEW_AND_READ[5]);
    assert Run(s6, RENEW_AND_READ[6..]) == s6;
    RunFrom(s5, RENEW_AND_READ, 5);
    RunFrom(s4, RENEW_AND_READ, 4);
    RunFrom(s3, RENEW_AND_READ, 3);
    RunFrom(s2, RENEW_AND_READ, 2);
    RunFrom(s1, RENEW_AND_READ, 1);
    RunFrom(SIGNED_IN, RENEW_AND_READ, 0);
    assert RENEW_AND_READ[0..] == RENEW_AND_READ;
  }

  /** A read refused while a renewal is under way leads there. */
  lemma ProofAloneHappens()
    ensures var s := Run(Run(INITIAL, SIGN_IN), RENEW_AND_READ);
            s.session.None? && s.csrf == Some(8) && s.status == SignedOut
  {
    SignsIn();
    RenewalOutlivesSession();
  }

  /** Only a recovery of the current epoch brings a session in. */
  lemma SessionComesFromRecovery(s: State, e: Event)
    requires Valid(s) && Apply(s, e).session.Some? && Apply(s, e).session != s.session
    ensures e.ReadBody? && e.id < |s.ops| && s.ops[e.id].kind == Recover && s.ops[e.id].epoch == s.epoch
    ensures e.body.Recovered? && Apply(s, e).session == Some(e.body.session) && Apply(s, e).csrf == Some(e.body.csrf)
    ensures e.now < e.body.session.expires
  {
    match e
    case Respond(id, reply) => RespondBringsNothing(s, id, reply);
    case Call(kind, now) => CallBringsNothing(s, kind, now);
    case Start(id, now) => StartBringsNothing(s, id, now);
    case _ =>
  }

  lemma RespondBringsNothing(s: State, id: Id, reply: Reply)
    ensures var t := AfterRespond(s, id, reply); t.session.None? || t.session == s.session
  {
  }

  lemma StartBringsNothing(s: State, id: Id, now: int)
    ensures var t := AfterStart(s, id, now); t.session.None? || t.session == s.session
  {
  }

  lemma CallBringsNothing(s: State, kind: Kind, now: int)
    ensures var t := AfterCall(s, kind, now); t.session.None? || t.session == s.session
  {
  }

  /** A refused request signs the page out only of the very session it was sent under. */
  lemma RequestClearsOnlyItsOwn(s: State, id: Id, reply: Reply)
    requires Valid(s) && id < |s.ops| && s.ops[id].kind in {Read, Write}
    ensures var t, op := AfterRespond(s, id, reply), s.ops[id];
            ViewOf(t) != ViewOf(s) ==>
              && reply == Answer(401) && s.session == op.session && s.csrf == op.csrf && s.session.Some?
              && t.session.None? && t.csrf.None? && t.status == SignedOut
  {
  }

  // ---- logout -----------------------------------------------------------------------

  /** When a logout is answered, no write of its epoch is still to come or under way. */
  lemma NoWriteOutlivesLogout(events: seq<Event>, id: Id)
    requires var s := Run(INITIAL, events); Flying(s, id) && s.ops[id].kind == Logout && s.ops[id].phase == Fetching
    ensures var s := Run(INITIAL, events);
            forall j: Id | j < |s.ops| && s.ops[j].kind == Write && s.ops[j].epoch == s.epoch :: s.ops[j].phase == Done
    ensures var t := AfterRespond(Run(INITIAL, events), id, Answer(204));
            t.session.None? && t.csrf.None? && t.status == SignedOut
  {
    InitialIsValid();
    RunKeepsValid(INITIAL, events);
    var s := Run(INITIAL, events);
    forall j: Id | j < |s.ops| && s.ops[j].kind == Write && s.ops[j].epoch == s.epoch ensures s.ops[j].phase == Done {
      assert QueuedAt(s, j) && QueuedAt(s, id);
    }
  }
}
