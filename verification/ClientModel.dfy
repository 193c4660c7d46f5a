/**
 * The browser's session client: its fields, its pending operations, and what one turn of
 * the event loop does to them.
 *
 * A step is the code between two awaits. Steps of different operations interleave freely;
 * only the queue keeps an operation from starting before the one queued in front of it
 * has settled.
 */
module ClientModel {
  import opened Wrappers

  type Id = nat
  type Proof = nat

  datatype Session = Session(profile: nat, expires: int)
  datatype Status = Unknown | Authenticated | SignedOut | Unavailable
  datatype Kind = Recover | Renew | Logout | Read | Write
  datatype Phase = Waiting | Fetching | Reading | Done

  /** One call: the epoch it began in, the operation it waits for, and what it was sent under. */
  datatype Op = Op(kind: Kind, epoch: nat, after: Option<Id>, phase: Phase,
                   session: Option<Session>, csrf: Option<Proof>, revision: nat)

  datatype State = State(
    session: Option<Session>,
    csrf: Option<Proof>,
    status: Status,
    epoch: nat,
    revision: nat,
    queue: Option<Id>,
    flights: map<Kind, Id>,
    ops: seq<Op>)

  const INITIAL := State(None, None, Unknown, 0, 0, None, map[], [])

  datatype Reply = NoAnswer | Answer(code: nat)
  datatype Body = Unreadable | Recovered(session: Session, csrf: Proof)
                | Renewed(rotated: bool, expires: int, renewal: Option<Proof>)
  datatype Notice = ProofStale | PeerSignedOut

  datatype Event =
    | Call(kind: Kind, now: int)
    | Start(id: Id, now: int)
    | Respond(id: Id, reply: Reply)
    | ReadBody(id: Id, body: Body, now: int)
    | Settle(id: Id)
    | Forget
    | Hear(notice: Notice)
    | Confirm(csrf: Proof, expires: int)

  predicate Queued(kind: Kind) { kind != Read }

  /** The kinds of which one call at a time is shared by everyone who asks. */
  predicate Shared(kind: Kind) { kind == Recover || kind == Renew || kind == Logout }

  predicate Good(code: nat) { 200 <= code < 300 }

  // ---- pieces ---------------------------------------------------------------------

  function Clear(s: State, status: Status): State {
    s.(session := None, csrf := None, status := status, revision := s.revision + 1)
  }

  predicate Holds(s: State) { s.session.Some? && s.csrf.Some? }

  predicate Usable(s: State, now: int) { Holds(s) && now < s.session.value.expires }

  /** Demanding a session clears one that has expired. */
  function Required(s: State, now: int): State {
    if Holds(s) && !Usable(s, now) then Clear(s, SignedOut) else s
  }

  function Finish(s: State, id: Id): State
    requires id < |s.ops|
  {
    s.(ops := s.ops[id := s.ops[id].(phase := Done)])
  }

  function Move(s: State, id: Id, phase: Phase): State
    requires id < |s.ops|
  {
    s.(ops := s.ops[id := s.ops[id].(phase := phase)])
  }

  /** An operation ends; it may still change the session only in its own epoch. */
  function End(s: State, id: Id, status: Status): State
    requires id < |s.ops|
  {
    Finish(if s.ops[id].epoch == s.epoch then Clear(s, status) else s, id)
  }

  function Discard(s: State, status: Status): State {
    Clear(s.(epoch := s.epoch + 1, flights := map[]), status)
  }

  function Send(s: State, id: Id): State
    requires id < |s.ops|
  {
    s.(ops := s.ops[id := s.ops[id].(phase := Fetching, session := s.session, csrf := s.csrf,
                                     revision := s.revision)])
  }

  // ---- steps ----------------------------------------------------------------------

  function AfterCall(s: State, kind: Kind, now: int): State {
    if Shared(kind) && kind in s.flights then s
    else if !Shared(kind) && Logout in s.flights then s
    else
      var id := |s.ops|;
      var added := s.(ops := s.ops + [Op(kind, s.epoch, if Queued(kind) then s.queue else None,
                                         Waiting, None, None, 0)]);
      if kind == Read then AfterStart(added, id, now)
      else added.(queue := Some(id), flights := if Shared(kind) then s.flights[kind := id] else s.flights)
  }

  predicate Ready(s: State, id: Id)
    requires id < |s.ops|
  {
    var op := s.ops[id];
    op.phase == Waiting &&
    (op.after.Some? ==> op.after.value < |s.ops| && s.ops[op.after.value].phase == Done)
  }

  function AfterStart(s: State, id: Id, now: int): State {
    if id >= |s.ops| || !Ready(s, id) then s
    else if s.ops[id].epoch != s.epoch then Finish(s, id)
    else if s.ops[id].kind == Recover then Send(s, id)
    else if Usable(s, now) then Send(s, id)
    else Finish(Required(s, now), id)
  }

  /** A recovery or renewal goes on to its body only on success in its own epoch. */
  function AfterAnswer(s: State, id: Id, reply: Reply): State
    requires id < |s.ops|
  {
    if reply.NoAnswer? then End(s, id, Unavailable)
    else if s.ops[id].epoch == s.epoch && Good(reply.code) then Move(s, id, Reading)
    else End(s, id, if reply.code == 401 then SignedOut else Unavailable)
  }

  function AfterRespond(s: State, id: Id, reply: Reply): State {
    if id >= |s.ops| || s.ops[id].phase != Fetching then s
    else
      var op := s.ops[id];
      match op.kind
      case Recover => AfterAnswer(s, id, reply)
      case Renew => AfterAnswer(s, id, reply)
      case Logout =>
        End(s, id, if reply == Answer(204) then SignedOut else Unavailable)
      case _ =>
        if s.session.Some? && reply == Answer(401) && op.revision == s.revision then End(s, id, SignedOut)
        else Finish(s, id)
  }

  predicate RenewalMatches(op: Op, body: Body) {
    body.Renewed? && op.session.Some? && body.expires == op.session.value.expires &&
    (body.rotated <==> body.renewal.Some?)
  }

  /** A recovered session is taken, and given up again if it has already expired. */
  function AfterRecovered(s: State, id: Id, session: Session, csrf: Proof, now: int): State
    requires id < |s.ops|
  {
    var taken := s.(session := Some(session), csrf := Some(csrf), status := Authenticated,
                    revision := s.revision + 1);
    if Usable(taken, now) then Finish(taken, id) else End(Required(taken, now), id, Unavailable)
  }

  function AfterRenewed(s: State, id: Id, body: Body): State
    requires id < |s.ops| && body.Renewed?
  {
    Finish(s.(csrf := if body.rotated then body.renewal else s.ops[id].csrf, revision := s.revision + 1), id)
  }

  function AfterReadBody(s: State, id: Id, body: Body, now: int): State {
    if id >= |s.ops| || s.ops[id].phase != Reading then s
    else
      var op := s.ops[id];
      if op.epoch != s.epoch then Finish(s, id)
      else if op.kind == Recover && body.Recovered? then AfterRecovered(s, id, body.session, body.csrf, now)
      else if op.kind == Renew && RenewalMatches(op, body) then AfterRenewed(s, id, body)
      else End(s, id, Unavailable)
  }

  /** The shared call is forgotten once it has settled. */
  function AfterSettle(s: State, id: Id): State {
    if id < |s.ops| && s.ops[id].phase == Done && s.ops[id].kind in s.flights && s.flights[s.ops[id].kind] == id
    then s.(flights := s.flights - {s.ops[id].kind}) else s
  }

  predicate Confirms(s: State, csrf: Proof, expires: int) {
    Holds(s) && s.csrf.value == csrf && s.session.value.expires == expires
  }

  function AfterHear(s: State, notice: Notice): State {
    Discard(s, if notice.PeerSignedOut? then SignedOut else Unknown)
  }

  function Apply(s: State, e: Event): State {
    match e
    case Call(kind, now) => AfterCall(s, kind, now)
    case Start(id, now) => AfterStart(s, id, now)
    case Respond(id, reply) => AfterRespond(s, id, reply)
    case ReadBody(id, body, now) => AfterReadBody(s, id, body, now)
    case Settle(id) => AfterSettle(s, id)
    case Forget => Discard(s, Unknown)
    case Hear(notice) => AfterHear(s, notice)
    case Confirm(csrf, expires) => if Confirms(s, csrf, expires) then s else Discard(s, Unknown)
  }

  function Run(s: State, events: seq<Event>): State
    decreases |events|
  {
    if events == [] then s else Run(Apply(s, events[0]), events[1..])
  }

  /** What the page sees of the session. */
  datatype View = View(session: Option<Session>, csrf: Option<Proof>, status: Status, revision: nat, epoch: nat)

  function ViewOf(s: State): View { View(s.session, s.csrf, s.status, s.revision, s.epoch) }

  // ---- the invariant ----------------------------------------------------------------

  ghost predicate HeldTogether(s: State) {
    && (s.session.Some? <==> s.status == Authenticated)
    && (s.session.Some? ==> s.csrf.Some?)
  }

  ghost predicate QueuedAt(s: State, i: Id) { i < |s.ops| && Queued(s.ops[i].kind) }

  /** Each queued operation waits for the one queued just before it. */
  ghost predicate Chained(s: State) {
    && (s.queue.None? ==> forall i: Id :: !QueuedAt(s, i))
    && (s.queue.Some? ==> QueuedAt(s, s.queue.value) && forall i: Id | QueuedAt(s, i) :: i <= s.queue.value)
    && (forall j: Id | QueuedAt(s, j) && s.ops[j].after.None? :: forall i: Id | QueuedAt(s, i) :: j <= i)
    && (forall j: Id | QueuedAt(s, j) && s.ops[j].after.Some? ::
          var a := s.ops[j].after.value;
          QueuedAt(s, a) && a < j && forall i: Id | QueuedAt(s, i) && i < j :: i <= a)
  }

  /** An operation leaves the queue's front only after all before it are done. */
  ghost predicate InOrder(s: State) {
    forall i: Id, j: Id | QueuedAt(s, i) && QueuedAt(s, j) && i < j && s.ops[j].phase != Waiting ::
      s.ops[i].phase == Done
  }

  ghost predicate Flying(s: State, i: Id) {
    i < |s.ops| && Shared(s.ops[i].kind) && s.ops[i].epoch == s.epoch && s.ops[i].phase != Done
  }

  /** The unfinished shared calls of this epoch are those the client remembers. */
  ghost predicate Remembered(s: State) {
    && (forall k | k in s.flights ::
          Shared(k) && s.flights[k] < |s.ops| && s.ops[s.flights[k]].kind == k
          && s.ops[s.flights[k]].epoch == s.epoch)
    && (forall i: Id | Flying(s, i) :: s.ops[i].kind in s.flights && s.flights[s.ops[i].kind] == i)
  }

  /** What an operation was sent under is still held if the revision has not moved. */
  ghost predicate SentUnder(s: State) {
    && (forall i: Id | i < |s.ops| :: s.ops[i].epoch <= s.epoch)
    && (forall i: Id | i < |s.ops| && s.ops[i].phase in {Fetching, Reading} ::
          && s.ops[i].revision <= s.revision
          && (s.ops[i].revision == s.revision ==> s.ops[i].session == s.session && s.ops[i].csrf == s.csrf)
          && (s.ops[i].kind != Recover ==> s.ops[i].session.Some? && s.ops[i].csrf.Some?)
          && (s.ops[i].phase == Reading ==> s.ops[i].kind in {Recover, Renew}))
  }

  /** No request of this epoch was made after an unfinished logout. */
  ghost predicate LogoutIsLast(s: State) {
    forall i: Id, j: Id | Flying(s, i) && s.ops[i].kind == Logout && i < j < |s.ops| && s.ops[j].epoch == s.epoch ::
      Shared(s.ops[j].kind)
  }

  ghost predicate Valid(s: State) {
    HeldTogether(s) && Chained(s) && InOrder(s) && Remembered(s) && SentUnder(s) && LogoutIsLast(s)
  }
}
