/**
 * Browser sessions and the team they belong to, as one state and its transactions.
 *
 * Tokens are abstract and never repeat, so a token names its row. A row also carries the
 * role its membership had when the family was issued; only the statements below read it.
 */
module SessionModel {
  import opened Wrappers

  const LIFETIME := 28_800
  const IDLE_TIMEOUT := 1_800
  const TOUCH_INTERVAL := 300
  const ROTATION_INTERVAL := 3_600
  const MAX_ACTIVE := 8
  const MAX_GENERATION := 16
  const MAX_TEAM_MEMBERS := 1_000

  type Token = nat
  type MemberId = nat

  datatype Role = Owner | Admin | Operator | Auditor | Viewer

  datatype Member = Member(subject: string, role: Role, active: bool, userActive: bool)

  datatype Row = Row(
    family: nat,
    generation: nat,
    member: MemberId,
    role: Role,
    issued: int,
    seen: int,
    expires: int,
    replaced: Option<int>,
    revoked: Option<int>)

  type Rows = map<Token, Row>

  datatype State = State(
    rows: Rows,
    members: map<MemberId, Member>,
    clock: int,
    nextToken: nat,
    nextFamily: nat,
    nextMember: nat)

  /** One committed transaction, or the clock moving on. A transaction reads the clock before
      it waits for its locks, so the time it works with may have passed when it commits. */
  datatype Step =
    | Advance(to: int)
    | Issue(member: MemberId, evicted: set<Token>, at: int)
    | Touch(token: Token, at: int)
    | Rotate(token: Token, proof: Token, at: int)
    | Revoke(token: Token, at: int)
    | RevokeMember(member: MemberId, at: int)
    | Purge(cutoff: int, removed: set<Token>)
    | Provision(actor: MemberId, subject: string, role: Role)
    | Change(actor: MemberId, member: MemberId, role: Role, active: bool, at: int)
    | Transfer(actor: MemberId, member: MemberId, at: int, later: int)

  // ---- reading --------------------------------------------------------------------

  predicate Open(r: Row) { r.replaced.None? && r.revoked.None? }

  predicate IsActive(r: Row, now: int) {
    Open(r) && r.issued <= now && r.seen <= now && r.expires > now && r.seen + IDLE_TIMEOUT > now
  }

  predicate Acts(members: map<MemberId, Member>, m: MemberId) {
    m in members && members[m].active && members[m].userActive
  }

  /** The token is accepted as authentication at this time. */
  predicate Resolves(s: State, token: Token, now: int) {
    token in s.rows && Acts(s.members, s.rows[token].member) && IsActive(s.rows[token], now)
  }

  predicate MayManage(s: State, m: MemberId) {
    Acts(s.members, m) && (s.members[m].role == Owner || s.members[m].role == Admin)
  }

  predicate MayTransfer(s: State, m: MemberId) {
    Acts(s.members, m) && s.members[m].role == Owner
  }

  // ---- transactions ---------------------------------------------------------------

  /** Revoke every unrevoked row of these families. */
  function RevokeFamilies(rows: Rows, families: set<nat>, at: int): Rows {
    map t | t in rows ::
      if rows[t].family in families && rows[t].revoked.None? then rows[t].(revoked := Some(at))
      else rows[t]
  }

  function RevokeMembership(rows: Rows, member: MemberId, at: int): Rows {
    map t | t in rows ::
      if rows[t].member == member && rows[t].revoked.None? then rows[t].(revoked := Some(at))
      else rows[t]
  }

  /** The rows an issue counts against the limit of its membership. */
  function Candidates(s: State, m: MemberId, at: int): set<Token> {
    set t | t in s.rows && s.rows[t].member == m && Open(s.rows[t])
            && s.rows[t].expires > at && s.rows[t].seen > at - IDLE_TIMEOUT
  }

  predicate Earlier(rows: Rows, t: Token, u: Token)
    requires t in rows && u in rows
  {
    rows[t].seen < rows[u].seen || (rows[t].seen == rows[u].seen && t < u)
  }

  /** The least recently seen candidates, just enough of them to make room for one. */
  predicate MakesRoom(s: State, m: MemberId, evicted: set<Token>, at: int) {
    && evicted <= Candidates(s, m, at)
    && |evicted| == (if |Candidates(s, m, at)| < MAX_ACTIVE then 0
                     else |Candidates(s, m, at)| - MAX_ACTIVE + 1)
    && forall t, u | t in evicted && u in Candidates(s, m, at) && u !in evicted ::
         Earlier(s.rows, t, u)
  }

  function FamiliesOf(rows: Rows, tokens: set<Token>): set<nat> {
    set t | t in tokens && t in rows :: rows[t].family
  }

  /** The row that starts a family. */
  function FirstRow(s: State, m: MemberId, at: int): Row
    requires m in s.members
  {
    Row(s.nextFamily, 0, m, s.members[m].role, at, at, at + LIFETIME, None, None)
  }

  function AfterIssue(s: State, m: MemberId, evicted: set<Token>, at: int): State {
    if !Acts(s.members, m) then s
    else
      var kept := RevokeFamilies(s.rows, FamiliesOf(s.rows, evicted), at);
      s.(rows := kept[s.nextToken := FirstRow(s, m, at)],
         nextToken := s.nextToken + 1,
         nextFamily := s.nextFamily + 1)
  }

  /** The guard of the conditional touch update. */
  predicate TouchApplies(rows: Rows, token: Token, at: int) {
    && token in rows && Open(rows[token])
    && rows[token].expires > at
    && at - IDLE_TIMEOUT < rows[token].seen <= at - TOUCH_INTERVAL
    && rows[token].seen < at
  }

  function AfterTouch(s: State, token: Token, at: int): State {
    if TouchApplies(s.rows, token, at) then
      s.(rows := s.rows[token := s.rows[token].(seen := at)])
    else s
  }

  predicate RotationDue(s: State, token: Token, proof: Token, at: int) {
    && Resolves(s, token, at) && proof == token
    && s.rows[token].issued + ROTATION_INTERVAL <= at
    && s.rows[token].generation < MAX_GENERATION
  }

  function Successor(r: Row, at: int): Row {
    r.(generation := r.generation + 1, issued := at, seen := at, replaced := None)
  }

  function AfterRotate(s: State, token: Token, proof: Token, at: int): State {
    if !RotationDue(s, token, proof, at) then s
    else
      s.(rows := s.rows[token := s.rows[token].(replaced := Some(at))]
                       [s.nextToken := Successor(s.rows[token], at)],
         nextToken := s.nextToken + 1)
  }

  predicate FamilyOpen(rows: Rows, family: nat) {
    exists t :: t in rows && rows[t].family == family && Open(rows[t])
  }

  /** Logout by any retained token of the family, current or superseded. */
  function AfterRevoke(s: State, token: Token, at: int): State {
    if token in s.rows && FamilyOpen(s.rows, s.rows[token].family) then
      s.(rows := RevokeFamilies(s.rows, {s.rows[token].family}, at))
    else s
  }

  predicate Inactive(r: Row, cutoff: int) {
    || r.expires <= cutoff
    || (r.revoked.Some? && r.revoked.value <= cutoff)
    || (r.replaced.None? && r.seen <= cutoff - IDLE_TIMEOUT)
  }

  function AfterProvision(s: State, actor: MemberId, subject: string, role: Role): State {
    if !MayManage(s, actor) || role == Owner || |s.members| >= MAX_TEAM_MEMBERS
       || (exists m :: m in s.members && s.members[m].subject == subject) then s
    else
      s.(members := s.members[s.nextMember := Member(subject, role, true, true)],
         nextMember := s.nextMember + 1)
  }

  function AfterChange(s: State, actor: MemberId, m: MemberId, role: Role, active: bool, at: int): State {
    if !MayManage(s, actor) || role == Owner || m !in s.members || s.members[m].role == Owner
       || (s.members[m].role == role && s.members[m].active == active) then s
    else
      s.(members := s.members[m := s.members[m].(role := role, active := active)],
         rows := RevokeMembership(s.rows, m, at))
  }

  predicate SoleOwner(members: map<MemberId, Member>, owner: MemberId) {
    && owner in members && members[owner].role == Owner
    && forall m | m in members && members[m].role == Owner :: m == owner
  }

  function AfterTransfer(s: State, actor: MemberId, m: MemberId, at: int, later: int): State {
    if !MayTransfer(s, actor) || !SoleOwner(s.members, actor) || m == actor || !Acts(s.members, m) then s
    else
      s.(members := s.members[actor := s.members[actor].(role := Admin)]
                             [m := s.members[m].(role := Owner)],
         rows := RevokeMembership(RevokeMembership(s.rows, actor, at), m, later))
  }

  predicate Enabled(s: State, step: Step) {
    match step
    case Advance(to) => s.clock <= to
    case Issue(m, evicted, at) => at <= s.clock && MakesRoom(s, m, evicted, at)
    case Touch(_, at) => at <= s.clock
    case Rotate(_, _, at) => at <= s.clock
    case Revoke(_, at) => at <= s.clock
    case RevokeMember(_, at) => at <= s.clock
    case Purge(cutoff, removed) =>
      cutoff <= s.clock && forall t | t in removed :: t in s.rows && Inactive(s.rows[t], cutoff)
    case Provision(_, _, _) => true
    case Change(_, _, _, _, at) => at <= s.clock
    case Transfer(_, _, at, later) => at <= later <= s.clock
  }

  function Apply(s: State, step: Step): State {
    match step
    case Advance(to) => s.(clock := to)
    case Issue(m, evicted, at) => AfterIssue(s, m, evicted, at)
    case Touch(token, at) => AfterTouch(s, token, at)
    case Rotate(token, proof, at) => AfterRotate(s, token, proof, at)
    case Revoke(token, at) => AfterRevoke(s, token, at)
    case RevokeMember(m, at) => s.(rows := RevokeMembership(s.rows, m, at))
    case Purge(_, removed) => s.(rows := s.rows - removed)
    case Provision(actor, subject, role) => AfterProvision(s, actor, subject, role)
    case Change(actor, m, role, active, at) => AfterChange(s, actor, m, role, active, at)
    case Transfer(actor, m, at, later) => AfterTransfer(s, actor, m, at, later)
  }

  /** The state a run leads to; steps that are not enabled do nothing. */
  function Run(s: State, steps: seq<Step>): State
    decreases |steps|
  {
    if steps == [] then s
    else Run(if Enabled(s, steps[0]) then Apply(s, steps[0]) else s, steps[1..])
  }

  /** Right after the first owner was created offline. */
  function Bootstrapped(subject: string, clock: int): State {
    State(map[], map[2 := Member(subject, Owner, true, true)], clock, 0, 0, 3)
  }

  // ---- the invariant --------------------------------------------------------------

  predicate RowOk(s: State, t: Token, r: Row) {
    && t < s.nextToken && r.family < s.nextFamily && r.member in s.members
    && r.issued <= r.seen <= s.clock && r.seen < r.expires
    && r.expires - LIFETIME + r.generation * ROTATION_INTERVAL <= r.issued
    && (r.revoked.Some? ==> r.revoked.value <= s.clock)
  }

  /** A live session still speaks for the role and the membership it was issued to. */
  predicate Authorized(s: State, r: Row) {
    r.revoked.None? ==>
      r.member in s.members && s.members[r.member].active && s.members[r.member].role == r.role
  }

  /** Two rows of one family: one expiry, one fate, and only the youngest unreplaced. */
  predicate Kin(a: Row, b: Row) {
    a.family == b.family ==>
      && a.member == b.member && a.role == b.role && a.expires == b.expires
      && (a.revoked.None? <==> b.revoked.None?)
      && a.generation != b.generation
      && (a.replaced.None? ==> b.generation < a.generation)
      && (b.replaced.None? ==> a.generation < b.generation)
  }

  ghost predicate Owned(s: State) {
    exists owner :: SoleOwner(s.members, owner) && Acts(s.members, owner)
  }

  ghost predicate Valid(s: State) {
    && (forall t | t in s.rows :: RowOk(s, t, s.rows[t]) && Authorized(s, s.rows[t]))
    && (forall t, u | t in s.rows && u in s.rows && t != u :: Kin(s.rows[t], s.rows[u]))
    && (forall m | m in s.members :: m < s.nextMember)
    && Owned(s)
  }
}
