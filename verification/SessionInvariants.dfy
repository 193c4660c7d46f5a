/** Every transaction keeps the state valid, and so does every run. */
module SessionInvariants {
  import opened SessionModel

  lemma BootstrapIsValid(subject: string, clock: int)
    ensures Valid(Bootstrapped(subject, clock))
  {
    assert SoleOwner(Bootstrapped(subject, clock).members, 2);
  }

  lemma RevokeFamiliesKeepsValid(s: State, families: set<nat>, at: int)
    requires Valid(s) && at <= s.clock
    ensures Valid(s.(rows := RevokeFamilies(s.rows, families, at)))
  {
  }

  /** A family may start for any member who may act. */
  lemma FirstRowKeepsValid(s: State, m: MemberId, at: int)
    requires Valid(s) && at <= s.clock && Acts(s.members, m)
    ensures Valid(s.(rows := s.rows[s.nextToken := FirstRow(s, m, at)], nextToken := s.nextToken + 1,
                     nextFamily := s.nextFamily + 1))
  {
  }

  lemma IssueKeepsValid(s: State, m: MemberId, evicted: set<Token>, at: int)
    requires Valid(s) && MakesRoom(s, m, evicted, at) && at <= s.clock
    ensures Valid(AfterIssue(s, m, evicted, at))
  {
    if Acts(s.members, m) {
      var families := FamiliesOf(s.rows, evicted);
      RevokeFamiliesKeepsValid(s, families, at);
      FirstRowKeepsValid(s.(rows := RevokeFamilies(s.rows, families, at)), m, at);
    }
  }

  lemma TouchKeepsValid(s: State, token: Token, at: int)
    requires Valid(s) && at <= s.clock
    ensures Valid(AfterTouch(s, token, at))
  {
  }

  lemma RotateKeepsValid(s: State, token: Token, proof: Token, at: int)
    requires Valid(s) && at <= s.clock
    ensures Valid(AfterRotate(s, token, proof, at))
  {
  }

  lemma RevokeKeepsValid(s: State, token: Token, at: int)
    requires Valid(s) && at <= s.clock
    ensures Valid(AfterRevoke(s, token, at))
  {
    if token in s.rows {
      RevokeFamiliesKeepsValid(s, {s.rows[token].family}, at);
    }
  }

  lemma RevokeMemberKeepsValid(s: State, m: MemberId, at: int)
    requires Valid(s) && at <= s.clock
    ensures Valid(s.(rows := RevokeMembership(s.rows, m, at)))
  {
  }

  lemma ProvisionKeepsValid(s: State, actor: MemberId, subject: string, role: Role)
    requires Valid(s)
    ensures Valid(AfterProvision(s, actor, subject, role))
  {
    var owner :| SoleOwner(s.members, owner) && Acts(s.members, owner);
    assert SoleOwner(AfterProvision(s, actor, subject, role).members, owner);
  }

  lemma ChangeKeepsValid(s: State, actor: MemberId, m: MemberId, role: Role, active: bool, at: int)
    requires Valid(s) && at <= s.clock
    ensures Valid(AfterChange(s, actor, m, role, active, at))
  {
    var owner :| SoleOwner(s.members, owner) && Acts(s.members, owner);
    assert SoleOwner(AfterChange(s, actor, m, role, active, at).members, owner);
  }

  /** Roles may change once nobody holds an unrevoked session under the old ones. */
  lemma RolesChangeBehindRevocation(s: State, members: map<MemberId, Member>, owner: MemberId)
    requires Valid(s) && members.Keys == s.members.Keys
    requires forall t | t in s.rows && s.rows[t].revoked.None? ::
               members[s.rows[t].member] == s.members[s.rows[t].member]
    requires SoleOwner(members, owner) && Acts(members, owner)
    ensures Valid(s.(members := members))
  {
    var after := s.(members := members);
    forall t | t in after.rows ensures RowOk(after, t, after.rows[t]) && Authorized(after, after.rows[t]) {
      assert RowOk(s, t, s.rows[t]) && Authorized(s, s.rows[t]);
    }
    assert Owned(after);
  }

  function Swapped(members: map<MemberId, Member>, from: MemberId, to: MemberId): map<MemberId, Member>
    requires from in members && to in members
  {
    members[from := members[from].(role := Admin)][to := members[to].(role := Owner)]
  }

  lemma SwapKeepsValid(s: State, from: MemberId, to: MemberId)
    requires Valid(s) && SoleOwner(s.members, from) && from != to && Acts(s.members, to)
    requires forall t | t in s.rows && s.rows[t].revoked.None? ::
               s.rows[t].member != from && s.rows[t].member != to
    ensures Valid(s.(members := Swapped(s.members, from, to)))
  {
    assert SoleOwner(Swapped(s.members, from, to), to);
    RolesChangeBehindRevocation(s, Swapped(s.members, from, to), to);
  }

  lemma RevokeTwoKeepsValid(s: State, a: MemberId, b: MemberId, at: int, later: int)
    requires Valid(s) && at <= later <= s.clock
    ensures Valid(s.(rows := RevokeMembership(RevokeMembership(s.rows, a, at), b, later)))
  {
    RevokeMemberKeepsValid(s, a, at);
    RevokeMemberKeepsValid(s.(rows := RevokeMembership(s.rows, a, at)), b, later);
  }

  lemma TransferKeepsValid(s: State, actor: MemberId, m: MemberId, at: int, later: int)
    requires Valid(s) && at <= later <= s.clock
    ensures Valid(AfterTransfer(s, actor, m, at, later))
  {
    if MayTransfer(s, actor) && SoleOwner(s.members, actor) && m != actor && Acts(s.members, m) {
      RevokeTwoKeepsValid(s, actor, m, at, later);
      SwapKeepsValid(s.(rows := RevokeMembership(RevokeMembership(s.rows, actor, at), m, later)), actor, m);
    }
  }

  lemma StepKeepsValid(s: State, step: Step)
    requires Valid(s) && Enabled(s, step)
    ensures Valid(Apply(s, step)) && s.clock <= Apply(s, step).clock
  {
    match step
    case Advance(to) =>
    case Issue(m, evicted, at) => IssueKeepsValid(s, m, evicted, at);
    case Touch(token, at) => TouchKeepsValid(s, token, at);
    case Rotate(token, proof, at) => RotateKeepsValid(s, token, proof, at);
    case Revoke(token, at) => RevokeKeepsValid(s, token, at);
    case RevokeMember(m, at) => RevokeMemberKeepsValid(s, m, at);
    case Purge(_, removed) =>
    case Provision(actor, subject, role) => ProvisionKeepsValid(s, actor, subject, role);
    case Change(actor, m, role, active, at) => ChangeKeepsValid(s, actor, m, role, active, at);
    case Transfer(actor, m, at, later) => TransferKeepsValid(s, actor, m, at, later);
  }

  lemma {:induction false} RunKeepsValid(s: State, steps: seq<Step>)
    requires Valid(s)
    ensures Valid(Run(s, steps)) && s.clock <= Run(s, steps).clock
    decreases |steps|
  {
    if steps != [] {
      if Enabled(s, steps[0]) {
        StepKeepsValid(s, steps[0]);
        RunKeepsValid(Apply(s, steps[0]), steps[1..]);
      } else {
        RunKeepsValid(s, steps[1..]);
      }
    }
  }
}
