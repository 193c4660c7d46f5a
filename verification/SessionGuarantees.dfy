/** What the session and team transactions promise together, over single steps and runs. */
module SessionGuarantees {
  import opened Wrappers
  import opened SetSizes
  import opened SessionModel
  import opened SessionInvariants

  function Next(s: State, step: Step): State {
    if Enabled(s, step) then Apply(s, step) else s
  }

  lemma NextIsValid(s: State, step: Step)
    requires Valid(s)
    ensures Valid(Next(s, step)) && s.clock <= Next(s, step).clock
  {
    if Enabled(s, step) { StepKeepsValid(s, step); }
  }

  // ---- families -------------------------------------------------------------------

  /** Along every run: one row of a family carries on, and all end and expire together. */
  lemma FamiliesHoldTogether(subject: string, clock: int, steps: seq<Step>, t: Token, u: Token)
    requires var rows := Run(Bootstrapped(subject, clock), steps).rows;
             t in rows && u in rows && rows[t].family == rows[u].family
    ensures var rows := Run(Bootstrapped(subject, clock), steps).rows;
            && (rows[t].revoked.None? <==> rows[u].revoked.None?)
            && (Open(rows[t]) && Open(rows[u]) ==> t == u)
            && rows[t].expires == rows[u].expires && rows[t].member == rows[u].member
  {
    BootstrapIsValid(subject, clock);
    RunKeepsValid(Bootstrapped(subject, clock), steps);
    if t != u {
      assert Kin(Run(Bootstrapped(subject, clock), steps).rows[t], Run(Bootstrapped(subject, clock), steps).rows[u]);
    }
  }

  // ---- rotation -------------------------------------------------------------------

  /** Rotation happens at most seven times: the generation cap is never what stops it. */
  lemma GenerationsAreFew(s: State, t: Token)
    requires Valid(s) && t in s.rows
    ensures s.rows[t].generation <= 7
    ensures forall at: int | Resolves(s, t, at) && s.rows[t].issued + ROTATION_INTERVAL <= at ::
              RotationDue(s, t, t, at) && s.rows[t].generation < 7
  {
    assert RowOk(s, t, s.rows[t]);
  }

  /** A rotation moves the session to a fresh token without moving its end. */
  lemma RotationHandsOver(s: State, token: Token, at: int, now: int)
    requires Valid(s) && RotationDue(s, token, token, at)
    ensures var after := AfterRotate(s, token, token, at);
            && s.nextToken !in s.rows
            && !Resolves(after, token, now)
            && Resolves(after, s.nextToken, at)
            && after.rows[s.nextToken].expires == s.rows[token].expires
            && after.rows[s.nextToken].family == s.rows[token].family
            && forall t | t in s.rows && t != token :: t in after.rows && after.rows[t] == s.rows[t]
  {
    assert RowOk(s, token, s.rows[token]);
  }

  /** Showing any retained token of a family to logout ends the whole family. */
  lemma ReplayIsContained(s: State, token: Token, u: Token, at: int, now: int)
    requires Valid(s) && token in s.rows && u in s.rows
    requires s.rows[u].family == s.rows[token].family
    ensures !Resolves(AfterRevoke(s, token, at), u, now)
  {
    if FamilyOpen(s.rows, s.rows[token].family) {
    } else {
      assert !Open(s.rows[u]);
    }
  }

  // ---- tokens never come back -----------------------------------------------------

  predicate Dead(s: State, token: Token) {
    token < s.nextToken && (token in s.rows ==> !Open(s.rows[token]))
  }

  lemma DeadStaysDead(s: State, step: Step, token: Token)
    requires Valid(s) && Dead(s, token)
    ensures Dead(Next(s, step), token)
  {
  }

  /** A replaced, revoked or deleted token resolves in no later state, at no time. */
  lemma {:induction false} DeadForever(s: State, steps: seq<Step>, token: Token, now: int)
    requires Valid(s) && Dead(s, token)
    ensures !Resolves(Run(s, steps), token, now)
    decreases |steps|
  {
    if steps != [] {
      DeadStaysDead(s, steps[0], token);
      NextIsValid(s, steps[0]);
      DeadForever(Next(s, steps[0]), steps[1..], token, now);
    }
  }

  // ---- cleanup --------------------------------------------------------------------

  /** A batch never takes an active session nor a predecessor of one, so a superseded
      token of a running session can still be recognised. */
  lemma PurgeSparesActiveFamilies(s: State, cutoff: int, removed: set<Token>, t: Token, u: Token)
    requires Valid(s) && Enabled(s, Purge(cutoff, removed))
    requires t in s.rows && u in s.rows && s.rows[t].family == s.rows[u].family
    requires IsActive(s.rows[u], s.clock)
    ensures t !in removed
  {
    if t != u {
      assert Kin(s.rows[t], s.rows[u]);
    }
  }

  // ---- authority ------------------------------------------------------------------

  /** A changed membership keeps no session: not under the old role, nor the old status. */
  lemma ChangeEndsSessions(s: State, actor: MemberId, m: MemberId, role: Role, active: bool, at: int, t: Token)
    requires Valid(s) && t in s.rows && s.rows[t].member == m
    requires AfterChange(s, actor, m, role, active, at).members != s.members
    ensures !Open(AfterChange(s, actor, m, role, active, at).rows[t])
  {
  }

  /** Along every run from bootstrap: one active owner, and whoever resolves has the role,
      still held, that the session was issued with. */
  lemma AuthorityIsCurrent(subject: string, clock: int, steps: seq<Step>, t: Token, now: int)
    ensures var s := Run(Bootstrapped(subject, clock), steps);
            && Owned(s)
            && (Resolves(s, t, now) ==>
                  Acts(s.members, s.rows[t].member)
                  && s.members[s.rows[t].member].role == s.rows[t].role)
  {
    BootstrapIsValid(subject, clock);
    RunKeepsValid(Bootstrapped(subject, clock), steps);
  }

  // ---- how many sessions a membership has -----------------------------------------

  function ActiveOf(s: State, m: MemberId): set<Token> {
    set t | t in s.rows && s.rows[t].member == m && IsActive(s.rows[t], s.clock)
  }

  predicate Capped(s: State, m: MemberId) {
    |ActiveOf(s, m)| <= MAX_ACTIVE
  }

  /** A touch or a rotation that read the clock in time and commits when the idle limit of its
      session has passed, but not the one that starts from the time it read. */
  predicate Revives(s: State, step: Step) {
    && Enabled(s, step)
    && ((step.Touch? && TouchApplies(s.rows, step.token, step.at))
        || (step.Rotate? && RotationDue(s, step.token, step.proof, step.at)))
    && s.rows[step.token].seen + IDLE_TIMEOUT <= s.clock
    && s.clock < step.at + IDLE_TIMEOUT && s.clock < s.rows[step.token].expires
  }

  lemma EvictionEndsSessions(s: State, m: MemberId, evicted: set<Token>, at: int)
    requires Valid(s) && MakesRoom(s, m, evicted, at) && Acts(s.members, m) && at <= s.clock
    ensures ActiveOf(AfterIssue(s, m, evicted, at), m) <= (Candidates(s, m, at) - evicted) + {s.nextToken}
  {
    var after := AfterIssue(s, m, evicted, at);
    forall t | t in ActiveOf(after, m) && t != s.nextToken ensures t in Candidates(s, m, at) - evicted {
      assert t in s.rows && RowOk(s, t, s.rows[t]);
      assert s.rows[t].family !in FamiliesOf(s.rows, evicted);
    }
  }

  /** An issued session is accepted at once, with the role its membership has now. */
  lemma IssuedSessionResolves(s: State, m: MemberId, evicted: set<Token>, at: int)
    requires Valid(s) && MakesRoom(s, m, evicted, at) && at <= s.clock
    ensures var after := AfterIssue(s, m, evicted, at);
            Resolves(after, s.nextToken, at) <==> Acts(s.members, m)
    ensures Acts(s.members, m) ==>
              AfterIssue(s, m, evicted, at).rows[s.nextToken].role == s.members[m].role
  {
    assert forall t | t in s.rows :: RowOk(s, t, s.rows[t]) && t < s.nextToken;
  }

  /** However late it commits, an issue sees every active session of its member. */
  lemma IssueIsCapped(s: State, m: MemberId, evicted: set<Token>, at: int, other: MemberId)
    requires Valid(s) && MakesRoom(s, m, evicted, at) && at <= s.clock && Capped(s, other)
    ensures Capped(AfterIssue(s, m, evicted, at), other)
  {
    var after := AfterIssue(s, m, evicted, at);
    if Acts(s.members, m) && other == m {
      EvictionEndsSessions(s, m, evicted, at);
      SubsetSize(ActiveOf(after, m), (Candidates(s, m, at) - evicted) + {s.nextToken});
    } else {
      SubsetSize(ActiveOf(after, other), ActiveOf(s, other));
    }
  }

  /** What a rotation does to the active sessions: the old one goes, the successor may come. */
  lemma RotateActive(s: State, token: Token, at: int)
    requires Valid(s) && at <= s.clock && RotationDue(s, token, token, at)
    ensures var m := s.rows[token].member;
            var comes := s.clock < at + IDLE_TIMEOUT && s.clock < s.rows[token].expires;
            && s.nextToken !in s.rows
            && ActiveOf(AfterRotate(s, token, token, at), m)
               == (ActiveOf(s, m) - {token}) + (if comes then {s.nextToken} else {})
            && (token in ActiveOf(s, m) <==>
                  s.clock < s.rows[token].seen + IDLE_TIMEOUT && s.clock < s.rows[token].expires)
  {
    assert RowOk(s, token, s.rows[token]);
    assert forall t | t in s.rows :: RowOk(s, t, s.rows[t]) && t < s.nextToken;
  }

  lemma RotateSparesOthers(s: State, token: Token, at: int, m: MemberId)
    requires RotationDue(s, token, token, at) && s.rows[token].member != m && s.nextToken !in s.rows
    ensures ActiveOf(AfterRotate(s, token, token, at), m) == ActiveOf(s, m)
  {
  }

  lemma RotateIsCapped(s: State, token: Token, proof: Token, at: int, m: MemberId)
    requires Valid(s) && at <= s.clock && Capped(s, m) && !Revives(s, Rotate(token, proof, at))
    ensures Capped(AfterRotate(s, token, proof, at), m)
  {
    if RotationDue(s, token, proof, at) {
      RotateActive(s, token, at);
      if s.rows[token].member != m {
        RotateSparesOthers(s, token, at, m);
      } else {
        var comes := s.clock < at + IDLE_TIMEOUT && s.clock < s.rows[token].expires;
        SwapIsNoMore(ActiveOf(s, m), token, if comes then {s.nextToken} else {});
      }
    }
  }

  lemma SwapIsNoMore(active: set<Token>, gone: Token, come: set<Token>)
    requires |come| <= 1 && (gone in active || come == {})
    ensures |(active - {gone}) + come| <= |active|
  {
    if gone in active {
      assert active == (active - {gone}) + {gone};
      UnionSize(active - {gone}, come);
    } else {
      assert (active - {gone}) + come == active;
    }
  }

  /** Every step but an issue, a rotation and a reviving touch can only end sessions. */
  lemma OthersOnlyEndSessions(s: State, step: Step, m: MemberId)
    requires Valid(s) && !step.Issue? && !step.Rotate? && !Revives(s, step)
    ensures ActiveOf(Next(s, step), m) <= ActiveOf(s, m)
  {
  }

  lemma TouchAddsOne(s: State, token: Token, at: int)
    requires Valid(s) && Revives(s, Touch(token, at))
    ensures var m := s.rows[token].member;
            token !in ActiveOf(s, m) && ActiveOf(AfterTouch(s, token, at), m) == ActiveOf(s, m) + {token}
  {
    assert RowOk(s, token, s.rows[token]);
  }

  lemma RevivalAddsOne(s: State, step: Step)
    requires Valid(s) && Revives(s, step)
    ensures |ActiveOf(Next(s, step), s.rows[step.token].member)|
         == |ActiveOf(s, s.rows[step.token].member)| + 1
  {
    var active := ActiveOf(s, s.rows[step.token].member);
    if step.Touch? {
      TouchAddsOne(s, step.token, step.at);
    } else {
      RotateActive(s, step.token, step.at);
      assert active - {step.token} == active && s.nextToken !in active;
    }
  }

  lemma RevivalSparesOthers(s: State, step: Step, m: MemberId)
    requires Valid(s) && Revives(s, step) && s.rows[step.token].member != m
    ensures ActiveOf(Next(s, step), m) == ActiveOf(s, m)
  {
  }

  /** A late touch or rotation that brings a session back beside eight others of its membership. */
  predicate Overfills(s: State, step: Step, m: MemberId) {
    Revives(s, step) && s.rows[step.token].member == m && |ActiveOf(s, m)| == MAX_ACTIVE
  }

  /** The limit of eight is kept by every step except, exactly, one that revives an idle
      session of a membership which meanwhile reached the limit. */
  lemma CapKeptUnlessRevived(s: State, step: Step, m: MemberId)
    requires Valid(s) && Capped(s, m)
    ensures Capped(Next(s, step), m) <==> !Overfills(s, step, m)
  {
    if Revives(s, step) {
      if s.rows[step.token].member == m {
        RevivalAddsOne(s, step);
      } else {
        RevivalSparesOthers(s, step, m);
      }
    } else if !Enabled(s, step) {
    } else if step.Issue? {
      IssueIsCapped(s, step.member, step.evicted, step.at, m);
    } else if step.Rotate? {
      RotateIsCapped(s, step.token, step.proof, step.at, m);
    } else {
      OthersOnlyEndSessions(s, step, m);
      SubsetSize(ActiveOf(Next(s, step), m), ActiveOf(s, m));
    }
  }

  predicate OverfilledAlong(s: State, steps: seq<Step>, m: MemberId)
    decreases |steps|
  {
    steps != [] && (Overfills(s, steps[0], m) || OverfilledAlong(Next(s, steps[0]), steps[1..], m))
  }

  predicate CappedAlong(s: State, steps: seq<Step>, m: MemberId)
    decreases |steps|
  {
    Capped(s, m) && (steps != [] ==> CappedAlong(Next(s, steps[0]), steps[1..], m))
  }

  /** The limit holds in every state of a run exactly when no step of it is of that kind. */
  lemma {:induction false} CapAlongRun(s: State, steps: seq<Step>, m: MemberId)
    requires Valid(s) && Capped(s, m)
    ensures CappedAlong(s, steps, m) <==> !OverfilledAlong(s, steps, m)
    decreases |steps|
  {
    if steps != [] {
      CapKeptUnlessRevived(s, steps[0], m);
      NextIsValid(s, steps[0]);
      if Capped(Next(s, steps[0]), m) {
        CapAlongRun(Next(s, steps[0]), steps[1..], m);
      }
    }
  }

  // ---- the limit broken by a late touch or rotation ---------------------------------

  function CrowdRows(k: nat, seen: int, at: int): Rows {
    if k == 0 then map[0 := Row(0, 0, 2, Owner, 0, seen, LIFETIME, None, None)]
    else CrowdRows(k - 1, seen, at)[k := Row(k, 0, 2, Owner, at, at, at + LIFETIME, None, None)]
  }

  /** One session issued at 0 and last seen later, and k more of the same owner issued now. */
  function Crowded(subject: string, k: nat, seen: int, now: int): State {
    State(CrowdRows(k, seen, now), map[2 := Member(subject, Owner, true, true)], now, k + 1, k + 1, 3)
  }

  function Issues(k: nat, at: int): seq<Step> {
    if k == 0 then [] else Issues(k - 1, at) + [Issue(2, {}, at)]
  }

  lemma {:induction false} CrowdRowsAt(k: nat, seen: int, at: int, t: Token)
    ensures t in CrowdRows(k, seen, at) <==> t <= k
    ensures t in CrowdRows(k, seen, at) ==>
              CrowdRows(k, seen, at)[t] == if t == 0 then Row(0, 0, 2, Owner, 0, seen, LIFETIME, None, None)
                                           else Row(t, 0, 2, Owner, at, at, at + LIFETIME, None, None)
  {
    if k > 0 {
      CrowdRowsAt(k - 1, seen, at, t);
    }
  }

  lemma CrowdActive(subject: string, k: nat, seen: int, now: int, t: Token)
    requires seen + IDLE_TIMEOUT <= now
    ensures t in ActiveOf(Crowded(subject, k, seen, now), 2) <==> 1 <= t <= k
    ensures t in Candidates(Crowded(subject, k, seen, now), 2, now) <==> 1 <= t <= k
  {
    CrowdRowsAt(k, seen, now, t);
  }

  function FirstTokens(k: nat): (tokens: set<Token>)
    ensures |tokens| == k && forall t :: t in tokens <==> 1 <= t <= k
  {
    if k == 0 then {} else FirstTokens(k - 1) + {k}
  }

  lemma CrowdSize(subject: string, k: nat, seen: int, now: int)
    requires seen + IDLE_TIMEOUT <= now
    ensures |ActiveOf(Crowded(subject, k, seen, now), 2)| == k
    ensures |Candidates(Crowded(subject, k, seen, now), 2, now)| == k
  {
    var s := Crowded(subject, k, seen, now);
    forall t: Token ensures t in ActiveOf(s, 2) <==> t in FirstTokens(k) {
      CrowdActive(subject, k, seen, now, t);
    }
    assert ActiveOf(s, 2) == FirstTokens(k);
    forall t: Token ensures t in Candidates(s, 2, now) <==> t in FirstTokens(k) {
      CrowdActive(subject, k, seen, now, t);
    }
    assert Candidates(s, 2, now) == FirstTokens(k);
  }

  lemma CrowdGrows(subject: string, k: nat, seen: int, now: int)
    requires k < MAX_ACTIVE && seen + IDLE_TIMEOUT <= now
    ensures Next(Crowded(subject, k, seen, now), Issue(2, {}, now)) == Crowded(subject, k + 1, seen, now)
  {
    var before := Crowded(subject, k, seen, now);
    CrowdSize(subject, k, seen, now);
    assert MakesRoom(before, 2, {}, now);
    assert RevokeFamilies(before.rows, {}, now) == before.rows;
    assert FamiliesOf(before.rows, {}) == {};
  }

  lemma {:induction false} IssuesCrowd(subject: string, k: nat, seen: int, now: int)
    requires k <= MAX_ACTIVE && seen + IDLE_TIMEOUT <= now
    ensures Run(Crowded(subject, 0, seen, now), Issues(k, now)) == Crowded(subject, k, seen, now)
  {
    if k > 0 {
      IssuesCrowd(subject, k - 1, seen, now);
      CrowdGrows(subject, k - 1, seen, now);
      RunAppends(Crowded(subject, 0, seen, now), Issues(k - 1, now), Issue(2, {}, now));
    }
  }

  lemma {:induction false} RunAppends(s: State, steps: seq<Step>, last: Step)
    ensures Run(s, steps + [last]) == Next(Run(s, steps), last)
    decreases |steps|
  {
    if steps == [] {
      assert Run(Next(s, last), []) == Next(s, last);
      assert (steps + [last])[1..] == [];
    } else {
      assert (steps + [last])[1..] == steps[1..] + [last];
      RunAppends(Next(s, steps[0]), steps[1..], last);
    }
  }

  lemma {:induction false} RunSplits(s: State, first: seq<Step>, second: seq<Step>)
    ensures Run(s, first + second) == Run(Run(s, first), second)
    decreases |first|
  {
    if first == [] {
      assert first + second == second;
    } else {
      assert (first + second)[1..] == first[1..] + second;
      RunSplits(Next(s, first[0]), first[1..], second);
    }
  }

  /** Whatever opened the run, eight issues and a step that revives the first session make nine. */
  lemma NinthSession(subject: string, opening: seq<Step>, seen: int, now: int, late: Step)
    requires Run(Bootstrapped(subject, 0), opening) == Crowded(subject, 0, seen, now)
    requires seen + IDLE_TIMEOUT <= now && Revives(Crowded(subject, 8, seen, now), late) && late.token == 0
    ensures var start := Bootstrapped(subject, 0);
            |ActiveOf(Run(start, opening + Issues(8, now) + [late]), 2)| == 9
  {
    var start := Bootstrapped(subject, 0);
    BootstrapIsValid(subject, 0);
    IssuesCrowd(subject, 8, seen, now);
    CrowdSize(subject, 8, seen, now);
    CrowdRowsAt(8, seen, now, 0);
    RunSplits(start, opening, Issues(8, now));
    RunAppends(start, opening + Issues(8, now), late);
    RunKeepsValid(start, opening + Issues(8, now));
    RevivalAddsOne(Crowded(subject, 8, seen, now), late);
  }

  const TOUCH_OPENING: seq<Step> := [Issue(2, {}, 0), Advance(1_800)]

  /** Read at 1799, written at 1800: the owner ends up with nine resolvable sessions. */
  lemma LateTouchBreaksCap(subject: string)
    ensures !Capped(Run(Bootstrapped(subject, 0), TOUCH_OPENING + Issues(8, 1_800) + [Touch(0, 1_799)]), 2)
  {
    TouchOpens(subject);
    CrowdRowsAt(8, 0, 1_800, 0);
    NinthSession(subject, TOUCH_OPENING, 0, 1_800, Touch(0, 1_799));
  }

  /** After the first issue, nothing is left to say about who may act and what room there is. */
  lemma FirstIssue(subject: string)
    ensures Next(Bootstrapped(subject, 0), Issue(2, {}, 0)) == Crowded(subject, 0, 0, 0)
  {
    var start := Bootstrapped(subject, 0);
    assert Candidates(start, 2, 0) == {};
    assert MakesRoom(start, 2, {}, 0);
    assert AfterIssue(start, 2, {}, 0).rows == CrowdRows(0, 0, 0);
  }

  lemma RunStep(s: State, step: Step, rest: seq<Step>)
    ensures Run(s, [step] + rest) == Run(Next(s, step), rest)
  {
    assert ([step] + rest)[1..] == rest;
  }

  lemma TouchOpens(subject: string)
    ensures Run(Bootstrapped(subject, 0), TOUCH_OPENING) == Crowded(subject, 0, 0, 1_800)
  {
    FirstIssue(subject);
    RunStep(Bootstrapped(subject, 0), Issue(2, {}, 0), [Advance(1_800)]);
    RunStep(Crowded(subject, 0, 0, 0), Advance(1_800), []);
    assert TOUCH_OPENING == [Issue(2, {}, 0)] + [Advance(1_800)];
    assert [Advance(1_800)] + [] == [Advance(1_800)];
  }

  const ROTATION_OPENING: seq<Step> :=
    [Issue(2, {}, 0), Advance(900), Touch(0, 900), Advance(1_801), Touch(0, 1_801), Advance(3_601)]

  lemma SeenAgain(subject: string, seen: int, at: int)
    requires at - IDLE_TIMEOUT < seen <= at - TOUCH_INTERVAL && at < LIFETIME
    ensures Next(Crowded(subject, 0, seen, at), Touch(0, at)) == Crowded(subject, 0, at, at)
  {
  }

  lemma Waits(subject: string, seen: int, now: int, to: int)
    requires now <= to
    ensures Next(Crowded(subject, 0, seen, now), Advance(to)) == Crowded(subject, 0, seen, to)
  {
  }

  lemma RotationOpens(subject: string)
    ensures Run(Bootstrapped(subject, 0), ROTATION_OPENING) == Crowded(subject, 0, 1_801, 3_601)
  {
    var used: seq<Step> := [Advance(900), Touch(0, 900), Advance(1_801), Touch(0, 1_801), Advance(3_601)];
    FirstIssue(subject);
    RunStep(Bootstrapped(subject, 0), Issue(2, {}, 0), used);
    assert ROTATION_OPENING == [Issue(2, {}, 0)] + used;
    UsedOnce(subject, 0, 900, used[2..]);
    assert used == [Advance(900), Touch(0, 900)] + used[2..];
    UsedOnce(subject, 900, 1_801, used[4..]);
    assert used[2..] == [Advance(1_801), Touch(0, 1_801)] + used[4..];
    Waits(subject, 1_801, 1_801, 3_601);
    RunStep(Crowded(subject, 0, 1_801, 1_801), Advance(3_601), []);
    assert used[4..] == [Advance(3_601)] + [];
  }

  /** The session waits for a time and is used then. */
  lemma UsedOnce(subject: string, seen: int, at: int, rest: seq<Step>)
    requires at - IDLE_TIMEOUT < seen <= at - TOUCH_INTERVAL && at < LIFETIME
    ensures Run(Crowded(subject, 0, seen, seen), [Advance(at), Touch(0, at)] + rest)
         == Run(Crowded(subject, 0, at, at), rest)
  {
    Waits(subject, seen, seen, at);
    SeenAgain(subject, seen, at);
    assert [Advance(at), Touch(0, at)] + rest == [Advance(at)] + ([Touch(0, at)] + rest);
    RunStep(Crowded(subject, 0, seen, seen), Advance(at), [Touch(0, at)] + rest);
    RunStep(Crowded(subject, 0, seen, at), Touch(0, at), rest);
  }

  lemma LateRotationRevives(subject: string, k: nat)
    ensures Revives(Crowded(subject, k, 1_801, 3_601), Rotate(0, 0, 3_600))
  {
    CrowdRowsAt(k, 1_801, 3_601, 0);
  }

  /** A rotation that read the clock at 3600 and waits for its lock behind eight issues at 3601. */
  lemma LateRotationBreaksCap(subject: string)
    ensures !Capped(Run(Bootstrapped(subject, 0),
                        ROTATION_OPENING + Issues(8, 3_601) + [Rotate(0, 0, 3_600)]), 2)
  {
    RotationOpens(subject);
    LateRotationRevives(subject, 8);
    NinthSession(subject, ROTATION_OPENING, 1_801, 3_601, Rotate(0, 0, 3_600));
  }
}
