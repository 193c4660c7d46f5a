/**
 * Resolving with a touch: a read, a conditional update, and a second read if the update
 * changed nothing. Other transactions may commit between any two of the three.
 */
module SessionTouch {
  import opened SessionModel
  import opened SessionInvariants
  import opened SessionGuarantees

  predicate Throttled(s: State, token: Token, at: int)
    requires token in s.rows
  {
    s.rows[token].seen > at - TOUCH_INTERVAL
  }

  /** The answer of a touching resolve that read `s0`, updated `s1` and re-read `s2`. */
  predicate Accepted(s0: State, s1: State, s2: State, token: Token, at: int) {
    Resolves(s0, token, at) &&
    (Throttled(s0, token, at) || TouchApplies(s1.rows, token, at) || Resolves(s2, token, at))
  }

  /** What no transaction does to a row it keeps. */
  predicate Aged(before: State, after: State, token: Token) {
    token in before.rows && token in after.rows ==>
      && after.rows[token].seen >= before.rows[token].seen
      && after.rows[token].issued == before.rows[token].issued
      && after.rows[token].expires == before.rows[token].expires
      && after.rows[token].member == before.rows[token].member
      && (before.rows[token].replaced.Some? ==> after.rows[token].replaced.Some?)
      && (before.rows[token].revoked.Some? ==> after.rows[token].revoked.Some?)
  }

  lemma StepAges(s: State, step: Step, token: Token)
    requires Valid(s)
    ensures Aged(s, Next(s, step), token)
    ensures token < s.nextToken && token !in s.rows ==> token !in Next(s, step).rows
    ensures s.nextToken <= Next(s, step).nextToken
  {
  }

  lemma {:induction false} RunAges(s: State, steps: seq<Step>, token: Token)
    requires Valid(s)
    ensures Aged(s, Run(s, steps), token)
    ensures token < s.nextToken && token !in s.rows ==> token !in Run(s, steps).rows
    decreases |steps|
  {
    if steps != [] {
      StepAges(s, steps[0], token);
      NextIsValid(s, steps[0]);
      RunAges(Next(s, steps[0]), steps[1..], token);
      if token in s.rows && token !in Next(s, steps[0]).rows {
        assert RowOk(s, token, s.rows[token]);
      }
    }
  }

  /** However the three parts interleave with others, an accepted touch leaves the session
      seen within the touch interval, in the state the answer came from. */
  lemma AcceptedMeansRecent(s0: State, first: seq<Step>, second: seq<Step>, token: Token, at: int)
    requires Valid(s0) && at <= s0.clock
    requires var s1 := Run(s0, first);
             Accepted(s0, s1, Run(AfterTouch(s1, token, at), second), token, at)
    ensures var answered := Answered(s0, first, second, token, at);
            token in answered.rows && answered.rows[token].seen > at - TOUCH_INTERVAL
  {
    var s1 := Run(s0, first);
    var s1' := AfterTouch(s1, token, at);
    RunAges(s0, first, token);
    RunKeepsValid(s0, first);
    TouchKeepsValid(s1, token, at);
    RunAges(s1', second, token);
    if !Throttled(s0, token, at) && !TouchApplies(s1.rows, token, at) {
      assert RowOk(s0, token, s0.rows[token]);
      NothingReturns(s0, first, token);
    }
  }

  lemma NothingReturns(s: State, steps: seq<Step>, token: Token)
    requires Valid(s) && token in s.rows
    ensures token < Run(s, steps).nextToken
  {
    RunKeepsValid(s, steps);
    assert RowOk(s, token, s.rows[token]);
    TokensGrow(s, steps);
  }

  lemma {:induction false} TokensGrow(s: State, steps: seq<Step>)
    requires Valid(s)
    ensures s.nextToken <= Run(s, steps).nextToken
    decreases |steps|
  {
    if steps != [] {
      StepAges(s, steps[0], 0);
      NextIsValid(s, steps[0]);
      TokensGrow(Next(s, steps[0]), steps[1..]);
    }
  }

  /** No step of the run replaces or revokes the row, or disables its member. */
  predicate LeftAlone(s: State, steps: seq<Step>, token: Token)
    decreases |steps|
  {
    steps == [] ||
    (var next := Next(s, steps[0]);
     && (token in next.rows ==> Open(next.rows[token]) && Acts(next.members, next.rows[token].member))
     && LeftAlone(next, steps[1..], token))
  }

  /** A session last seen within the touch interval before `at` and left alone resolves at
      every time up to 25 minutes after `at` that its own expiry allows. */
  lemma {:induction false} RecentSessionLasts(s: State, steps: seq<Step>, token: Token, at: int)
    requires Valid(s) && token in s.rows && Open(s.rows[token]) && Acts(s.members, s.rows[token].member)
    requires s.rows[token].seen > at - TOUCH_INTERVAL
    requires LeftAlone(s, steps, token)
    requires Run(s, steps).clock <= at + (IDLE_TIMEOUT - TOUCH_INTERVAL)
    requires Run(s, steps).clock < s.rows[token].expires
    ensures Resolves(Run(s, steps), token, Run(s, steps).clock)
    decreases |steps|
  {
    RunKeepsValid(s, steps);
    if steps == [] {
      RecentResolves(s, token, at);
    } else {
      var next := Next(s, steps[0]);
      NextIsValid(s, steps[0]);
      StaysRecent(s, steps[0], token, at);
      RecentSessionLasts(next, steps[1..], token, at);
    }
  }

  ghost predicate Recent(s: State, token: Token, at: int) {
    && token in s.rows && Open(s.rows[token]) && Acts(s.members, s.rows[token].member)
    && s.rows[token].seen > at - TOUCH_INTERVAL
    && s.clock <= at + (IDLE_TIMEOUT - TOUCH_INTERVAL) && s.clock < s.rows[token].expires
  }

  lemma RecentResolves(s: State, token: Token, at: int)
    requires Valid(s) && Recent(s, token, at)
    ensures Resolves(s, token, s.clock)
  {
    assert RowOk(s, token, s.rows[token]);
  }

  lemma StaysRecent(s: State, step: Step, token: Token, at: int)
    requires Valid(s) && Recent(s, token, at)
    ensures token in Next(s, step).rows
    ensures Next(s, step).rows[token].seen > at - TOUCH_INTERVAL
    ensures Next(s, step).rows[token].expires == s.rows[token].expires
  {
    assert RowOk(s, token, s.rows[token]);
    StepAges(s, step, token);
  }

  /** The state a touching resolve answers from. */
  function Answered(s0: State, first: seq<Step>, second: seq<Step>, token: Token, at: int): State
    requires token in s0.rows
  {
    var s1 := Run(s0, first);
    var touched := AfterTouch(s1, token, at);
    if Throttled(s0, token, at) then s0
    else if TouchApplies(s1.rows, token, at) then touched
    else Run(touched, second)
  }

  /** Nobody is disabled as a user by the transactions here. */
  lemma {:induction false} UsersStayEnabled(s: State, steps: seq<Step>, m: MemberId)
    requires m in s.members && s.members[m].userActive && Valid(s)
    ensures m in Run(s, steps).members && Run(s, steps).members[m].userActive
    decreases |steps|
  {
    if steps != [] {
      NextIsValid(s, steps[0]);
      UserStaysEnabled(s, steps[0], m);
      UsersStayEnabled(Next(s, steps[0]), steps[1..], m);
    }
  }

  lemma UserStaysEnabled(s: State, step: Step, m: MemberId)
    requires m in s.members && s.members[m].userActive && Valid(s)
    ensures m in Next(s, step).members && Next(s, step).members[m].userActive
  {
  }

  /** An open session speaks for a member who may act, as long as its user was enabled. */
  lemma OpenMayAct(s: State, token: Token)
    requires Valid(s) && token in s.rows && Open(s.rows[token])
    requires s.rows[token].member in s.members && s.members[s.rows[token].member].userActive
    ensures Acts(s.members, s.rows[token].member)
  {
    assert Authorized(s, s.rows[token]);
  }

  /** The answer comes from a state in which the session is open and its member may act. */
  lemma AnsweredIsOpen(s0: State, first: seq<Step>, second: seq<Step>, token: Token, at: int)
    requires Valid(s0) && at <= s0.clock
    requires var s1 := Run(s0, first);
             Accepted(s0, s1, Run(AfterTouch(s1, token, at), second), token, at)
    ensures var s := Answered(s0, first, second, token, at);
            Valid(s) && token in s.rows && Open(s.rows[token]) && Acts(s.members, s.rows[token].member)
  {
    var s1 := Run(s0, first);
    RunKeepsValid(s0, first);
    TouchKeepsValid(s1, token, at);
    RunKeepsValid(AfterTouch(s1, token, at), second);
    if !Throttled(s0, token, at) && TouchApplies(s1.rows, token, at) {
      RunAges(s0, first, token);
      UsersStayEnabled(s0, first, s0.rows[token].member);
      OpenMayAct(AfterTouch(s1, token, at), token);
    }
  }

  /** An accepted touching request is good for 25 minutes more: in every run from the state it
      was answered from that leaves the session alone, up to the session's own expiry. */
  lemma AcceptedSessionLasts(s0: State, first: seq<Step>, second: seq<Step>, token: Token, at: int, rest: seq<Step>)
    requires Valid(s0) && at <= s0.clock
    requires var s1 := Run(s0, first);
             Accepted(s0, s1, Run(AfterTouch(s1, token, at), second), token, at)
    requires var s := Answered(s0, first, second, token, at);
             && LeftAlone(s, rest, token)
             && Run(s, rest).clock <= at + (IDLE_TIMEOUT - TOUCH_INTERVAL)
             && Run(s, rest).clock < s0.rows[token].expires
    ensures var s := Answered(s0, first, second, token, at);
            Resolves(Run(s, rest), token, Run(s, rest).clock)
  {
    var s := Answered(s0, first, second, token, at);
    AcceptedMeansRecent(s0, first, second, token, at);
    AnsweredIsOpen(s0, first, second, token, at);
    AnsweredAges(s0, first, second, token, at);
    RecentSessionLasts(s, rest, token, at);
  }

  lemma AnsweredAges(s0: State, first: seq<Step>, second: seq<Step>, token: Token, at: int)
    requires Valid(s0) && at <= s0.clock && token in s0.rows
    requires token in Answered(s0, first, second, token, at).rows
    ensures Answered(s0, first, second, token, at).rows[token].expires == s0.rows[token].expires
  {
    var s1 := Run(s0, first);
    RunKeepsValid(s0, first);
    RunAges(s0, first, token);
    NothingReturns(s0, first, token);
    TouchKeepsValid(s1, token, at);
    RunAges(AfterTouch(s1, token, at), second, token);
  }

  predicate IdleOut(s: State, token: Token) {
    token < s.nextToken && (token in s.rows ==> s.rows[token].seen + IDLE_TIMEOUT <= s.clock)
  }

  predicate Expired(s: State, token: Token) {
    token in s.rows && s.rows[token].expires <= s.clock
  }

  /** The user behind the session's membership is disabled, which no transaction here undoes. */
  predicate Barred(s: State, token: Token) {
    token in s.rows && s.rows[token].member in s.members && !s.members[s.rows[token].member].userActive
  }

  /** The session is over: out of use, ended, expired, or its user disabled. */
  predicate Over(s: State, token: Token) {
    IdleOut(s, token) || Dead(s, token) || Expired(s, token) || Barred(s, token)
  }

  /** A touch that read the row in time and writes it late, for a member who may act. */
  predicate RevivesToken(s: State, step: Step, token: Token) {
    Revives(s, step) && step.Touch? && step.token == token && Acts(s.members, s.rows[token].member)
  }

  lemma BarredStaysBarred(s: State, step: Step, token: Token)
    requires Valid(s) && Barred(s, token) && token in Next(s, step).rows
    ensures Barred(Next(s, step), token)
  {
    StepAges(s, step, token);
    assert RowOk(s, token, s.rows[token]);
  }

  lemma DisabledIsBarred(s: State, token: Token)
    requires Valid(s) && token in s.rows && Open(s.rows[token]) && !Acts(s.members, s.rows[token].member)
    ensures Barred(s, token)
  {
    assert RowOk(s, token, s.rows[token]) && Authorized(s, s.rows[token]);
  }

  /** What is over stays over, unless a late touch revives this very session. */
  lemma OverStaysOver(s: State, step: Step, token: Token)
    requires Valid(s) && Over(s, token) && !RevivesToken(s, step, token)
    ensures Over(Next(s, step), token)
  {
    NextIsValid(s, step);
    StepAges(s, step, token);
    if token in s.rows {
      assert RowOk(s, token, s.rows[token]);
    }
    if Dead(s, token) {
      DeadStaysDead(s, step, token);
    } else if Barred(s, token) {
      if token in Next(s, step).rows {
        BarredStaysBarred(s, step, token);
      }
    } else if Revives(s, step) && step.Touch? && step.token == token {
      DisabledIsBarred(s, token);
      BarredStaysBarred(s, step, token);
    }
  }

  /** One step brings a session that is over back exactly when it is such a touch. */
  lemma OverResolvesExactly(s: State, step: Step, token: Token)
    requires Valid(s) && Over(s, token)
    ensures Resolves(Next(s, step), token, Next(s, step).clock) <==> RevivesToken(s, step, token)
  {
    if !RevivesToken(s, step, token) {
      OverStaysOver(s, step, token);
    } else {
      assert RowOk(s, token, s.rows[token]);
    }
  }

  predicate ResolvesAlong(s: State, steps: seq<Step>, token: Token)
    decreases |steps|
  {
    steps != [] &&
    (var next := Next(s, steps[0]);
     Resolves(next, token, next.clock) || ResolvesAlong(next, steps[1..], token))
  }

  predicate RevivedAlong(s: State, steps: seq<Step>, token: Token)
    decreases |steps|
  {
    steps != [] && (RevivesToken(s, steps[0], token) || RevivedAlong(Next(s, steps[0]), steps[1..], token))
  }

  /** Thirty minutes without a touch end a token for good, exactly unless a late touch of it
      comes in the run. */
  lemma {:induction false} IdleIsFinal(s: State, steps: seq<Step>, token: Token)
    requires Valid(s) && Over(s, token)
    ensures ResolvesAlong(s, steps, token) <==> RevivedAlong(s, steps, token)
    decreases |steps|
  {
    if steps != [] {
      OverResolvesExactly(s, steps[0], token);
      NextIsValid(s, steps[0]);
      if !RevivesToken(s, steps[0], token) {
        OverStaysOver(s, steps[0], token);
        IdleIsFinal(Next(s, steps[0]), steps[1..], token);
      }
    }
  }

  // ---- the session under whatever token -------------------------------------------------

  /** Every token the session has had is over. */
  predicate FamilyOver(s: State, family: nat) {
    family < s.nextFamily && forall t | t in s.rows && s.rows[t].family == family :: Over(s, t)
  }

  predicate FamilyResolves(s: State, family: nat, now: int) {
    exists t :: t in s.rows && s.rows[t].family == family && Resolves(s, t, now)
  }

  /** A touch or rotation that read the clock in time and commits late, for a member who may act. */
  predicate RevivesFamily(s: State, step: Step, family: nat) {
    Revives(s, step) && s.rows[step.token].family == family && Acts(s.members, s.rows[step.token].member)
  }

  lemma FamilyStaysFamily(s: State, step: Step, t: Token)
    requires Valid(s) && t in Next(s, step).rows
    ensures t in s.rows ==> Next(s, step).rows[t].family == s.rows[t].family
    ensures t !in s.rows ==> t == s.nextToken && (step.Issue? || step.Rotate?)
    ensures t !in s.rows && step.Issue? ==> Next(s, step).rows[t].family == s.nextFamily
    ensures t !in s.rows && step.Rotate? ==>
              RotationDue(s, step.token, step.proof, step.at)
              && Next(s, step).rows[t] == Successor(s.rows[step.token], step.at)
    ensures s.nextFamily <= Next(s, step).nextFamily
  {
  }

  /** A successor that does not revive its session is over as soon as it is there. */
  lemma SuccessorIsOver(s: State, step: Step)
    requires Valid(s) && Enabled(s, step) && step.Rotate? && RotationDue(s, step.token, step.proof, step.at)
    requires Over(s, step.token) && !Revives(s, step)
    ensures Over(Next(s, step), s.nextToken)
  {
    assert RowOk(s, step.token, s.rows[step.token]);
  }

  lemma FamilyStaysOver(s: State, step: Step, family: nat)
    requires Valid(s) && FamilyOver(s, family) && !RevivesFamily(s, step, family)
    ensures FamilyOver(Next(s, step), family)
  {
    var next := Next(s, step);
    if Enabled(s, step) {
      forall t | t in next.rows && next.rows[t].family == family ensures Over(next, t) {
        FamilyStaysFamily(s, step, t);
        if t in s.rows {
          OverStaysOver(s, step, t);
        } else {
          SuccessorIsOver(s, step);
        }
      }
      FamiliesGrow(s, step);
    }
  }

  lemma FamiliesGrow(s: State, step: Step)
    ensures s.nextFamily <= Next(s, step).nextFamily
  {
  }

  lemma RevivedResolves(s: State, step: Step, family: nat)
    requires Valid(s) && RevivesFamily(s, step, family)
    ensures FamilyResolves(Next(s, step), family, Next(s, step).clock)
  {
    var token: Token := step.token;
    assert RowOk(s, token, s.rows[token]);
    var revived: Token := if step.Touch? then token else s.nextToken;
    assert Resolves(Next(s, step), revived, s.clock);
  }

  lemma OverMeansNone(s: State, family: nat)
    requires Valid(s) && FamilyOver(s, family)
    ensures !FamilyResolves(s, family, s.clock)
  {
  }

  /** One transaction brings a session that is over back exactly when it revives it. */
  lemma FamilyResolvesExactly(s: State, step: Step, family: nat)
    requires Valid(s) && FamilyOver(s, family)
    ensures FamilyResolves(Next(s, step), family, Next(s, step).clock) <==> RevivesFamily(s, step, family)
  {
    NextIsValid(s, step);
    if RevivesFamily(s, step, family) {
      RevivedResolves(s, step, family);
    } else {
      FamilyStaysOver(s, step, family);
      OverMeansNone(Next(s, step), family);
    }
  }

  predicate FamilyResolvesAlong(s: State, steps: seq<Step>, family: nat)
    decreases |steps|
  {
    steps != [] &&
    (var next := Next(s, steps[0]);
     FamilyResolves(next, family, next.clock) || FamilyResolvesAlong(next, steps[1..], family))
  }

  predicate FamilyRevivedAlong(s: State, steps: seq<Step>, family: nat)
    decreases |steps|
  {
    steps != [] &&
    (RevivesFamily(s, steps[0], family) || FamilyRevivedAlong(Next(s, steps[0]), steps[1..], family))
  }

  /** A session that is over comes back in a run, under whatever token, exactly when a late touch
      or a late rotation of it comes in that run. */
  lemma {:induction false} IdleSessionIsFinal(s: State, steps: seq<Step>, family: nat)
    requires Valid(s) && FamilyOver(s, family)
    ensures FamilyResolvesAlong(s, steps, family) <==> FamilyRevivedAlong(s, steps, family)
    decreases |steps|
  {
    if steps != [] {
      FamilyResolvesExactly(s, steps[0], family);
      NextIsValid(s, steps[0]);
      if !RevivesFamily(s, steps[0], family) {
        FamilyStaysOver(s, steps[0], family);
        IdleSessionIsFinal(Next(s, steps[0]), steps[1..], family);
      }
    }
  }

  // ---- it happens -----------------------------------------------------------------------

  /** Read at 1799, idle at 1800, written then, and the session resolves again. */
  lemma LateTouchRevives(subject: string)
    ensures var idle := Crowded(subject, 0, 0, 1_800);
            && idle == Run(Bootstrapped(subject, 0), TOUCH_OPENING)
            && IdleOut(idle, 0) && !Resolves(idle, 0, 1_800)
            && Resolves(Next(idle, Touch(0, 1_799)), 0, 1_800)
  {
    TouchOpens(subject);
    var idle := Crowded(subject, 0, 0, 1_800);
    assert TouchApplies(idle.rows, 0, 1_799);
  }

  /** Read at 3600, idle at 3601, rotated then: the session resolves again under a new token. */
  lemma LateRotationCarriesOn(subject: string)
    ensures var idle := Crowded(subject, 0, 1_801, 3_601);
            && idle == Run(Bootstrapped(subject, 0), ROTATION_OPENING)
            && FamilyOver(idle, 0) && !FamilyResolves(idle, 0, 3_601)
            && FamilyResolves(Next(idle, Rotate(0, 0, 3_600)), 0, 3_601)
  {
    RotationOpens(subject);
    LateRotationRevives(subject, 0);
    var idle := Crowded(subject, 0, 1_801, 3_601);
    BootstrapIsValid(subject, 0);
    RunKeepsValid(Bootstrapped(subject, 0), ROTATION_OPENING);
    FamilyResolvesExactly(idle, Rotate(0, 0, 3_600), 0);
    OverMeansNone(idle, 0);
  }
}
