/** The session and team transactions as the code runs them, row by row. */
module SessionStore {
  import opened Wrappers
  import opened SetSizes
  import opened SessionModel
  import opened SessionInvariants
  import opened SessionGuarantees

  datatype Rotation = Rejected | NotDue | Rotated(token: Token)

  class Database {
    var rows: Rows
    var members: map<MemberId, Member>
    var clock: int
    var nextToken: nat
    var nextFamily: nat
    var nextMember: nat

    function Snapshot(): State
      reads this
    {
      State(rows, members, clock, nextToken, nextFamily, nextMember)
    }

    /** The offline bootstrap of an empty server organization. */
    constructor (subject: string, clock: int)
      ensures Snapshot() == Bootstrapped(subject, clock) && Valid(Snapshot())
    {
      rows, members := map[], map[2 := Member(subject, Owner, true, true)];
      this.clock, nextToken, nextFamily, nextMember := clock, 0, 0, 3;
      new;
      BootstrapIsValid(subject, clock);
    }

    /** Repeating the bootstrap: accepted only while its owner is still the only member. */
    method BootstrapAgain(subject: string) returns (accepted: bool)
      requires Valid(Snapshot())
      ensures accepted <==> |members| == 1 &&
                            forall m | m in members :: members[m].subject == subject
    {
      accepted := |members| == 1 && forall m | m in members :: members[m].subject == subject;
    }

    /** Revoke the families of these rows, one after the other. */
    method RevokeFamiliesOf(tokens: set<Token>, at: int)
      requires forall t | t in tokens :: t in rows
      modifies this`rows
      ensures rows == RevokeFamilies(old(rows), FamiliesOf(old(rows), tokens), at)
    {
      var before, left := rows, tokens;
      ghost var done: set<Token> := {};
      assert FamiliesOf(rows, {}) == {};
      assert rows == RevokeFamilies(rows, {}, at);
      while left != {}
        invariant done !! left && done + left == tokens
        invariant rows == RevokeFamilies(before, FamiliesOf(before, done), at)
      {
        var stale := Choose(left);
        RevokeOneMore(before, done, stale, at);
        rows := RevokeFamilies(rows, {before[stale].family}, at);
        done, left := done + {stale}, left - {stale};
      }
      assert done == tokens;
    }

    method IssueSession(m: MemberId, at: int) returns (token: Option<Token>)
      requires Valid(Snapshot()) && at <= clock
      modifies this
      ensures Valid(Snapshot())
      ensures token.Some? ==>
                exists evicted ::
                  MakesRoom(old(Snapshot()), m, evicted, at) &&
                  Snapshot() == AfterIssue(old(Snapshot()), m, evicted, at)
      ensures token.None? ==> Snapshot() == old(Snapshot())
      ensures token == if Acts(old(members), m) then Some(old(nextToken)) else None
    {
      ghost var before := Snapshot();
      if !Acts(members, m) {
        return None;
      }
      var evicted := Overflow(Snapshot(), m, at);
      RevokeFamiliesOf(evicted, at);
      IssueKeepsValid(before, m, evicted, at);
      rows := rows[nextToken := Row(nextFamily, 0, m, members[m].role, at, at, at + LIFETIME, None, None)];
      token := Some(nextToken);
      nextToken, nextFamily := nextToken + 1, nextFamily + 1;
      assert Snapshot() == AfterIssue(before, m, evicted, at);
    }

    /** Resolve one token, touching its row when it is due. */
    method Resolve(token: Token, proof: Option<Token>, touch: bool, at: int) returns (member: Option<MemberId>)
      requires Valid(Snapshot()) && at <= clock
      modifies this`rows
      ensures Valid(Snapshot())
      ensures member.Some? <==>
              Resolves(old(Snapshot()), token, at) && (proof.Some? ==> proof.value == token)
      ensures member.Some? ==> member.value == old(rows)[token].member
      ensures Snapshot() == if touch && member.Some? then AfterTouch(old(Snapshot()), token, at)
                            else old(Snapshot())
    {
      if !Resolves(Snapshot(), token, at) || (proof.Some? && proof.value != token) {
        return None;
      }
      member := Some(rows[token].member);
      TouchKeepsValid(Snapshot(), token, at);
      if touch && rows[token].seen <= at - TOUCH_INTERVAL {
        rows := rows[token := rows[token].(seen := at)];
      }
    }

    method Rotate(token: Token, proof: Token, at: int) returns (r: Rotation)
      requires Valid(Snapshot()) && at <= clock
      modifies this`rows, this`nextToken
      ensures Valid(Snapshot()) && Snapshot() == AfterRotate(old(Snapshot()), token, proof, at)
      ensures r == if !Resolves(old(Snapshot()), token, at) || proof != token then Rejected
                   else if old(rows)[token].issued + ROTATION_INTERVAL > at then NotDue
                   else Rotated(old(nextToken))
    {
      RotateKeepsValid(Snapshot(), token, proof, at);
      if !Resolves(Snapshot(), token, at) || proof != token {
        return Rejected;
      }
      var current := rows[token];
      GenerationsAreFew(Snapshot(), token);
      if current.issued + ROTATION_INTERVAL > at {
        return NotDue;
      }
      if current.generation >= MAX_GENERATION {
        return Rejected;
      }
      rows := rows[token := current.(replaced := Some(at))];
      rows := rows[nextToken := Successor(current, at)];
      r := Rotated(nextToken);
      nextToken := nextToken + 1;
    }

    /** Rotate if asked and due, then resolve, and perhaps touch, whichever token is now the
        session's, all by the clock as it was read first. */
    method UseSession(token: Token, proof: Option<Token>, rotateIfDue: bool, touch: bool, at: int)
      returns (used: Option<Token>)
      requires Valid(Snapshot()) && at <= clock && (rotateIfDue ==> proof.Some?)
      modifies this`rows, this`nextToken
      ensures Valid(Snapshot())
      ensures used.Some? <==> Resolves(old(Snapshot()), token, at) && (proof.Some? ==> proof.value == token)
      ensures Snapshot() == if used.None? then old(Snapshot())
                            else if rotateIfDue && RotationDue(old(Snapshot()), token, token, at)
                            then AfterRotate(old(Snapshot()), token, token, at)
                            else if touch then AfterTouch(old(Snapshot()), token, at)
                            else old(Snapshot())
      ensures used.Some? ==> Resolves(Snapshot(), used.value, at) &&
                             rows[used.value].expires == old(rows)[token].expires
      ensures used.Some? && used.value != token ==>
                rotateIfDue && used.value == old(nextToken) && !Resolves(Snapshot(), token, at)
      ensures used.Some? && rotateIfDue ==> at < rows[used.value].issued + ROTATION_INTERVAL
    {
      ghost var before := Snapshot();
      var active := token;
      if rotateIfDue {
        var rotation := Rotate(token, proof.value, at);
        match rotation
        case Rejected =>
          return None;
        case NotDue =>
        case Rotated(successor) =>
          RotationHandsOver(before, token, at, at);
          active := successor;
      }
      var member := Resolve(active, if active == token then proof else Some(active), touch, at);
      used := if member.Some? then Some(active) else None;
    }

    /** Logout by one token: close every row of its family that is still unrevoked. */
    method RevokeSession(token: Token, at: int) returns (closed: bool)
      requires Valid(Snapshot()) && at <= clock
      modifies this`rows
      ensures Valid(Snapshot()) && Snapshot() == AfterRevoke(old(Snapshot()), token, at)
      ensures closed <==> token in old(rows) && FamilyOpen(old(rows), old(rows)[token].family)
    {
      RevokeKeepsValid(Snapshot(), token, at);
      if token !in rows || !FamilyOpen(rows, rows[token].family) {
        return false;
      }
      CloseFamily(rows[token].family, at);
      closed := true;
    }

    /** Revoke the rows of a family one after the other. */
    method CloseFamily(family: nat, at: int)
      modifies this`rows
      ensures rows == RevokeFamilies(old(rows), {family}, at)
    {
      ghost var before := rows;
      var pending := set t | t in rows && rows[t].family == family;
      while pending != {}
        invariant rows.Keys == before.Keys
        invariant pending <= set t | t in before && before[t].family == family
        invariant forall t | t in rows ::
                    rows[t] == if t in pending then before[t] else RevokeFamilies(before, {family}, at)[t]
      {
        var item := Choose(pending);
        if rows[item].revoked.None? {
          rows := rows[item := rows[item].(revoked := Some(at))];
        }
        pending := pending - {item};
      }
      assert rows == RevokeFamilies(before, {family}, at);
    }

    /** Revoke every session of a membership; report how many were open. */
    method RevokeMemberSessions(m: MemberId, at: int) returns (count: nat)
      requires Valid(Snapshot()) && at <= clock
      modifies this`rows
      ensures Valid(Snapshot()) && rows == RevokeMembership(old(rows), m, at)
      ensures count == |set t | t in old(rows) && old(rows)[t].member == m && Open(old(rows)[t])|
    {
      RevokeMemberKeepsValid(Snapshot(), m, at);
      count := |set t | t in rows && rows[t].member == m && Open(rows[t])|;
      rows := RevokeMembership(rows, m, at);
    }

    /** Delete the inactive rows with the smallest ids, at most `limit` of them. */
    method PurgeInactive(cutoff: int, limit: nat) returns (removed: set<Token>)
      requires Valid(Snapshot()) && cutoff <= clock
      modifies this`rows
      ensures Valid(Snapshot()) && rows == old(rows) - removed
      ensures Enabled(old(Snapshot()), Purge(cutoff, removed))
      ensures |removed| <= limit
      ensures |removed| < limit ==> forall t | t in rows :: !Inactive(rows[t], cutoff)
      ensures forall t, u | t in removed && u in rows && Inactive(rows[u], cutoff) :: t < u
    {
      removed := FirstInactive(rows, cutoff, limit);
      rows := rows - removed;
      StepKeepsValid(old(Snapshot()), Purge(cutoff, removed));
    }

    // ---- team administration ------------------------------------------------------

    method ProvisionMember(actor: MemberId, subject: string, role: Role) returns (m: Option<MemberId>)
      requires Valid(Snapshot())
      modifies this`members, this`nextMember
      ensures Valid(Snapshot()) && Snapshot() == AfterProvision(old(Snapshot()), actor, subject, role)
      ensures m.Some? ==> m.value !in old(members) && m.value in members
      ensures m.None? <==> members == old(members)
    {
      ProvisionKeepsValid(Snapshot(), actor, subject, role);
      if !MayManage(Snapshot(), actor) || role == Owner || |members| >= MAX_TEAM_MEMBERS
         || exists other :: other in members && members[other].subject == subject {
        return None;
      }
      m := Some(nextMember);
      assert nextMember !in members;
      members := members[nextMember := Member(subject, role, true, true)];
      nextMember := nextMember + 1;
    }

    /** A role or status change and the revocation it needs, in one transaction. */
    method ChangeMember(actor: MemberId, m: MemberId, role: Role, active: bool, at: int) returns (accepted: bool)
      requires Valid(Snapshot()) && at <= clock
      modifies this`members, this`rows
      ensures Valid(Snapshot()) && Snapshot() == AfterChange(old(Snapshot()), actor, m, role, active, at)
      ensures accepted ==> m in members && members[m].role == role && members[m].active == active
      ensures !accepted ==> Snapshot() == old(Snapshot())
    {
      ghost var before := Snapshot();
      ChangeKeepsValid(before, actor, m, role, active, at);
      if !MayManage(Snapshot(), actor) || role == Owner || m !in members || members[m].role == Owner {
        return false;
      }
      accepted := true;
      if members[m].role != role || members[m].active != active {
        var count := RevokeMemberSessions(m, at);
        members := members[m := members[m].(role := role, active := active)];
      }
    }

    method TransferOwnership(actor: MemberId, m: MemberId, at: int, later: int) returns (accepted: bool)
      requires Valid(Snapshot()) && at <= later <= clock
      modifies this`members, this`rows
      ensures Valid(Snapshot()) && Snapshot() == AfterTransfer(old(Snapshot()), actor, m, at, later)
      ensures accepted <==> MayTransfer(old(Snapshot()), actor) && m != actor && Acts(old(members), m)
      ensures accepted ==> SoleOwner(members, m)
    {
      ghost var before := Snapshot();
      TransferKeepsValid(before, actor, m, at, later);
      if !MayTransfer(Snapshot(), actor) || !SoleOwner(members, actor) || m == actor || !Acts(members, m) {
        return false;
      }
      var previous := RevokeMemberSessions(actor, at);
      var recipient := RevokeMemberSessions(m, later);
      members := members[actor := members[actor].(role := Admin)][m := members[m].(role := Owner)];
      accepted := true;
    }
  }

  method Choose<T>(items: set<T>) returns (item: T)
    requires items != {}
    ensures item in items
  {
    item :| item in items;
  }

  /** The candidates an issue has to close to stay within the limit. */
  method Overflow(s: State, m: MemberId, at: int) returns (evicted: set<Token>)
    ensures MakesRoom(s, m, evicted, at)
  {
    var left := Candidates(s, m, at);
    evicted := {};
    while |left| >= MAX_ACTIVE
      invariant evicted !! left && evicted + left == Candidates(s, m, at)
      invariant evicted == {} || |left| >= MAX_ACTIVE - 1
      invariant forall t, u | t in evicted && u in left :: Earlier(s.rows, t, u)
    {
      EarliestExists(s.rows, left);
      var stale :| stale in left && IsEarliest(s.rows, left, stale);
      evicted, left := evicted + {stale}, left - {stale};
    }
    assert |evicted + left| == |evicted| + |left|;
  }

  /** The inactive rows with the smallest ids, as the deletion's subquery selects them. */
  method FirstInactive(rows: Rows, cutoff: int, limit: nat) returns (batch: set<Token>)
    ensures batch <= set t | t in rows && Inactive(rows[t], cutoff)
    ensures |batch| <= limit
    ensures |batch| < limit ==> forall t | t in rows && Inactive(rows[t], cutoff) :: t in batch
    ensures forall t, u | t in batch && u in rows && Inactive(rows[u], cutoff) && u !in batch :: t < u
  {
    var all := set t | t in rows && Inactive(rows[t], cutoff);
    batch := Smallest(all, limit);
    assert forall u | u in rows && Inactive(rows[u], cutoff) && u !in batch :: u in all - batch;
  }

  /** The smallest members of a set, up to a limit. */
  method Smallest(all: set<Token>, limit: nat) returns (batch: set<Token>)
    ensures batch <= all && |batch| <= limit && (|batch| < limit ==> batch == all)
    ensures forall t, u | t in batch && u in all - batch :: t < u
  {
    batch := {};
    var left := all;
    while |batch| < limit && left != {}
      invariant |batch| <= limit && Separates(batch, left, all)
    {
      SmallestExists(left);
      var first :| first in left && IsSmallest(left, first);
      SmallestMoves(batch, left, all, first);
      batch, left := batch + {first}, left - {first};
    }
    assert left == all - batch;
  }

  /** Two parts of a set, the smaller members in the first. */
  ghost predicate Separates(low: set<Token>, high: set<Token>, all: set<Token>) {
    low !! high && low + high == all && forall t, u | t in low && u in high :: t < u
  }

  lemma SmallestMoves(low: set<Token>, high: set<Token>, all: set<Token>, first: Token)
    requires Separates(low, high, all) && first in high && IsSmallest(high, first)
    ensures Separates(low + {first}, high - {first}, all) && |low + {first}| == |low| + 1
  {
  }

  predicate IsEarliest(rows: Rows, tokens: set<Token>, first: Token)
    requires first in tokens && forall t | t in tokens :: t in rows
  {
    forall t | t in tokens && t != first :: Earlier(rows, first, t)
  }

  lemma {:induction false} EarliestExists(rows: Rows, tokens: set<Token>)
    requires tokens != {} && forall t | t in tokens :: t in rows
    ensures exists first :: first in tokens && IsEarliest(rows, tokens, first)
  {
    var t := Pick(tokens);
    var rest := tokens - {t};
    if rest == {} {
      assert tokens == {t};
      assert IsEarliest(rows, tokens, t);
    } else {
      EarliestExists(rows, rest);
      var other :| other in rest && IsEarliest(rows, rest, other);
      var first := if Earlier(rows, t, other) then t else other;
      forall u | u in tokens && u != first ensures Earlier(rows, first, u) {
        assert u == t || u in rest;
      }
      assert IsEarliest(rows, tokens, first);
    }
  }

  predicate IsSmallest(tokens: set<Token>, first: Token) {
    forall u | u in tokens :: first <= u
  }

  lemma {:induction false} SmallestExists(tokens: set<Token>)
    requires tokens != {}
    ensures exists first :: first in tokens && IsSmallest(tokens, first)
  {
    var t := Pick(tokens);
    var rest := tokens - {t};
    if rest == {} {
      assert tokens == {t};
      assert IsSmallest(tokens, t);
    } else {
      SmallestExists(rest);
      var other :| other in rest && IsSmallest(rest, other);
      var first := if t < other then t else other;
      forall u | u in tokens ensures first <= u {
        assert u == t || u in rest;
      }
      assert first in tokens && IsSmallest(tokens, first);
    }
  }

  lemma RevokeOneMore(rows: Rows, evicted: set<Token>, stale: Token, at: int)
    requires stale in rows
    ensures var done := RevokeFamilies(rows, FamiliesOf(rows, evicted), at);
            RevokeFamilies(done, {done[stale].family}, at)
            == RevokeFamilies(rows, FamiliesOf(rows, evicted + {stale}), at)
  {
    assert FamiliesOf(rows, evicted + {stale}) == FamiliesOf(rows, evicted) + {rows[stale].family};
  }
}
