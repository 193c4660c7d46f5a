/** The limiter's transaction: the global bucket, a bounded purge, then the subject bucket. */
module RateLimiter {
  import opened Wrappers
  import opened SetSizes
  import opened RateLimitModel

  class Limiter {
    var table: Table
    var nextId: nat
    ghost var clock: int
    ghost var log: seq<Admission>

    ghost predicate Valid()
      reads this
    {
      && Consistent(table, log, clock)
      && |table| <= CAPACITY
      && UniqueIds(table)
      && (forall k | k in table :: table[k].id < nextId)
    }

    constructor ()
      ensures Valid() && table == map[] && log == []
    {
      table, nextId, clock, log := map[], 0, 0, [];
    }

    /** The conditional upsert of one bucket, and the wait when it does not apply. */
    method Consume(key: Key, now: int) returns (decision: Decision)
      requires UniqueIds(table) && forall k | k in table :: table[k].id < nextId
      modifies this`table, this`nextId
      ensures UniqueIds(table) && forall k | k in table :: table[k].id < nextId
      ensures decision.Allowed? <==> Admits(old(table), key, now)
      ensures table == if decision.Allowed?
                       then old(table)[key := Charged(old(table), key, now, old(nextId))]
                       else old(table)
      ensures decision.Denied? ==>
                decision.retryAfter == RetryAfter(table[key].expires, now, RuleFor(key).window)
    {
      if Admits(table, key, now) {
        table := table[key := Charged(table, key, now, nextId)];
        nextId := nextId + 1;
        decision := Allowed;
      } else {
        decision := Denied(RetryAfter(table[key].expires, now, RuleFor(key).window));
      }
    }

    /** Delete at most `limit` expired rows, first by expiry and then by id. */
    method Purge(cutoff: int, limit: nat) returns (removed: nat)
      requires UniqueIds(table)
      modifies this`table
      ensures Purged(old(table), table, cutoff, limit)
      ensures removed == |old(table)| - |table|
    {
      removed := 0;
      var expired := set k | k in table && !Live(table[k], cutoff);
      while removed < limit && expired != {}
        invariant removed <= limit && removed == |old(table)| - |table|
        invariant PurgedSoFar(old(table), table, expired, cutoff)
      {
        FirstExists(table, expired);
        var first :| first in expired && ComesFirst(table, expired, first);
        FirstIsDropped(old(table), table, expired, cutoff, first);
        table := table - {first};
        expired := expired - {first};
        removed := removed + 1;
      }
      if removed < limit {
        forall k | k in table ensures Live(table[k], cutoff) {
          assert k !in expired;
        }
      }
    }

    /** Consume one bucket and, if it admits, log the admission with the bucket it starts. */
    method Charge(key: Key, now: int, ghost began: Option<Key>) returns (decision: Decision)
      requires UniqueIds(table) && forall k | k in table :: table[k].id < nextId
      requires Consistent(table, log, now)
      requires key.subject.Global? || (key in table && Live(table[key], now)) ||
               (|log| > 0 && log[|log| - 1].at == now && log[|log| - 1].began == Some(key) &&
                log[|log| - 1].key == Key(key.action, Global))
      modifies this`table, this`nextId, this`log
      ensures UniqueIds(table) && forall k | k in table :: table[k].id < nextId
      ensures Consistent(table, log, now)
      ensures decision.Allowed? <==> Admits(old(table), key, now)
      ensures decision.Allowed? ==>
                && table == old(table)[key := Charged(old(table), key, now, old(nextId))]
                && log == old(log) + [Admission(key, now, table[key].count, table[key].expires, began)]
      ensures decision.Denied? ==>
                && table == old(table) && log == old(log)
                && decision.retryAfter == RetryAfter(table[key].expires, now, RuleFor(key).window)
    {
      decision := Consume(key, now);
      if decision.Allowed? {
        assert !key.subject.Global? && !(key in old(table) && Live(old(table)[key], now)) ==>
            OpenedBy(log[|log| - 1], key, table[key]);
        ChargeKeeps(old(table), log, key, now, old(nextId), began);
        log := log + [Admission(key, now, table[key].count, table[key].expires, began)];
      }
    }

    /** Purge one batch, which keeps the admissions counted and decides nothing. */
    method Clean(subject: Key, now: int)
      requires UniqueIds(table) && forall k | k in table :: table[k].id < nextId
      requires Consistent(table, log, now)
      modifies this`table
      ensures UniqueIds(table) && forall k | k in table :: table[k].id < nextId
      ensures Consistent(table, log, now) && Purged(old(table), table, now, CLEANUP_LIMIT)
      ensures subject in old(table) && Live(old(table)[subject], now) ==> subject in table
      ensures Admits(table, subject, now) <==> Admits(old(table), subject, now)
    {
      var removed := Purge(now, CLEANUP_LIMIT);
      PurgeKeeps(old(table), table, log, now, CLEANUP_LIMIT);
      PurgeDoesNotDecide(old(table), table, now, CLEANUP_LIMIT, subject, now);
    }

    /** The rest of a transaction whose global bucket has admitted the call. */
    method PurgeAndCharge(global: Key, subject: Key, now: int, ghost before: Table, ghost id: nat)
      returns (decision: Decision)
      requires UniqueIds(table) && forall k | k in table :: table[k].id < nextId
      requires Consistent(table, log, now) && |before| <= CAPACITY
      requires global.subject.Global? && !subject.subject.Global? && global.action == subject.action
      requires table == before[global := Charged(before, global, now, id)] && Live(table[global], now)
      requires (subject in table && Live(table[subject], now)) ||
               (|log| > 0 && log[|log| - 1].at == now && log[|log| - 1].began == Some(subject) &&
                log[|log| - 1].key == global)
      modifies this`table, this`nextId, this`log
      ensures UniqueIds(table) && forall k | k in table :: table[k].id < nextId
      ensures Consistent(table, log, now) && |table| <= CAPACITY
      ensures decision.Allowed? <==> Admits(before, subject, now)
      ensures decision.Denied? ==>
                decision.retryAfter ==
                RetryAfter(before[subject].expires, now, SubjectRule(subject.action).window)
      ensures Committed(before, table, global, subject, now, id, decision)
      ensures old(log) <= log && |log| == |old(log)| + if decision.Allowed? then 1 else 0
      ensures decision.Allowed? ==> IsAt(log[|old(log)|], subject, now)
    {
      Clean(subject, now);
      ghost var purged := table;
      decision := Charge(subject, now, None);
      CommitsThrough(before, old(table), purged, table, global, subject, now, id,
                     old(nextId), decision);
      CallStaysWithinCapacity(before, old(table), purged, table, log, now, subject);
    }

    /** One enforcement call, as one transaction. */
    method Enforce(action: Action, scope: Scope, value: string, now: int)
      returns (decision: Decision)
      requires Valid() && clock <= now
      modifies this
      ensures Valid() && clock == now && old(log) <= log
      ensures var global, subject := Key(action, Global), Key(action, Named(scope, value));
              decision ==
              if !Admits(old(table), global, now) then
                Denied(RetryAfter(old(table)[global].expires, now, GlobalRule(action).window))
              else if !Admits(old(table), subject, now) then
                Denied(RetryAfter(old(table)[subject].expires, now, SubjectRule(action).window))
              else
                Allowed
      ensures var global, subject := Key(action, Global), Key(action, Named(scope, value));
              if !Admits(old(table), global, now) then
                table == old(table) && log == old(log)
              else
                && Committed(old(table), table, global, subject, now, old(nextId), decision)
                && Entered(old(log), log, global, subject, now, decision)
    {
      var global, subject := Key(action, Global), Key(action, Named(scope, value));
      TimePasses(table, log, clock, now);
      clock := now;
      ghost var starts := !(subject in table && Live(table[subject], now));
      decision := Charge(global, now, if starts then Some(subject) else None);
      if decision.Allowed? {
        ghost var charged := log;
        decision := PurgeAndCharge(global, subject, now, old(table), old(nextId));
        BothEntered(old(log), charged, log, global, subject, now, decision);
      }
    }
  }

  /** The admissions of one call that the global bucket admitted: there, and in the subject's
      bucket if that admitted it too. */
  predicate Entered(before: seq<Admission>, after: seq<Admission>, global: Key, subject: Key, now: int,
                    decision: Decision) {
    && before <= after && |after| == |before| + (if decision.Allowed? then 2 else 1)
    && IsAt(after[|before|], global, now)
    && (decision.Allowed? ==> IsAt(after[|before| + 1], subject, now))
  }

  predicate IsAt(a: Admission, key: Key, now: int) { a.key == key && a.at == now }

  lemma BothEntered(before: seq<Admission>, charged: seq<Admission>, after: seq<Admission>, global: Key,
                    subject: Key, now: int, decision: Decision)
    requires |charged| == |before| + 1 && before <= charged <= after && IsAt(charged[|before|], global, now)
    requires |after| == |charged| + if decision.Allowed? then 1 else 0
    requires decision.Allowed? ==> IsAt(after[|charged|], subject, now)
    ensures Entered(before, after, global, subject, now, decision)
  {
  }

  /**
   * The table after a call that the global bucket admitted: that bucket charged, the
   * subject's too if it admitted, and of the other rows none changed and only expired
   * ones gone.
   */
  predicate Committed(before: Table, after: Table, global: Key, subject: Key, now: int, id: nat,
                      decision: Decision) {
    && Lookup(after, global) == Some(Charged(before, global, now, id))
    && (decision.Allowed? ==>
          subject in after &&
          after[subject].(id := 0) == Charged(before, subject, now, 0).(id := 0))
    && (decision.Denied? ==> Lookup(after, subject) == Lookup(before, subject))
    && (forall k | k in after && k != global && k != subject :: k in before && after[k] == before[k])
    && (forall k | k in before && k !in after :: !Live(before[k], now))
  }

  lemma CommitsThrough(before: Table, charged: Table, purged: Table, after: Table, global: Key,
                       subject: Key, now: int, id: nat, subjectId: nat, decision: Decision)
    requires global.subject.Global? && !subject.subject.Global?
    requires charged == before[global := Charged(before, global, now, id)]
    requires Live(charged[global], now) && Purged(charged, purged, now, CLEANUP_LIMIT)
    requires decision.Allowed? ==> after == purged[subject := Charged(purged, subject, now, subjectId)]
    requires decision.Denied? ==> after == purged && !Admits(purged, subject, now)
    ensures Committed(before, after, global, subject, now, id, decision)
  {
    if decision.Denied? {
      assert subject in purged && Live(purged[subject], now);
    }
  }

  /** Only expired rows are gone, each of them before every expired row that is left. */
  ghost predicate PurgedSoFar(before: Table, t: Table, expired: set<Key>, cutoff: int) {
    && expired == (set k | k in t && !Live(t[k], cutoff))
    && (forall k | k in t :: k in before && t[k] == before[k])
    && (forall k | k in before && k !in t :: !Live(before[k], cutoff))
    && (forall k, k' | k in before && k !in t && k' in expired :: Before(before[k], t[k']))
  }

  lemma FirstIsDropped(before: Table, t: Table, expired: set<Key>, cutoff: int, first: Key)
    requires PurgedSoFar(before, t, expired, cutoff) && first in expired && ComesFirst(t, expired, first)
    ensures PurgedSoFar(before, t - {first}, expired - {first}, cutoff)
    ensures |t - {first}| == |t| - 1
  {
    assert (t - {first}).Keys == t.Keys - {first};
  }

  predicate ComesFirst(t: Table, keys: set<Key>, first: Key)
    requires first in keys && forall k | k in keys :: k in t
  {
    forall k | k in keys && k != first :: Before(t[first], t[k])
  }

  lemma {:induction false} FirstExists(t: Table, keys: set<Key>)
    requires keys != {} && UniqueIds(t) && forall k | k in keys :: k in t
    ensures exists first :: first in keys && ComesFirst(t, keys, first)
  {
    var k :| k in keys;
    if keys == {k} {
      assert ComesFirst(t, keys, k);
    } else {
      FirstExists(t, keys - {k});
      var other :| other in keys - {k} && ComesFirst(t, keys - {k}, other);
      assert ComesFirst(t, keys, if Before(t[k], t[other]) then k else other);
    }
  }

  datatype Call = Call(action: Action, scope: Scope, value: string, at: int)

  function GlobalOf(c: Call): Key { Key(c.action, Global) }

  function SubjectOf(c: Call): Key { Key(c.action, Named(c.scope, c.value)) }

  /** The allowed calls a bucket had to admit during one window length from a starting point. */
  function AllowedIn(calls: seq<Call>, decisions: seq<Decision>, key: Key, from: int): set<int> {
    set i | 0 <= i < |calls| && i < |decisions| && decisions[i].Allowed?
            && (key == GlobalOf(calls[i]) || key == SubjectOf(calls[i]))
            && from <= calls[i].at < from + Window(key)
  }

  /** Where in the log each allowed call has its two admissions. */
  ghost predicate Placed(log: seq<Admission>, places: seq<nat>, calls: seq<Call>, decisions: seq<Decision>) {
    && |places| == |decisions| <= |calls|
    && (forall i | 0 <= i < |places| && decisions[i].Allowed? ::
          && places[i] + 1 < |log|
          && log[places[i]].key == GlobalOf(calls[i]) && log[places[i]].at == calls[i].at
          && log[places[i] + 1].key == SubjectOf(calls[i]) && log[places[i] + 1].at == calls[i].at)
    && (forall i, j | 0 <= i < j < |places| && decisions[i].Allowed? :: places[i] + 2 <= places[j])
  }

  /** An allowed call finds its place behind all those before it. */
  lemma PlacesGrow(before: seq<Admission>, after: seq<Admission>, places: seq<nat>, calls: seq<Call>,
                   decisions: seq<Decision>, decision: Decision)
    requires Placed(before, places, calls, decisions) && |decisions| < |calls| && before <= after
    requires forall i | 0 <= i < |places| :: decisions[i].Allowed? ==> places[i] + 2 <= |before|
    requires var c := calls[|decisions|];
             decision.Allowed? ==> Entered(before, after, GlobalOf(c), SubjectOf(c), c.at, decision)
    ensures Placed(after, places + [|before|], calls, decisions + [decision])
  {
  }

  /** Each allowed call is an admission of its own, so the bound on a bucket bounds its calls. */
  lemma CallsAreAdmissions(log: seq<Admission>, places: seq<nat>, calls: seq<Call>, decisions: seq<Decision>,
                           key: Key, from: int)
    requires Placed(log, places, calls, decisions)
    ensures |AllowedIn(calls, decisions, key, from)| <= |AdmittedIn(log, key, from, from + Window(key))|
  {
    var allowed := AllowedIn(calls, decisions, key, from);
    var f := i => if 0 <= i < |places| then places[i] + (if key.subject.Global? then 0 else 1) else 0;
    forall i, j | i in allowed && j in allowed && i < j ensures f(i) != f(j) {
      assert places[i] + 2 <= places[j];
    }
    InjectionBound(allowed, AdmittedIn(log, key, from, from + Window(key)), f);
  }

  /** With a clock that never goes back, the table never outgrows its capacity, and no bucket
      lets more than 2*limit - 1 calls through in any interval of one window length. */
  method Serve(limiter: Limiter, calls: seq<Call>) returns (decisions: seq<Decision>)
    requires limiter.Valid()
    requires forall i | 0 <= i < |calls| :: limiter.clock <= calls[i].at
    requires forall i, j | 0 <= i < j < |calls| :: calls[i].at <= calls[j].at
    modifies limiter
    ensures limiter.Valid() && |limiter.table| <= CAPACITY && |decisions| == |calls|
    ensures forall key, from :: |AllowedIn(calls, decisions, key, from)| <= 2 * Limit(key) - 1
  {
    decisions := [];
    ghost var places: seq<nat> := [];
    for i := 0 to |calls|
      invariant limiter.Valid() && |decisions| == i
      invariant forall j | i <= j < |calls| :: limiter.clock <= calls[j].at
      invariant Placed(limiter.log, places, calls, decisions)
    {
      ghost var before := limiter.log;
      var decision := limiter.Enforce(calls[i].action, calls[i].scope, calls[i].value, calls[i].at);
      PlacesGrow(before, limiter.log, places, calls, decisions, decision);
      places := places + [|before|];
      decisions := decisions + [decision];
    }
    forall key, from ensures |AllowedIn(calls, decisions, key, from)| <= 2 * Limit(key) - 1 {
      CallsAreAdmissions(limiter.log, places, calls, decisions, key, from);
      SlidingWindowBound(limiter.table, limiter.log, limiter.clock, key, from);
    }
  }
}
