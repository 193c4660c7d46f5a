/**
 * The local browser sessions: a small table in order of last use.
 *
 * The table is the sequence of an ordered dictionary's items; digests are its keys.
 */
module LocalSessions {
  import opened Wrappers
  import opened SetSizes

  const MAX_AGE := 28800
  const IDLE := 1800
  const MAX_SESSIONS: nat := 8

  type Digest = nat

  datatype Entry = Entry(digest: Digest, id: nat, csrf: Digest, created: int, seen: int)

  predicate Expired(e: Entry, now: int) {
    e.created + MAX_AGE <= now || e.seen + IDLE <= now
  }

  /** The entries that have not expired, in their order. */
  function Live(table: seq<Entry>, now: int): (live: seq<Entry>)
    ensures |live| <= |table|
    ensures forall e :: e in live <==> e in table && !Expired(e, now)
  {
    if table == [] then []
    else (if Expired(table[0], now) then [] else [table[0]]) + Live(table[1..], now)
  }

  predicate Holds(table: seq<Entry>, digest: Digest) {
    exists e <- table :: e.digest == digest
  }

  function Position(table: seq<Entry>, digest: Digest): (at: Option<nat>)
    ensures at.Some? <==> Holds(table, digest)
    ensures at.Some? ==> at.value < |table| && table[at.value].digest == digest
    ensures at.Some? ==> forall i | 0 <= i < at.value :: table[i].digest != digest
  {
    if table == [] then None
    else if table[0].digest == digest then Some(0)
    else
      var rest := Position(table[1..], digest);
      if rest.None? then
        assert forall e <- table :: e == table[0] || e in table[1..];
        None
      else
        assert table[1 + rest.value] in table;
        Some(1 + rest.value)
  }

  /** Distinct, at most eight, in order of last use, and none used in the future. */
  predicate Valid(table: seq<Entry>, now: int) {
    && |table| <= MAX_SESSIONS
    && (forall i, j | 0 <= i < j < |table| ::
          table[i].digest != table[j].digest && table[i].seen <= table[j].seen)
    && (forall e <- table :: e.created <= e.seen <= now)
  }

  /** The last entries of a table. */
  function Newest(table: seq<Entry>, count: nat): seq<Entry> {
    if |table| <= count then table else table[|table| - count..]
  }

  function Used(table: seq<Entry>, at: nat, now: int): seq<Entry>
    requires at < |table|
  {
    table[..at] + table[at + 1..] + [table[at].(seen := now)]
  }

  datatype Check = Check(digest: Digest, csrf: Option<Digest>, touch: bool)

  predicate Accepts(table: seq<Entry>, c: Check, now: int) {
    exists e <- table :: e.digest == c.digest && !Expired(e, now) && (c.csrf.Some? ==> e.csrf == c.csrf.value)
  }

  datatype Step =
    | Issuing(digest: Digest, id: nat, csrf: Digest, now: int)
    | Verifying(check: Check, now: int)
    | Asking(digest: Digest, now: int)

  function Next(table: seq<Entry>, step: Step): seq<Entry> {
    var live := Live(table, step.now);
    match step
    case Issuing(digest, id, csrf, now) => Newest(live, MAX_SESSIONS - 1) + [Entry(digest, id, csrf, now, now)]
    case Verifying(c, now) =>
      var at := Position(live, c.digest);
      if Accepts(table, c, now) && c.touch && at.Some? then Used(live, at.value, now) else live
    case Asking(_, _) => live
  }

  class BrowserSessions {
    var table: seq<Entry>

    constructor ()
      ensures table == []
    {
      table := [];
    }

    method Purge(now: int)
      modifies this
      ensures table == Live(old(table), now)
    {
      var kept: seq<Entry> := [];
      var all := table;
      ghost var live := Live(all, now);
      for i := 0 to |all|
        invariant table == all && kept + Live(all[i..], now) == live
      {
        LiveStep(kept, all, i, now);
        if !Expired(all[i], now) {
          kept := kept + [all[i]];
        }
      }
      table := kept;
    }

    /** Drop the entries longest out of use until there is room for one more. */
    method MakeRoom()
      modifies this
      ensures table == Newest(old(table), MAX_SESSIONS - 1)
    {
      while |table| >= MAX_SESSIONS
        invariant |table| <= |old(table)| && table == old(table)[|old(table)| - |table|..]
        invariant |table| >= MAX_SESSIONS - 1 || table == old(table)
      {
        table := table[1..];
      }
    }

    method Issue(digest: Digest, id: nat, csrf: Digest, now: int)
      requires Valid(table, now) && !Holds(table, digest)
      modifies this
      ensures Valid(table, now)
      ensures table == Next(old(table), Issuing(digest, id, csrf, now))
    {
      LiveIsValid(table, now);
      Purge(now);
      NewestIsValid(table, MAX_SESSIONS - 1, now);
      MakeRoom();
      var e := Entry(digest, id, csrf, now, now);
      AppendIsValid(table, e, now);
      table := table + [e];
    }

    method Verify(c: Check, now: int) returns (ok: bool)
      requires Valid(table, now)
      modifies this
      ensures Valid(table, now)
      ensures ok <==> Accepts(old(table), c, now)
      ensures table == Next(old(table), Verifying(c, now))
    {
      LiveIsValid(table, now);
      Purge(now);
      var at := Position(table, c.digest);
      if at.None? {
        return false;
      }
      OnlyOne(table, at.value, now);
      if c.csrf.Some? && table[at.value].csrf != c.csrf.value {
        return false;
      }
      assert table[at.value] in table;
      if c.touch {
        UsedIsValid(table, at.value, now);
        table := Used(table, at.value, now);
      }
      ok := true;
    }

    method SessionId(digest: Digest, now: int) returns (id: Option<nat>)
      requires Valid(table, now)
      modifies this
      ensures Valid(table, now) && table == Next(old(table), Asking(digest, now))
      ensures id.Some? <==> Accepts(old(table), Check(digest, None, false), now)
      ensures id.Some? ==> exists e <- table :: e.digest == digest && e.id == id.value
    {
      LiveIsValid(table, now);
      Purge(now);
      var at := Position(table, digest);
      id := if at.None? then None else Some(table[at.value].id);
    }

    method Clear()
      modifies this
      ensures table == []
    {
      table := [];
    }
  }

  lemma LiveStep(kept: seq<Entry>, all: seq<Entry>, i: nat, now: int)
    requires i < |all|
    ensures kept + Live(all[i..], now)
         == (if Expired(all[i], now) then kept else kept + [all[i]]) + Live(all[i + 1..], now)
  {
    assert all[i..][1..] == all[i + 1..];
  }

  lemma {:induction false} LiveIsValid(table: seq<Entry>, now: int)
    requires Valid(table, now)
    ensures Valid(Live(table, now), now)
  {
    if table != [] {
      LiveIsValid(table[1..], now);
      forall e | e in table[1..] ensures table[0].digest != e.digest && table[0].seen <= e.seen {
      }
      ConsIsValid(table[0], Live(table[1..], now), now);
    }
  }

  lemma ConsIsValid(first: Entry, rest: seq<Entry>, now: int)
    requires Valid(rest, now) && |rest| < MAX_SESSIONS && first.created <= first.seen <= now
    requires forall e <- rest :: first.digest != e.digest && first.seen <= e.seen
    ensures Valid([first] + rest, now)
  {
  }

  lemma NewestIsValid(table: seq<Entry>, count: nat, now: int)
    requires Valid(table, now)
    ensures Valid(Newest(table, count), now)
  {
  }

  lemma AppendIsValid(table: seq<Entry>, e: Entry, now: int)
    requires Valid(table, now) && |table| < MAX_SESSIONS && !Holds(table, e.digest)
    requires e.created <= e.seen == now
    ensures Valid(table + [e], now)
  {
  }

  lemma OnlyOne(table: seq<Entry>, at: nat, now: int)
    requires Valid(table, now) && at < |table|
    ensures forall e <- table :: e.digest == table[at].digest ==> e == table[at]
  {
  }

  lemma UsedIsValid(table: seq<Entry>, at: nat, now: int)
    requires Valid(table, now) && at < |table|
    ensures Valid(Used(table, at, now), now)
  {
  }

  // ---- who is evicted ----------------------------------------------------------------

  /** Issuing evicts a live session only if eight were live, and then the one longest unused. */
  lemma EvictsOnlyTheOldest(table: seq<Entry>, now: int, gone: Entry)
    requires Valid(table, now) && gone in Live(table, now)
    requires gone !in Newest(Live(table, now), MAX_SESSIONS - 1)
    ensures |Live(table, now)| == MAX_SESSIONS
    ensures forall e <- Live(table, now) :: e != gone ==> gone.seen <= e.seen
    ensures forall e <- Live(table, now) :: e != gone ==> e in Newest(Live(table, now), MAX_SESSIONS - 1)
  {
    LiveIsValid(table, now);
    var live := Live(table, now);
    assert |live| == MAX_SESSIONS;
    forall e | e in live ensures e == live[0] || e in live[1..] {
    }
    assert gone == live[0];
  }

  // ---- recently used sessions stay -----------------------------------------------------

  /** The sessions a step uses. */
  function Uses(table: seq<Entry>, step: Step): set<Digest> {
    match step
    case Issuing(digest, _, _, _) => {digest}
    case Verifying(c, now) => if c.touch && Accepts(table, c, now) then {c.digest} else {}
    case Asking(_, _) => {}
  }

  function After(table: seq<Entry>, steps: seq<Step>): seq<Entry>
    decreases |steps|
  {
    if steps == [] then table else After(Next(table, steps[0]), steps[1..])
  }

  function UsedIn(table: seq<Entry>, steps: seq<Step>): set<Digest>
    decreases |steps|
  {
    if steps == [] then {} else Uses(table, steps[0]) + UsedIn(Next(table, steps[0]), steps[1..])
  }

  /** In time order, until a last moment, and with digests never issued before. */
  predicate Timely(table: seq<Entry>, steps: seq<Step>, now: int, last: int)
    decreases |steps|
  {
    if steps == [] then now <= last
    else
      now <= steps[0].now && (steps[0].Issuing? ==> !Holds(table, steps[0].digest)) &&
      Timely(Next(table, steps[0]), steps[1..], steps[0].now, last)
  }

  /** A session outlives a moment, and only these were used after it. */
  predicate KeptAt(table: seq<Entry>, at: nat, digest: Digest, others: set<Digest>, last: int) {
    && at < |table| && table[at].digest == digest && !Expired(table[at], last)
    && forall i | at < i < |table| :: table[i].digest in others
  }

  predicate Kept(table: seq<Entry>, digest: Digest, others: set<Digest>, last: int) {
    exists at | 0 <= at < |table| :: KeptAt(table, at, digest, others, last)
  }

  lemma {:induction false} LiveKeeps(table: seq<Entry>, at: nat, digest: Digest, others: set<Digest>,
                                     last: int, now: int)
    requires KeptAt(table, at, digest, others, last) && now <= last
    ensures Kept(Live(table, now), digest, others, last)
  {
    var live := Live(table, now);
    if at == 0 {
      assert live[0] == table[0];
      forall i | 0 < i < |live| ensures live[i].digest in others {
        assert live[i] in Live(table[1..], now) && live[i] in table[1..];
      }
      assert KeptAt(live, 0, digest, others, last);
    } else {
      LiveKeeps(table[1..], at - 1, digest, others, last, now);
      var rest := Live(table[1..], now);
      var b :| 0 <= b < |rest| && KeptAt(rest, b, digest, others, last);
      assert KeptAt(live, b + |live| - |rest|, digest, others, last);
    }
  }

  function DigestsOf(table: seq<Entry>): set<Digest> {
    set i | 0 <= i < |table| :: table[i].digest
  }

  lemma {:induction false} DigestsAreMany(table: seq<Entry>)
    requires forall i, j | 0 <= i < j < |table| :: table[i].digest != table[j].digest
    ensures |DigestsOf(table)| == |table|
  {
    if table != [] {
      DigestsAreMany(table[1..]);
      assert DigestsOf(table) == {table[0].digest} + DigestsOf(table[1..]);
      assert table[0].digest !in DigestsOf(table[1..]);
    }
  }

  lemma IssueKeeps(live: seq<Entry>, at: nat, e: Entry, digest: Digest, others: set<Digest>, last: int, now: int)
    requires Valid(live, now) && KeptAt(live, at, digest, others, last) && !Holds(live, e.digest)
    requires |others + {e.digest} - {digest}| < MAX_SESSIONS
    ensures Kept(Newest(live, MAX_SESSIONS - 1) + [e], digest, others + {e.digest}, last)
  {
    var kept := Newest(live, MAX_SESSIONS - 1);
    if |live| < MAX_SESSIONS {
      assert KeptAt(kept + [e], at, digest, others + {e.digest}, last);
    } else {
      if at == 0 {
        DigestsAreMany(live[1..] + [e]);
        SubsetSize(DigestsOf(live[1..] + [e]), others + {e.digest} - {digest});
        assert false;
      }
      assert KeptAt(kept + [e], at - 1, digest, others + {e.digest}, last);
    }
  }

  lemma UseKeeps(live: seq<Entry>, at: nat, used: nat, digest: Digest, others: set<Digest>, last: int, now: int)
    requires Valid(live, now) && KeptAt(live, at, digest, others, last) && used < |live|
    ensures Kept(Used(live, used, now), digest, others + {live[used].digest}, last)
  {
    var table := Used(live, used, now);
    var b := if used == at then |live| - 1 else if used < at then at - 1 else at;
    assert KeptAt(table, b, digest, others + {live[used].digest}, last);
  }

  lemma StepKeeps(table: seq<Entry>, step: Step, digest: Digest, others: set<Digest>, last: int)
    requires Valid(table, step.now) && Kept(table, digest, others, last) && step.now <= last
    requires step.Issuing? ==> !Holds(table, step.digest)
    requires |others + Uses(table, step) - {digest}| < MAX_SESSIONS
    ensures Valid(Next(table, step), step.now) && Kept(Next(table, step), digest, others + Uses(table, step), last)
  {
    var now := step.now;
    var live := Live(table, now);
    LiveIsValid(table, now);
    var at :| 0 <= at < |table| && KeptAt(table, at, digest, others, last);
    LiveKeeps(table, at, digest, others, last, now);
    var here :| 0 <= here < |live| && KeptAt(live, here, digest, others, last);
    match step
    case Issuing(d, id, csrf, _) =>
      var e := Entry(d, id, csrf, now, now);
      NewestIsValid(live, MAX_SESSIONS - 1, now);
      AppendIsValid(Newest(live, MAX_SESSIONS - 1), e, now);
      IssueKeeps(live, here, e, digest, others, last, now);
    case Verifying(c, _) =>
      var used := Position(live, c.digest);
      if Accepts(table, c, now) && c.touch && used.Some? {
        UsedIsValid(live, used.value, now);
        UseKeeps(live, here, used.value, digest, others, last, now);
      } else {
        assert KeptAt(live, here, digest, others + Uses(table, step), last);
      }
    case Asking(_, _) =>
      assert others + Uses(table, step) == others;
  }

  /** A session that is still in time stays until eight others have been used after it. */
  lemma {:induction false} RecentlyUsedStays(table: seq<Entry>, steps: seq<Step>, digest: Digest,
                                             others: set<Digest>, now: int, last: int)
    requires Valid(table, now) && Kept(table, digest, others, last) && Timely(table, steps, now, last)
    requires |others + UsedIn(table, steps) - {digest}| < MAX_SESSIONS
    ensures Accepts(After(table, steps), Check(digest, None, false), last)
    decreases |steps|
  {
    if steps == [] {
    } else {
      var step := steps[0];
      TimelyEnds(table, steps, now, last);
      OthersGrow(table, steps, digest, others);
      StepKeeps(table, step, digest, others, last);
      RecentlyUsedStays(Next(table, step), steps[1..], digest, others + Uses(table, step), step.now, last);
    }
  }

  lemma OthersGrow(table: seq<Entry>, steps: seq<Step>, digest: Digest, others: set<Digest>)
    requires steps != []
    ensures |others + Uses(table, steps[0]) - {digest}| <= |others + UsedIn(table, steps) - {digest}|
    ensures others + Uses(table, steps[0]) + UsedIn(Next(table, steps[0]), steps[1..])
         == others + UsedIn(table, steps)
  {
    SubsetSize(others + Uses(table, steps[0]) - {digest}, others + UsedIn(table, steps) - {digest});
  }

  lemma {:induction false} TimelyEnds(table: seq<Entry>, steps: seq<Step>, now: int, last: int)
    requires Timely(table, steps, now, last)
    ensures now <= last && (steps != [] ==> steps[0].now <= last)
    decreases |steps|
  {
    if steps != [] {
      TimelyEnds(Next(table, steps[0]), steps[1..], steps[0].now, last);
    }
  }
}
