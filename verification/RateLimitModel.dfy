/**
 * The durable rate limiter as a table of buckets and the log of what it admitted.
 *
 * A bucket counts the calls of a window that starts with its own first call. The log
 * keeps, for every admitted call, the row the update returned; it exists only to state
 * what the counters guarantee about intervals nobody aligned with those windows.
 */
module RateLimitModel {
  import opened Wrappers
  import opened SetSizes

  const SECOND := 1_000_000
  const CLEANUP_LIMIT := 64

  datatype Action = OidcLogin | OidcCallback | RequestMutation

  datatype Scope = Client | Membership | Session

  datatype Subject = Global | Named(scope: Scope, value: string)

  datatype Key = Key(action: Action, subject: Subject)

  /** A limit per window of whole seconds. */
  datatype Rule = Rule(limit: nat, window: nat)

  datatype Bucket = Bucket(id: nat, count: nat, expires: int)

  type Table = map<Key, Bucket>

  datatype Decision = Allowed | Denied(retryAfter: int)

  /** One admitted call: the count and expiry it left in its bucket, and the subject bucket
      that the rest of its transaction started, if any. */
  datatype Admission = Admission(key: Key, at: int, count: nat, expires: int, began: Option<Key>)

  function GlobalRule(action: Action): Rule {
    match action
    case OidcLogin => Rule(512, 600)
    case OidcCallback => Rule(1_024, 600)
    case RequestMutation => Rule(4_096, 60)
  }

  function SubjectRule(action: Action): Rule {
    match action
    case OidcLogin => Rule(10, 600)
    case OidcCallback => Rule(20, 600)
    case RequestMutation => Rule(120, 60)
  }

  function RuleFor(key: Key): Rule {
    if key.subject.Global? then GlobalRule(key.action) else SubjectRule(key.action)
  }

  function Limit(key: Key): nat { RuleFor(key).limit }

  function Window(key: Key): int { RuleFor(key).window * SECOND }

  predicate Live(b: Bucket, now: int) { b.expires > now }

  /** The conditional upsert takes effect: no row, an expired row, or room under the limit. */
  predicate Admits(t: Table, key: Key, now: int) {
    key !in t || !Live(t[key], now) || t[key].count < Limit(key)
  }

  /** The row the upsert leaves when it takes effect. */
  function Charged(t: Table, key: Key, now: int, id: nat): Bucket {
    if key !in t then Bucket(id, 1, now + Window(key))
    else if !Live(t[key], now) then Bucket(t[key].id, 1, now + Window(key))
    else t[key].(count := t[key].count + 1)
  }

  /** Whole seconds until the bucket expires, rounded up and kept within 1..window. */
  function RetryAfter(expires: int, now: int, window: nat): int {
    var remaining := -((now - expires) / SECOND);
    if remaining < 1 || window < 1 then 1 else if remaining < window then remaining else window
  }

  predicate Before(a: Bucket, b: Bucket) {
    a.expires < b.expires || (a.expires == b.expires && a.id < b.id)
  }

  predicate UniqueIds(t: Table) {
    forall k, k' | k in t && k' in t && t[k].id == t[k'].id :: k == k'
  }

  /** `after` lacks the first rows of `before` in expiry order, all expired, at most `limit`. */
  predicate Purged(before: Table, after: Table, cutoff: int, limit: nat) {
    && (forall k | k in after :: k in before && after[k] == before[k])
    && (forall k | k in before && k !in after :: !Live(before[k], cutoff))
    && (forall k, k' | k in before && k !in after && k' in after && !Live(after[k'], cutoff) ::
          Before(before[k], after[k']))
    && |before| <= |after| + limit
    && (|before| < |after| + limit ==> forall k | k in after :: Live(after[k], cutoff))
  }

  // ---- the invariant --------------------------------------------------------------

  predicate BucketOk(key: Key, b: Bucket, now: int) {
    1 <= b.count <= Limit(key) && b.expires <= now + Window(key)
  }

  predicate AdmissionOk(a: Admission, now: int) {
    && a.at <= now
    && 1 <= a.count <= Limit(a.key)
    && a.expires - Window(a.key) <= a.at < a.expires
    && (a.count == 1 ==> a.at == a.expires - Window(a.key))
  }

  /** Two admissions of one bucket: the same window and different counts, or windows apart. */
  predicate Separate(a: Admission, b: Admission) {
    a.key == b.key ==>
      if a.expires == b.expires then a.count != b.count
      else a.expires <= b.expires - Window(a.key) || b.expires <= a.expires - Window(a.key)
  }

  /** An admission never outran the bucket it left behind, which is gone only when expired. */
  predicate Reflected(a: Admission, t: Table, now: int) {
    if a.key !in t then a.expires <= now
    else
      || (a.expires == t[a.key].expires && a.count <= t[a.key].count)
      || a.expires <= t[a.key].expires - Window(a.key)
  }

  /** A subject bucket was started by a call that the global bucket had admitted. */
  ghost predicate Opened(log: seq<Admission>, key: Key, b: Bucket) {
    exists i :: 0 <= i < |log| && OpenedBy(log[i], key, b)
  }

  predicate OpenedBy(a: Admission, key: Key, b: Bucket) {
    && a.began == Some(key)
    && a.key == Key(key.action, Global)
    && a.at == b.expires - Window(key)
  }

  /** The log holds the admission that brought the bucket to this count. */
  ghost predicate Logged(log: seq<Admission>, key: Key, expires: int, count: nat) {
    exists i :: 0 <= i < |log| && IsAdmission(log[i], key, expires, count)
  }

  predicate IsAdmission(a: Admission, key: Key, expires: int, count: nat) {
    a.key == key && a.expires == expires && a.count == count
  }

  /** Every call a bucket has counted is in the log. */
  ghost predicate Counted(t: Table, log: seq<Admission>) {
    forall k, c: nat | k in t && 1 <= c <= t[k].count :: Logged(log, k, t[k].expires, c)
  }

  ghost predicate Consistent(t: Table, log: seq<Admission>, now: int) {
    && (forall k | k in t :: BucketOk(k, t[k], now))
    && Counted(t, log)
    && (forall i | 0 <= i < |log| :: AdmissionOk(log[i], now) && Reflected(log[i], t, now))
    && (forall i, j | 0 <= i < j < |log| :: Separate(log[i], log[j]))
    && (forall k | k in t && !k.subject.Global? :: Opened(log, k, t[k]))
  }

  lemma TimePasses(t: Table, log: seq<Admission>, now: int, later: int)
    requires Consistent(t, log, now) && now <= later
    ensures Consistent(t, log, later)
  {
  }

  lemma PurgeKeeps(before: Table, after: Table, log: seq<Admission>, now: int, limit: nat)
    requires Consistent(before, log, now) && Purged(before, after, now, limit)
    ensures Consistent(after, log, now)
  {
  }

  lemma ChargeIsCounted(t: Table, log: seq<Admission>, key: Key, now: int, id: nat, a: Admission)
    requires Counted(t, log)
    requires var b := Charged(t, key, now, id); IsAdmission(a, key, b.expires, b.count)
    ensures Counted(t[key := Charged(t, key, now, id)], log + [a])
  {
    var after, log' := t[key := Charged(t, key, now, id)], log + [a];
    forall k, c: nat | k in after && 1 <= c <= after[k].count ensures Logged(log', k, after[k].expires, c) {
      if k == key && c == after[k].count {
        assert IsAdmission(log'[|log|], k, after[k].expires, c);
      } else {
        assert Logged(log, k, t[k].expires, c);
        var i :| 0 <= i < |log| && IsAdmission(log[i], k, t[k].expires, c);
        assert IsAdmission(log'[i], k, after[k].expires, c);
      }
    }
  }

  /** One admitted charge, logged with the bucket it opened. */
  lemma ChargeKeeps(t: Table, log: seq<Admission>, key: Key, now: int, id: nat, began: Option<Key>)
    requires Consistent(t, log, now) && Admits(t, key, now)
    requires !key.subject.Global? ==>
               (key in t && Live(t[key], now)) || Opened(log, key, Charged(t, key, now, id))
    ensures var b := Charged(t, key, now, id);
            Consistent(t[key := b], log + [Admission(key, now, b.count, b.expires, began)], now)
  {
    var b := Charged(t, key, now, id);
    var a := Admission(key, now, b.count, b.expires, began);
    var after, log' := t[key := b], log + [a];
    ChargeIsCounted(t, log, key, now, id, a);
    forall i | 0 <= i < |log| ensures Separate(log[i], a) && Reflected(log[i], after, now) {
      assert AdmissionOk(log[i], now) && Reflected(log[i], t, now);
    }
    forall k | k in after && !k.subject.Global? ensures Opened(log', k, after[k]) {
      if k in t && t[k].expires == after[k].expires {
        assert Opened(log, k, t[k]);
        var i :| 0 <= i < |log| && OpenedBy(log[i], k, t[k]);
        assert OpenedBy(log'[i], k, after[k]);
      } else {
        var i :| 0 <= i < |log| && OpenedBy(log[i], k, b);
        assert OpenedBy(log'[i], k, after[k]);
      }
    }
  }

  // ---- what the counters guarantee ------------------------------------------------

  /** The admissions of one bucket in the window it is in. */
  function AdmittedNow(t: Table, log: seq<Admission>, key: Key): set<int>
    requires key in t
  {
    set i | 0 <= i < |log| && log[i].key == key && log[i].expires == t[key].expires
  }

  ghost function AdmissionIndex(log: seq<Admission>, key: Key, expires: int, count: int): (i: int)
    ensures count >= 0 && Logged(log, key, expires, count) ==>
              0 <= i < |log| && IsAdmission(log[i], key, expires, count)
  {
    if count >= 0 && Logged(log, key, expires, count) then
      var i :| 0 <= i < |log| && IsAdmission(log[i], key, expires, count); i
    else 0
  }

  /** In the window a bucket is in, it has admitted exactly as many calls as it counts. */
  lemma StoredCountIsExact(t: Table, log: seq<Admission>, now: int, key: Key)
    requires Consistent(t, log, now) && key in t
    ensures |AdmittedNow(t, log, key)| == t[key].count
  {
    var admitted, counts := AdmittedNow(t, log, key), Range(1, t[key].count + 1);
    var countOf := i => if 0 <= i < |log| then log[i].count as int else 0;
    var indexOf := c => AdmissionIndex(log, key, t[key].expires, c);
    forall i | i in admitted ensures countOf(i) in counts {
      assert AdmissionOk(log[i], now) && Reflected(log[i], t, now);
    }
    forall i, j | i in admitted && j in admitted && i < j ensures countOf(i) != countOf(j) {
      assert Separate(log[i], log[j]);
    }
    InjectionBound(admitted, counts, countOf);
    forall c | c in counts ensures indexOf(c) in admitted && log[indexOf(c)].count == c {
      assert Logged(log, key, t[key].expires, c);
    }
    InjectionBound(counts, admitted, indexOf);
  }

  /** The admissions of one bucket in a half-open interval. */
  function AdmittedIn(log: seq<Admission>, key: Key, from: int, until: int): set<int> {
    set i | 0 <= i < |log| && log[i].key == key && from <= log[i].at < until
  }

  /** An admission's place among 1..2*limit-1: the newest window first, older ones behind it. */
  function Slot(log: seq<Admission>, newest: int, i: int): int
  {
    if !(0 <= i < |log|) then 0
    else if log[i].expires == newest then log[i].count
    else Limit(log[i].key) - 1 + log[i].count
  }

  /** Some admission of a nonempty set expires last. */
  lemma {:induction false} NewestWindow(log: seq<Admission>, indices: set<int>) returns (last: int)
    requires indices != {} && forall i :: i in indices ==> 0 <= i < |log|
    ensures last in indices
    ensures forall i :: i in indices ==> log[i].expires <= log[last].expires
  {
    last := Pick(indices);
    var rest := indices - {last};
    if rest == {} {
      assert indices == {last};
    } else {
      var other := NewestWindow(log, rest);
      last := if log[other].expires < log[last].expires then last else other;
    }
  }

  /**
   * However an interval of one window length is placed, a bucket admits at most
   * 2*limit - 1 calls in it: only two of its windows can reach in, and the call that
   * started the older one lies before the interval.
   */
  lemma SlidingWindowBound(t: Table, log: seq<Admission>, now: int, key: Key, from: int)
    requires Consistent(t, log, now)
    ensures |AdmittedIn(log, key, from, from + Window(key))| <= 2 * Limit(key) - 1
  {
    var inside := AdmittedIn(log, key, from, from + Window(key));
    if inside != {} {
      var last := NewestWindow(log, inside);
      var newest := log[last].expires;
      var f := i => Slot(log, newest, i);
      forall i | i in inside ensures 1 <= f(i) <= 2 * Limit(key) - 1 {
        OlderWindowMisses(t, log, now, key, from, newest, i);
      }
      forall i, j | i in inside && j in inside && i < j ensures f(i) != f(j) {
        OlderWindowMisses(t, log, now, key, from, newest, i);
        OlderWindowMisses(t, log, now, key, from, newest, j);
        assert Separate(log[i], log[j]);
      }
      InjectionBound(inside, Range(1, 2 * Limit(key)), f);
    }
  }

  /** Inside the interval, a call of an older window is not the one that started it, and
      all of them share one expiry. */
  lemma OlderWindowMisses(t: Table, log: seq<Admission>, now: int, key: Key, from: int,
                          newest: int, i: int)
    requires Consistent(t, log, now)
    requires i in AdmittedIn(log, key, from, from + Window(key))
    requires exists j | j in AdmittedIn(log, key, from, from + Window(key)) :: log[j].expires == newest
    requires log[i].expires <= newest
    ensures 1 <= log[i].count <= Limit(key)
    ensures log[i].expires < newest ==> log[i].count >= 2
    ensures log[i].expires < newest ==> from < log[i].expires <= newest - Window(key) < from + Window(key)
  {
    var j :| j in AdmittedIn(log, key, from, from + Window(key)) && log[j].expires == newest;
    assert AdmissionOk(log[i], now) && AdmissionOk(log[j], now);
    if i < j { assert Separate(log[i], log[j]); }
    if j < i { assert Separate(log[j], log[i]); }
  }

  // ---- how large the table can get ------------------------------------------------

  function LiveSubjects(t: Table, action: Action, now: int): set<Key> {
    set k | k in t && k.action == action && !k.subject.Global? && Live(t[k], now)
  }

  ghost function OpeningIndex(log: seq<Admission>, key: Key, b: Bucket): (i: int)
    ensures Opened(log, key, b) ==> 0 <= i < |log| && OpenedBy(log[i], key, b)
  {
    if Opened(log, key, b) then
      var i :| 0 <= i < |log| && OpenedBy(log[i], key, b); i
    else 0
  }

  /** Each live subject row was paid for by its own recent call through the global bucket. */
  lemma LiveSubjectsBound(t: Table, log: seq<Admission>, now: int, action: Action)
    requires Consistent(t, log, now)
    ensures |LiveSubjects(t, action, now)| <= 2 * GlobalRule(action).limit - 1
  {
    var key := Key(action, Global);
    var from := now + 1 - Window(key);
    var rows := LiveSubjects(t, action, now);
    var f := k => if k in t then OpeningIndex(log, k, t[k]) else 0;
    forall k | k in rows ensures f(k) in AdmittedIn(log, key, from, from + Window(key)) {
      assert Opened(log, k, t[k]) && AdmissionOk(log[f(k)], now);
    }
    forall k, k' | k in rows && k' in rows && f(k) == f(k') ensures k == k' {
      assert Opened(log, k, t[k]) && Opened(log, k', t[k']);
    }
    InjectionBound(rows, AdmittedIn(log, key, from, from + Window(key)), f);
    SlidingWindowBound(t, log, now, key, from);
  }

  /** (2*limit - 1) subject rows and one global row for each plan. */
  const CAPACITY := 1_023 + 2_047 + 8_191 + 3

  lemma AllLiveBound(t: Table, log: seq<Admission>, now: int)
    requires Consistent(t, log, now)
    requires forall k | k in t :: Live(t[k], now)
    ensures |t| <= CAPACITY
  {
    var logins := LiveSubjects(t, OidcLogin, now);
    var callbacks := LiveSubjects(t, OidcCallback, now);
    var mutations := LiveSubjects(t, RequestMutation, now);
    var globals := {Key(OidcLogin, Global), Key(OidcCallback, Global), Key(RequestMutation, Global)};
    LiveSubjectsBound(t, log, now, OidcLogin);
    LiveSubjectsBound(t, log, now, OidcCallback);
    LiveSubjectsBound(t, log, now, RequestMutation);
    UnionSize(logins, callbacks);
    UnionSize(logins + callbacks, mutations);
    UnionSize(logins + callbacks + mutations, globals);
    SubsetSize(t.Keys, logins + callbacks + mutations + globals);
  }

  /** One call that passes the global bucket: charge it, purge, perhaps charge the subject. */
  lemma CallStaysWithinCapacity(t: Table, charged: Table, purged: Table, after: Table,
                                log: seq<Admission>, now: int, key: Key)
    requires |t| <= CAPACITY && |charged| <= |t| + 1
    requires Purged(charged, purged, now, CLEANUP_LIMIT)
    requires after == purged || (key in after && after == purged[key := after[key]])
    requires key in after ==> Live(after[key], now)
    requires Consistent(after, log, now)
    ensures |after| <= CAPACITY
  {
    SubsetSize(after.Keys, purged.Keys + {key});
    if |charged| >= |purged| + CLEANUP_LIMIT {
      UnionSize(purged.Keys, {key});
    } else {
      AllLiveBound(after, log, now);
    }
  }

  /** Purging never changes whether a bucket admits, then or later. */
  lemma PurgeDoesNotDecide(before: Table, after: Table, cutoff: int, limit: nat, key: Key, now: int)
    requires Purged(before, after, cutoff, limit) && cutoff <= now
    ensures Admits(after, key, now) <==> Admits(before, key, now)
  {
  }

  /** The advertised wait is the least number of whole seconds that frees the bucket. */
  lemma RetryAfterIsExact(t: Table, log: seq<Admission>, now: int, key: Key)
    requires Consistent(t, log, now) && !Admits(t, key, now)
    ensures var wait := RetryAfter(t[key].expires, now, RuleFor(key).window);
            && 1 <= wait <= RuleFor(key).window
            && Admits(t, key, now + wait * SECOND)
            && !Admits(t, key, now + (wait - 1) * SECOND)
  {
    assert BucketOk(key, t[key], now);
    var late := now - t[key].expires;
    assert late == (late / SECOND) * SECOND + late % SECOND;
  }
}
