/** The in-process throttle: a sliding log that forgets what it no longer needs. */
module LocalThrottle {

  predicate Ascending(moments: seq<int>) {
    forall i, j | 0 <= i <= j < |moments| :: moments[i] <= moments[j]
  }

  /** The moments after a cutoff, in their order. */
  function After(moments: seq<int>, cutoff: int): (recent: seq<int>)
    ensures |recent| <= |moments|
  {
    if moments == [] then []
    else (if moments[0] > cutoff then [moments[0]] else []) + After(moments[1..], cutoff)
  }

  /** How many moments lie in a half-open interval. */
  function CountIn(moments: seq<int>, from: int, until: int): nat {
    if moments == [] then 0
    else (if from <= moments[0] < until then 1 else 0) + CountIn(moments[1..], from, until)
  }

  /** Moments `limit` places apart are at least a window apart. */
  predicate Spaced(moments: seq<int>, limit: nat, window: int) {
    forall i, j | 0 <= i && i + limit <= j < |moments| :: moments[i] + window <= moments[j]
  }

  /** The events are the end of the history, and all before them are out of the window. */
  ghost predicate Remembers(events: seq<int>, history: seq<int>, cutoff: int) {
    && |events| <= |history| && history[|history| - |events|..] == events
    && (forall i | 0 <= i < |history| - |events| :: history[i] <= cutoff)
  }

  /** The history is in order and never too dense, and the events are what it needs to stay so. */
  ghost predicate Consistent(events: seq<int>, history: seq<int>, latest: int, limit: nat, window: int) {
    && Ascending(history) && Spaced(history, limit, window)
    && (forall i | 0 <= i < |history| :: history[i] <= latest)
    && Remembers(events, history, latest - window)
  }

  class Throttle {
    const limit: nat
    const window: int
    var events: seq<int>
    /** Every moment ever admitted, and the latest moment asked about. */
    ghost var history: seq<int>
    ghost var latest: int

    ghost predicate Valid()
      reads this
    {
      Consistent(events, history, latest, limit, window)
    }

    constructor (limit: nat, window: int, now: int)
      ensures Valid() && this.limit == limit && this.window == window && history == [] && latest == now
    {
      this.limit, this.window := limit, window;
      events, history, latest := [], [], now;
    }

    /** Forget the leading events that are no later than the cutoff. */
    method Prune(cutoff: int)
      requires Remembers(events, history, cutoff) && Ascending(history)
      modifies this`events
      ensures Remembers(events, history, cutoff) && events == After(history, cutoff)
    {
      while events != [] && events[0] <= cutoff
        invariant Remembers(events, history, cutoff)
        decreases |events|
      {
        ForgetFirst(events, history, cutoff);
        events := events[1..];
      }
      AfterIsSuffix(history, cutoff, |history| - |events|);
    }

    /** Admit the moment exactly when the whole history leaves room in the window behind it. */
    method Consume(now: int) returns (admitted: bool)
      requires Valid() && latest <= now && window > 0
      modifies this
      ensures Valid() && latest == now
      ensures admitted <==> |After(old(history), now - window)| < limit
      ensures history == if admitted then old(history) + [now] else old(history)
      ensures events == After(old(history), now - window) + if admitted then [now] else []
    {
      PassesTime(events, history, latest, now, limit, window);
      Prune(now - window);
      latest := now;
      admitted := |events| < limit;
      if admitted {
        AppendKeeps(events, history, now, limit, window);
        events := events + [now];
        history := history + [now];
      }
    }
  }

  lemma PassesTime(events: seq<int>, history: seq<int>, latest: int, now: int, limit: nat, window: int)
    requires Consistent(events, history, latest, limit, window) && latest <= now
    ensures Consistent(events, history, now, limit, window)
  {
  }

  lemma AppendKeeps(events: seq<int>, history: seq<int>, now: int, limit: nat, window: int)
    requires Consistent(events, history, now, limit, window) && |events| < limit && window > 0
    ensures Consistent(events + [now], history + [now], now, limit, window)
  {
    AppendKeepsSpacing(history, now, limit, window, |history| - |events|);
    AppendIsRemembered(events, history, now - window, now);
  }

  lemma ForgetFirst(events: seq<int>, history: seq<int>, cutoff: int)
    requires Remembers(events, history, cutoff) && events != [] && events[0] <= cutoff
    ensures Remembers(events[1..], history, cutoff)
  {
    assert history[|history| - |events|] == events[0];
  }

  lemma AppendIsRemembered(events: seq<int>, history: seq<int>, cutoff: int, now: int)
    requires Remembers(events, history, cutoff)
    ensures Remembers(events + [now], history + [now], cutoff)
  {
  }

  lemma AppendKeepsSpacing(history: seq<int>, now: int, limit: nat, window: int, dropped: nat)
    requires Ascending(history) && Spaced(history, limit, window)
    requires forall i | 0 <= i < |history| :: history[i] <= now
    requires dropped <= |history| < dropped + limit
    requires forall i | 0 <= i < dropped :: history[i] <= now - window
    ensures Ascending(history + [now]) && Spaced(history + [now], limit, window)
  {
  }

  lemma {:induction false} AfterIsSuffix(history: seq<int>, cutoff: int, dropped: nat)
    requires Ascending(history) && dropped <= |history|
    requires forall i | 0 <= i < dropped :: history[i] <= cutoff
    requires dropped < |history| ==> history[dropped..][0] > cutoff
    ensures After(history, cutoff) == history[dropped..]
  {
    if history != [] {
      if dropped == 0 {
        if |history| > 1 {
          assert history[0] <= history[1];
        }
        AfterIsSuffix(history[1..], cutoff, 0);
      } else {
        AfterIsSuffix(history[1..], cutoff, dropped - 1);
      }
    }
  }

  lemma {:induction false} CountFirst(moments: seq<int>, from: int, until: int, limit: nat)
    requires forall i | limit <= i < |moments| :: until <= moments[i]
    ensures CountIn(moments, from, until) <= limit
  {
    if moments != [] {
      CountFirst(moments[1..], from, until, if limit == 0 then 0 else limit - 1);
    }
  }

  /** No interval of one window length holds more than the limit. */
  lemma {:induction false} WindowHoldsAtMostLimit(history: seq<int>, limit: nat, window: int, from: int)
    requires Ascending(history) && Spaced(history, limit, window)
    ensures CountIn(history, from, from + window) <= limit
  {
    if history != [] {
      if history[0] < from {
        assert Spaced(history[1..], limit, window);
        WindowHoldsAtMostLimit(history[1..], limit, window, from);
      } else {
        forall i | limit <= i < |history| ensures from + window <= history[i] {
          assert history[0] + window <= history[i];
        }
        CountFirst(history, from, from + window, limit);
      }
    }
  }

  /** The moments admitted if every one admitted before were kept and counted. */
  function FullLog(limit: nat, window: int, history: seq<int>, moments: seq<int>): seq<int>
    decreases |moments|
  {
    if moments == [] then history
    else
      var now := moments[0];
      var room := |After(history, now - window)| < limit;
      FullLog(limit, window, if room then history + [now] else history, moments[1..])
  }

  /** However calls come in time order, no window holds more than the limit. */
  lemma {:induction false} FullLogIsBounded(limit: nat, window: int, history: seq<int>, latest: int, moments: seq<int>,
                                            from: int)
    requires Consistent(After(history, latest - window), history, latest, limit, window) && window > 0
    requires Ascending([latest] + moments)
    ensures CountIn(FullLog(limit, window, history, moments), from, from + window) <= limit
    decreases |moments|
  {
    if moments == [] {
      WindowHoldsAtMostLimit(history, limit, window, from);
    } else {
      var now := moments[0];
      assert ([latest] + moments)[1] == now && ([latest] + moments)[1..] == moments && moments == [now] + moments[1..];
      AscendingTail([latest] + moments);
      RecentIsConsistent(history, latest, now, limit, window);
      var recent := After(history, now - window);
      if |recent| < limit {
        AppendKeeps(recent, history, now, limit, window);
        RecentIsConsistent(history + [now], now, now, limit, window);
        FullLogIsBounded(limit, window, history + [now], now, moments[1..], from);
      } else {
        FullLogIsBounded(limit, window, history, now, moments[1..], from);
      }
    }
  }

  lemma AscendingTail(moments: seq<int>)
    requires |moments| > 1 && Ascending(moments)
    ensures Ascending(moments[1..]) && moments[0] <= moments[1]
  {
  }

  /** What is after the cutoff is the end of an ordered history. */
  lemma RecentIsConsistent(history: seq<int>, latest: int, now: int, limit: nat, window: int)
    requires Ascending(history) && Spaced(history, limit, window) && latest <= now
    requires forall i | 0 <= i < |history| :: history[i] <= latest
    ensures Consistent(After(history, now - window), history, now, limit, window)
  {
    var dropped := CutAt(history, now - window);
    AfterIsSuffix(history, now - window, dropped);
  }

  lemma {:induction false} CutAt(history: seq<int>, cutoff: int) returns (dropped: nat)
    requires Ascending(history)
    ensures dropped <= |history| && (forall i | 0 <= i < dropped :: history[i] <= cutoff)
    ensures dropped < |history| ==> history[dropped..][0] > cutoff
  {
    if history == [] || history[0] > cutoff {
      dropped := 0;
    } else {
      var rest := CutAt(history[1..], cutoff);
      dropped := rest + 1;
      assert forall i | 1 <= i < dropped :: history[i] == history[1..][i - 1];
    }
  }
}
