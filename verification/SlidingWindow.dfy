/** The public demo's request limiter: per key, a queue of accepted hits over a rolling window, with a bulk
    eviction of stale keys once too many are tracked. */
module SlidingWindow {

  const MAX_TRACKED: nat := 10_000

  /** The hits that are still inside the window at a time. */
  function Live(hits: seq<real>, now: real, window: real): seq<real> {
    if hits == [] then []
    else (if now - hits[0] < window then [hits[0]] else []) + Live(hits[1..], now, window)
  }

  /** The rule, stated on the full record of accepted hits: a hit is accepted when fewer than `limit`
      accepted ones are live. */
  predicate Accepts(limit: int, window: real, accepted: seq<real>, now: real) {
    |Live(accepted, now, window)| < limit
  }

  ghost predicate Ordered(hits: seq<real>) {
    forall i, j :: 0 <= i < j < |hits| ==> hits[i] <= hits[j]
  }

  lemma {:induction false} LiveAppend(a: seq<real>, b: seq<real>, now: real, window: real)
    ensures Live(a + b, now, window) == Live(a, now, window) + Live(b, now, window)
  {
    if a == [] {
      assert a + b == b;
    } else {
      assert (a + b)[1..] == a[1..] + b;
      LiveAppend(a[1..], b, now, window);
    }
  }

  lemma {:induction false} AllLive(hits: seq<real>, now: real, window: real)
    requires forall i :: 0 <= i < |hits| ==> now - hits[i] < window
    ensures Live(hits, now, window) == hits
  {
    if hits != [] {
      AllLive(hits[1..], now, window);
    }
  }

  lemma {:induction false} NoneLive(hits: seq<real>, now: real, window: real)
    requires forall i :: 0 <= i < |hits| ==> now - hits[i] >= window
    ensures Live(hits, now, window) == []
  {
    if hits != [] {
      NoneLive(hits[1..], now, window);
    }
  }

  /** A queue holds the end of the record, and everything before it has left the window. */
  ghost predicate Tracks(queue: seq<real>, accepted: seq<real>, now: real, window: real) {
    && |queue| <= |accepted|
    && queue == accepted[|accepted| - |queue|..]
    && forall i :: 0 <= i < |accepted| - |queue| ==> now - accepted[i] >= window
  }

  /** The full record of one key: all attempts, and those accepted. */
  datatype Log = Log(attempts: seq<real>, accepted: seq<real>)

  /** Nothing lies in the future, and the accepted hits are those the rule accepts out of the attempts. */
  ghost predicate LogOk(log: Log, now: real, limit: int, window: real) {
    && Ordered(log.accepted) && (forall i :: 0 <= i < |log.accepted| ==> log.accepted[i] <= now)
    && Ordered(log.attempts) && (forall i :: 0 <= i < |log.attempts| ==> log.attempts[i] <= now)
    && log.accepted == AcceptedOf(limit, window, log.attempts)
  }

  ghost predicate Faithful(queue: seq<real>, log: Log, now: real, limit: int, window: real) {
    Tracks(queue, log.accepted, now, window) && LogOk(log, now, limit, window)
  }

  lemma FaithfulIsOrdered(queue: seq<real>, log: Log, now: real, limit: int, window: real)
    requires Faithful(queue, log, now, limit, window)
    ensures Ordered(log.accepted)
  {
  }

  ghost function Attempted(log: Log, now: real, limit: int, window: real): Log {
    Log(log.attempts + [now], if Accepts(limit, window, log.accepted, now) then log.accepted + [now] else log.accepted)
  }

  lemma AttemptKeepsLog(log: Log, now: real, limit: int, window: real)
    requires LogOk(log, now, limit, window)
    ensures LogOk(Attempted(log, now, limit, window), now, limit, window)
  {
    hide Accepts, Live;
    assert (log.attempts + [now])[..|log.attempts|] == log.attempts;
  }

  /** A tracking queue whose oldest hit is live is exactly the live part of the record. */
  lemma PrunedQueueIsLive(queue: seq<real>, accepted: seq<real>, now: real, window: real)
    requires Tracks(queue, accepted, now, window) && Ordered(accepted)
    requires queue != [] ==> now - queue[0] < window
    ensures queue == Live(accepted, now, window)
  {
    var n := |accepted| - |queue|;
    assert accepted == accepted[..n] + queue;
    LiveAppend(accepted[..n], queue, now, window);
    NoneLive(accepted[..n], now, window);
    forall i | 0 <= i < |queue|
      ensures now - queue[i] < window
    {
      assert accepted[n] <= accepted[n + i] || i == 0;
    }
    AllLive(queue, now, window);
  }

  /** A tracking queue still tracks later; so does the empty one, once the newest hit is stale. */
  lemma StaleOrKept(before: seq<real>, after: seq<real>, log: Log, latest: real, now: real, limit: int, window: real)
    requires Faithful(before, log, latest, limit, window) && latest <= now
    requires after == before || (after == [] && (before == [] || now - before[|before| - 1] >= window))
    ensures Faithful(after, log, now, limit, window)
  {
    if after != before {
      assert log.accepted[|log.accepted| - 1] == before[|before| - 1];
    }
  }

  /** One more attempt, on a pruned queue. */
  lemma AttemptIsTracked(queue: seq<real>, log: Log, now: real, limit: int, window: real)
    requires Faithful(queue, log, now, limit, window) && queue == Live(log.accepted, now, window)
    ensures (|queue| < limit) == Accepts(limit, window, log.accepted, now)
    ensures Faithful(if |queue| < limit then queue + [now] else queue, Attempted(log, now, limit, window), now,
                     limit, window)
    ensures |queue| >= limit >= 1 ==> |queue| == limit
  {
    LiveIsBounded(limit, window, log.attempts, now);
    AttemptKeepsLog(log, now, limit, window);
    hide LogOk, Live, AcceptedOf;
  }

  class SlidingWindowLimiter {
    const limit: int
    const window: real
    var hits: map<string, seq<real>>
    ghost var logs: map<string, Log>
    ghost var latest: real

    ghost function LogOf(key: string): Log
      reads this
    {
      if key in logs then logs[key] else Log([], [])
    }

    ghost function Queue(key: string): seq<real>
      reads this
    {
      if key in hits then hits[key] else []
    }

    ghost predicate Valid()
      reads this
    {
      forall key: string :: Faithful(Queue(key), LogOf(key), latest, limit, window)
    }

    constructor (limit: int, window: real, start: real)
      ensures Valid() && this.limit == limit && this.window == window && latest == start && logs == map[]
    {
      this.limit, this.window, latest := limit, window, start;
      hits, logs := map[], map[];
    }

    /** Drop the keys without a live hit once too many are tracked. */
    method EvictStale(now: real)
      requires Valid() && latest <= now
      modifies this`hits
      ensures |old(hits)| <= 10_000 ==> hits == old(hits)
      ensures |old(hits)| > 10_000 ==>
                forall k :: k in hits <==> k in old(hits) && old(hits)[k] != []
                                           && now - old(hits)[k][|old(hits)[k]| - 1] < window
      ensures forall k :: k in hits ==> k in old(hits) && hits[k] == old(hits)[k]
      ensures forall k: string :: Faithful(Queue(k), LogOf(k), now, limit, window)
    {
      hide Faithful;
      if |hits| > MAX_TRACKED {
        hits := map k | k in hits && hits[k] != [] && now - hits[k][|hits[k]| - 1] < window :: hits[k];
      }
      forall k: string
        ensures Faithful(Queue(k), LogOf(k), now, limit, window)
      {
        assert old(Faithful(Queue(k), LogOf(k), latest, limit, window));
        assert Queue(k) == old(Queue(k))
            || (Queue(k) == [] && (old(Queue(k)) == [] || now - old(Queue(k))[|old(Queue(k))| - 1] >= window));
        StaleOrKept(old(Queue(k)), Queue(k), LogOf(k), latest, now, limit, window);
      }
    }

    /** Take the hits that left the window off the front of a queue. */
    method Pruned(queue: seq<real>, now: real, ghost log: Log) returns (q: seq<real>)
      requires Faithful(queue, log, now, limit, window)
      ensures Faithful(q, log, now, limit, window) && q == Live(log.accepted, now, window)
    {
      q := queue;
      while q != [] && now - q[0] >= window
        invariant Tracks(q, log.accepted, now, window)
        decreases |q|
      {
        assert q[0] == log.accepted[|log.accepted| - |q|];
        q := q[1..];
      }
      PrunedQueueIsLive(q, log.accepted, now, window);
    }

    /** The answer depends on the record of accepted hits alone: neither the pruning nor the bulk eviction
        of keys ever changes one. */
    method Allow(key: string, now: real) returns (ok: bool)
      requires Valid() && latest <= now
      modifies this`hits, this`logs, this`latest
      ensures Valid() && latest == now
      ensures ok == Accepts(limit, window, old(LogOf(key)).accepted, now)
      ensures logs == old(logs)[key := Attempted(old(LogOf(key)), now, limit, window)]
      ensures !ok ==> key in hits && hits[key] == Live(LogOf(key).accepted, now, window)
      ensures !ok && limit >= 1 ==> |hits[key]| == limit
    {
      hide Faithful, Live;
      EvictStale(now);
      ghost var log := LogOf(key);
      assert Faithful(Queue(key), log, now, limit, window);
      var q := Pruned(if key in hits then hits[key] else [], now, log);
      AttemptIsTracked(q, log, now, limit, window);
      ok := |q| < limit;
      label Evicted:
      hits := hits[key := if ok then q + [now] else q];
      logs := logs[key := Attempted(log, now, limit, window)];
      latest := now;
      forall k: string
        ensures Faithful(Queue(k), LogOf(k), latest, limit, window)
      {
        assert old@Evicted(Faithful(Queue(k), LogOf(k), now, limit, window));
      }
    }

    /** At least a second, and otherwise the time until the oldest kept hit leaves, short of it by less than
        a second. */
    method RetryAfter(key: string, now: real) returns (seconds: int)
      ensures seconds >= 1 && (Queue(key) == [] ==> seconds == 1)
      ensures Queue(key) != [] ==> Announces(seconds, window - (now - Queue(key)[0]))
    {
      seconds := 1;
      if key in hits && hits[key] != [] {
        var s := Truncate(window - (now - hits[key][0]));
        seconds := if s < 1 then 1 else s;
      }
    }

    /** One request as the route sees it: a refusal comes with a delay, read off a second look at the clock,
        and with no hit of the key in between that delay and a second suffice. */
    method Ask(key: string, now: real, after: real) returns (ok: bool, seconds: int)
      requires Valid() && latest <= now <= after
      modifies this`hits, this`logs, this`latest
      ensures Valid() && latest == now
      ensures ok == Accepts(limit, window, old(LogOf(key)).accepted, now)
      ensures logs == old(logs)[key := Attempted(old(LogOf(key)), now, limit, window)]
      ensures !ok ==> seconds >= 1
      ensures !ok && limit >= 1 ==> DelaySuffices(limit, window, LogOf(key).accepted, now, after, seconds)
    {
      hide Live, Faithful, Attempted, Accepts, Announces, DelaySuffices;
      ok := Allow(key, now);
      if ok {
        return true, 0;
      }
      seconds := RetryAfter(key, after);
      if limit >= 1 {
        assert Faithful(Queue(key), LogOf(key), latest, limit, window);
        FaithfulIsOrdered(Queue(key), LogOf(key), latest, limit, window);
        RetryAfterSuffices(limit, window, LogOf(key).accepted, now, after, seconds);
      }
    }
  }

  /** A delay of at least a second that is short of the time left by less than a second, and longer than it
      only if it is the one second. */
  predicate Announces(seconds: int, left: real) {
    seconds >= 1 && left - 1.0 < seconds as real && (seconds == 1 || seconds as real <= left)
  }

  predicate IsWhole(x: real) {
    x == x.Floor as real
  }

  /** A hit refused at `now` is accepted one second after the delay read at `after`; right after the delay it
      is accepted exactly when the time left was a whole number of seconds or at most one. */
  ghost predicate DelaySuffices(limit: int, window: real, accepted: seq<real>, now: real, after: real, seconds: int) {
    var live := Live(accepted, now, window);
    && live != []
    && Accepts(limit, window, accepted, after + seconds as real + 1.0)
    && (Accepts(limit, window, accepted, after + seconds as real)
        <==> IsWhole(window - (after - live[0])) || window - (after - live[0]) <= 1.0)
  }

  lemma AnnouncedIsEnough(seconds: int, left: real)
    requires Announces(seconds, left)
    ensures left <= seconds as real <==> IsWhole(left) || left <= 1.0
  {
    var n := left.Floor;
    assert n as real <= left < n as real + 1.0;
    if seconds == 1 {
      assert n < 2;
    } else {
      assert n == seconds;
    }
  }

  /** `int` cuts toward zero. */
  function Truncate(x: real): int {
    if x >= 0.0 then x.Floor else -((-x).Floor)
  }

  // ---- What the rule guarantees.

  /** The hits of one key accepted out of a sequence of attempts. */
  function AcceptedOf(limit: int, window: real, attempts: seq<real>): seq<real> {
    if attempts == [] then []
    else
      var before := AcceptedOf(limit, window, attempts[..|attempts| - 1]);
      var now := attempts[|attempts| - 1];
      if Accepts(limit, window, before, now) then before + [now] else before
  }

  /** The accepted hits inside a span that is open at its end. */
  function InSpan(hits: seq<real>, from: real, to: real): seq<real> {
    if hits == [] then []
    else InSpan(hits[..|hits| - 1], from, to) + if from <= hits[|hits| - 1] < to then [hits[|hits| - 1]] else []
  }

  /** A span holds exactly the hits from its start to before its end, in order. */
  lemma {:induction false} InSpanExactly(a: seq<real>, b: seq<real>, hit: real, from: real, to: real)
    ensures InSpan(a + b, from, to) == InSpan(a, from, to) + InSpan(b, from, to)
    ensures InSpan([hit], from, to) == if from <= hit && hit < to then [hit] else []
  {
    assert InSpan([hit], from, to) == InSpan([hit][..0], from, to) + if from <= hit < to then [hit] else [];
    if b == [] {
      assert a + b == a;
    } else {
      assert (a + b)[..|a + b| - 1] == a + b[..|b| - 1];
      InSpanExactly(a, b[..|b| - 1], hit, from, to);
    }
  }

  /** Seen from a moment inside the span, all its earlier hits are live. */
  lemma {:induction false} SpanIsLive(hits: seq<real>, from: real, now: real, window: real)
    requires now < from + window
    ensures |InSpan(hits, from, from + window)| <= |Live(hits, now, window)|
  {
    if hits != [] {
      var front, last := hits[..|hits| - 1], hits[|hits| - 1];
      SpanIsLive(front, from, now, window);
      assert hits == front + [last];
      LiveAppend(front, [last], now, window);
      assert Live([last], now, window) == (if now - last < window then [last] else []) + Live([], now, window);
    }
  }

  /** No span as long as the window holds more than `limit` accepted hits, wherever it starts. */
  lemma {:induction false} SpansAreBounded(limit: int, window: real, attempts: seq<real>, from: real)
    ensures |InSpan(AcceptedOf(limit, window, attempts), from, from + window)| <= if limit > 0 then limit else 0
  {
    if attempts != [] {
      var front, now := attempts[..|attempts| - 1], attempts[|attempts| - 1];
      SpansAreBounded(limit, window, front, from);
      var before := AcceptedOf(limit, window, front);
      if Accepts(limit, window, before, now) {
        assert (before + [now])[..|before|] == before;
        if from <= now < from + window {
          SpanIsLive(before, from, now, window);
        }
      }
    }
  }

  lemma {:induction false} LiveIsBounded(limit: int, window: real, attempts: seq<real>, now: real)
    requires Ordered(attempts)
    requires forall i :: 0 <= i < |attempts| ==> attempts[i] <= now
    ensures |Live(AcceptedOf(limit, window, attempts), now, window)| <= if limit > 0 then limit else 0
  {
    if attempts != [] {
      var front, last := attempts[..|attempts| - 1], attempts[|attempts| - 1];
      var before := AcceptedOf(limit, window, front);
      LiveIsBounded(limit, window, front, now);
      if Accepts(limit, window, before, last) {
        LiveShrinks(before, last, now, window);
        LiveAppend(before, [last], now, window);
        assert Live([last], now, window) == (if now - last < window then [last] else []) + Live([], now, window);
      }
    }
  }

  lemma {:induction false} LiveShrinks(hits: seq<real>, now: real, later: real, window: real)
    requires now <= later
    ensures |Live(hits, later, window)| <= |Live(hits, now, window)|
  {
    if hits != [] {
      LiveShrinks(hits[1..], now, later, window);
    }
  }

  lemma {:induction false} OldestOut(hits: seq<real>, later: real, window: real)
    requires Ordered(hits) && hits != []
    ensures |Live(hits, later, window)| < |hits| <==> later - hits[0] >= window
  {
    if later - hits[0] < window {
      forall i | 0 <= i < |hits|
        ensures later - hits[i] < window
      {
        assert i == 0 || hits[0] <= hits[i];
      }
      AllLive(hits, later, window);
    } else {
      LiveAtMost(hits[1..], later, window);
    }
  }

  lemma {:induction false} LiveAtMost(hits: seq<real>, now: real, window: real)
    ensures |Live(hits, now, window)| <= |hits|
  {
    if hits != [] {
      LiveAtMost(hits[1..], now, window);
    }
  }

  lemma {:induction false} LiveOfLive(hits: seq<real>, now: real, later: real, window: real)
    requires now <= later
    ensures Live(Live(hits, now, window), later, window) == Live(hits, later, window)
  {
    if hits != [] {
      LiveOfLive(hits[1..], now, later, window);
      var head := if now - hits[0] < window then [hits[0]] else [];
      LiveAppend(head, Live(hits[1..], now, window), later, window);
      var kept := if later - hits[0] < window then [hits[0]] else [];
      assert head != [] ==> Live(head, later, window) == kept + Live([], later, window);
    }
  }

  lemma {:induction false} LiveIsOrdered(hits: seq<real>, now: real, window: real)
    requires Ordered(hits)
    ensures Ordered(Live(hits, now, window))
    ensures forall x :: x in Live(hits, now, window) ==> x in hits && now - x < window
  {
    if hits != [] {
      LiveIsOrdered(hits[1..], now, window);
      var rest := Live(hits[1..], now, window);
      forall i | 0 <= i < |rest|
        ensures hits[0] <= rest[i]
      {
        assert rest[i] in rest && rest[i] in hits[1..];
      }
    }
  }

  /** After a refusal at `now`, and with no hit accepted since, a later attempt is accepted exactly when the
      oldest live hit has left the window. */
  lemma RefusalEndsWithOldestHit(limit: int, window: real, accepted: seq<real>, now: real, later: real)
    requires Ordered(accepted) && now <= later && limit >= 1
    requires |Live(accepted, now, window)| == limit
    ensures Accepts(limit, window, accepted, later) <==> later - Live(accepted, now, window)[0] >= window
  {
    LiveIsOrdered(accepted, now, window);
    LiveOfLive(accepted, now, later, window);
    OldestOut(Live(accepted, now, window), later, window);
  }

  /** The announced delay, read off the clock after the refusal, does what it should: one second more than it
      always suffices. */
  lemma RetryAfterSuffices(limit: int, window: real, accepted: seq<real>, now: real, after: real, seconds: int)
    requires Ordered(accepted) && limit >= 1 && |Live(accepted, now, window)| == limit && now <= after
    requires Announces(seconds, window - (after - Live(accepted, now, window)[0]))
    ensures DelaySuffices(limit, window, accepted, now, after, seconds)
  {
    var left := window - (after - Live(accepted, now, window)[0]);
    AnnouncedIsEnough(seconds, left);
    var wait := seconds as real;
    assert wait >= 1.0 && wait > left - 1.0;
    hide Announces, IsWhole, Accepts, Live, Ordered;
    RefusalEndsWithOldestHit(limit, window, accepted, now, after + wait + 1.0);
    RefusalEndsWithOldestHit(limit, window, accepted, now, after + wait);
  }
}
