/** Tom Bombadil's per-user token bucket: refilled lazily on each check, kept in a hash whose key expires
    after four refill periods.  When the store cannot be read or written the check lets the call through. */
module TokenBucket {

  datatype Config = Config(maxTokens: int, refillSeconds: int)

  /** What the code needs of its parameters: with none of them it divides by zero. */
  predicate Usable(c: Config) {
    c.maxTokens >= 1 && c.refillSeconds >= 1
  }

  function Rate(c: Config): real
    requires Usable(c)
  {
    c.maxTokens as real / c.refillSeconds as real
  }

  /** Tokens refilled in a time. */
  function Gain(c: Config, elapsed: real): real
    requires Usable(c)
  {
    elapsed * Rate(c)
  }

  function Ttl(c: Config): real {
    4.0 * c.refillSeconds as real
  }

  datatype Bucket = Absent | Present(tokens: real, ts: real, expires: real)

  datatype Fault = Healthy | ReadFails | WriteFails

  datatype Reply = Allow | Deny(wait: real)

  function Min(a: real, b: real): real {
    if a <= b then a else b
  }

  function Max(a: real, b: real): real {
    if a >= b then a else b
  }

  /** Tokens available at a time, by the stored fields alone. */
  function Refilled(c: Config, b: Bucket, now: real): real
    requires Usable(c)
  {
    if b.Absent? then c.maxTokens as real
    else Min(c.maxTokens as real, b.tokens + Gain(c, Max(0.0, now - b.ts)))
  }

  /** Tokens available at a time, with an expired key read as absent. */
  function Level(c: Config, b: Bucket, now: real): real
    requires Usable(c)
  {
    if b.Present? && now < b.expires then Refilled(c, b, now) else c.maxTokens as real
  }

  function Check(c: Config, b: Bucket, isOwner: bool, now: real, fault: Fault): (Bucket, Reply)
    requires Usable(c)
  {
    if isOwner || fault.ReadFails? then (b, Allow)
    else
      var tokens := Level(c, b, now);
      if tokens < 1.0 then
        (if fault.WriteFails? then b else Present(tokens, now, now + Ttl(c)), Deny((1.0 - tokens) / Rate(c)))
      else (if fault.WriteFails? then b else Present(tokens - 1.0, now, now + Ttl(c)), Allow)
  }

  class Guards {
    const config: Config
    var buckets: map<string, Bucket>

    constructor (config: Config)
      requires Usable(config)
      ensures this.config == config && buckets == map[]
    {
      this.config, buckets := config, map[];
    }

    function BucketOf(user: string): Bucket
      reads this
    {
      if user in buckets then buckets[user] else Absent
    }

    method CheckAndConsume(user: string, isOwner: bool, now: real, fault: Fault) returns (reply: Reply)
      requires Usable(config)
      modifies this`buckets
      ensures (BucketOf(user), reply) == Check(config, old(BucketOf(user)), isOwner, now, fault)
      ensures forall u :: u != user ==> BucketOf(u) == old(BucketOf(u))
    {
      if isOwner || fault.ReadFails? {
        return Allow;
      }
      var tokens, ts := config.maxTokens as real, now;
      if user in buckets && buckets[user].Present? && now < buckets[user].expires {
        tokens, ts := buckets[user].tokens, buckets[user].ts;
      }
      var rate := Rate(config);
      var elapsed := Max(0.0, now - ts);
      GainLaws(config, 0.0, 0.0);
      tokens := Min(config.maxTokens as real, tokens + elapsed * rate);
      assert elapsed * rate == Gain(config, elapsed);
      assert tokens == Level(config, BucketOf(user), now);
      hide Level, Gain, Rate;
      if tokens < 1.0 {
        if !fault.WriteFails? {
          buckets := buckets[user := Present(tokens, now, now + Ttl(config))];
        }
        return Deny((1.0 - tokens) / rate);
      }
      tokens := tokens - 1.0;
      if !fault.WriteFails? {
        buckets := buckets[user := Present(tokens, now, now + Ttl(config))];
      }
      return Allow;
    }
  }

  // ---- What every stored bucket satisfies.

  ghost predicate Sound(c: Config, b: Bucket, clock: real) {
    b.Present? ==> 0.0 <= b.tokens <= c.maxTokens as real && b.ts <= clock && b.expires == b.ts + Ttl(c)
  }

  lemma GainLaws(c: Config, a: real, b: real)
    requires Usable(c)
    ensures Gain(c, 0.0) == 0.0 && Gain(c, a + b) == Gain(c, a) + Gain(c, b)
    ensures Rate(c) > 0.0 && Gain(c, Ttl(c)) == 4.0 * c.maxTokens as real
  {
    var m, r := c.maxTokens as real, c.refillSeconds as real;
    assert m / r * r == m;
    assert Ttl(c) * Rate(c) == 4.0 * (r * (m / r));
    assert (a + b) * Rate(c) == a * Rate(c) + b * Rate(c);
  }

  lemma GainGrows(c: Config, a: real, b: real)
    requires Usable(c) && a <= b
    ensures Gain(c, a) <= Gain(c, b)
    ensures a < b ==> Gain(c, a) < Gain(c, b)
  {
    GainLaws(c, a, b - a);
    assert (b - a) * Rate(c) >= 0.0;
    assert a < b ==> (b - a) * Rate(c) > 0.0;
  }

  lemma GainOfWait(c: Config, missing: real)
    requires Usable(c)
    ensures Gain(c, missing / Rate(c)) == missing
  {
    GainLaws(c, 0.0, 0.0);
  }

  /** Tokens never leave 0..max, whatever fails. */
  lemma CheckKeepsSound(c: Config, b: Bucket, clock: real, isOwner: bool, now: real, fault: Fault)
    requires Usable(c) && Sound(c, b, clock) && clock <= now
    ensures Sound(c, Check(c, b, isOwner, now, fault).0, now)
    ensures 0.0 <= Level(c, b, now) <= c.maxTokens as real
  {
    GainLaws(c, 0.0, 0.0);
    if b.Present? {
      GainGrows(c, 0.0, now - b.ts);
    }
    hide Gain, Rate;
  }

  /** Expiry changes no answer: a bucket that expired would have been full again anyway. */
  lemma ExpiryIsInvisible(c: Config, b: Bucket, clock: real, now: real)
    requires Usable(c) && Sound(c, b, clock) && clock <= now
    ensures Level(c, b, now) == Refilled(c, b, now)
  {
    GainLaws(c, 0.0, 0.0);
    if b.Present? && now >= b.expires {
      GainGrows(c, Ttl(c), now - b.ts);
    }
    hide Gain, Rate;
  }

  /** The same check on a key that never expires. */
  function CheckForever(c: Config, b: Bucket, now: real, fault: Fault): (Bucket, Reply)
    requires Usable(c)
  {
    if fault.ReadFails? then (b, Allow)
    else
      var tokens := Refilled(c, b, now);
      if tokens < 1.0 then
        (if fault.WriteFails? then b else Present(tokens, now, now + Ttl(c)), Deny((1.0 - tokens) / Rate(c)))
      else (if fault.WriteFails? then b else Present(tokens - 1.0, now, now + Ttl(c)), Allow)
  }

  // ---- Runs of one user who is not the owner.

  datatype Call = Call(now: real, fault: Fault)

  ghost predicate InOrder(calls: seq<Call>, clock: real) {
    calls != [] ==> clock <= calls[0].now && InOrder(calls[1..], calls[0].now)
  }

  function Replies(c: Config, b: Bucket, calls: seq<Call>): seq<Reply>
    requires Usable(c)
    decreases |calls|
  {
    if calls == [] then []
    else
      var (next, reply) := Check(c, b, false, calls[0].now, calls[0].fault);
      [reply] + Replies(c, next, calls[1..])
  }

  function RepliesForever(c: Config, b: Bucket, calls: seq<Call>): seq<Reply>
    requires Usable(c)
    decreases |calls|
  {
    if calls == [] then []
    else
      var (next, reply) := CheckForever(c, b, calls[0].now, calls[0].fault);
      [reply] + RepliesForever(c, next, calls[1..])
  }

  /** Over whole runs, with any faults, the expiring bucket gives the answers of one that never expires. */
  lemma {:induction false} ExpiryIsTransparent(c: Config, b: Bucket, calls: seq<Call>, clock: real)
    requires Usable(c) && Sound(c, b, clock) && InOrder(calls, clock)
    ensures Replies(c, b, calls) == RepliesForever(c, b, calls)
    decreases |calls|
  {
    if calls != [] {
      var call := calls[0];
      ExpiryIsInvisible(c, b, clock, call.now);
      CheckKeepsSound(c, b, clock, false, call.now, call.fault);
      ExpiryIsTransparent(c, Check(c, b, false, call.now, call.fault).0, calls[1..], call.now);
    }
  }

  function Allowed(rs: seq<Reply>): nat {
    if rs == [] then 0 else (if rs[0].Allow? then 1 else 0) + Allowed(rs[1..])
  }

  function Faults(calls: seq<Call>): nat {
    if calls == [] then 0 else (if calls[0].fault.Healthy? then 0 else 1) + Faults(calls[1..])
  }

  /** What counts as a failure: a call during which the store could not be read or written. */
  lemma {:induction false} FaultsExactly(a: seq<Call>, b: seq<Call>, call: Call)
    ensures Faults(a + b) == Faults(a) + Faults(b) && Faults([]) == 0
    ensures Faults([call]) == if call.fault.ReadFails? || call.fault.WriteFails? then 1 else 0
  {
    if a == [] {
      assert a + b == b;
    } else {
      assert (a + b)[1..] == a[1..] + b;
      FaultsExactly(a[1..], b, call);
    }
  }

  lemma LevelGrowsAtRate(c: Config, b: Bucket, clock: real, now: real)
    requires Usable(c) && Sound(c, b, clock) && clock <= now
    ensures Level(c, b, now) <= Level(c, b, clock) + Gain(c, now - clock)
  {
    ExpiryIsInvisible(c, b, clock, now);
    ExpiryIsInvisible(c, b, clock, clock);
    GainLaws(c, 0.0, 0.0);
    GainGrows(c, 0.0, now - clock);
    if b.Present? {
      GainLaws(c, clock - b.ts, now - clock);
    }
    hide Gain, Level;
  }

  /** The tokens there were, plus what was refilled, bound the calls let through while the store works. */
  lemma {:induction false} AllowedWithinSupply(c: Config, b: Bucket, calls: seq<Call>, clock: real, end: real)
    requires Usable(c) && Sound(c, b, clock) && InOrder(calls, clock) && clock <= end
    requires forall i :: 0 <= i < |calls| ==> calls[i].now <= end
    ensures Allowed(Replies(c, b, calls)) as real
         <= Level(c, b, clock) + Gain(c, end - clock) + Faults(calls) as real
    decreases |calls|
  {
    if calls == [] {
      GainLaws(c, 0.0, 0.0);
      GainGrows(c, 0.0, end - clock);
      CheckKeepsSound(c, b, clock, false, clock, Healthy);
    } else {
      var call := calls[0];
      var next := Check(c, b, false, call.now, call.fault).0;
      CheckKeepsSound(c, b, clock, false, call.now, call.fault);
      AllowedWithinSupply(c, next, calls[1..], call.now, end);
      LevelGrowsAtRate(c, b, clock, call.now);
      LevelAfter(c, b, clock, call);
      AllowedUnfolds(c, b, calls);
      GainLaws(c, end - call.now, call.now - clock);
      hide Check, Level, Replies, Gain, Sound;
    }
  }

  lemma AllowedUnfolds(c: Config, b: Bucket, calls: seq<Call>)
    requires Usable(c) && calls != []
    ensures var first := Check(c, b, false, calls[0].now, calls[0].fault);
            Allowed(Replies(c, b, calls))
            == (if first.1.Allow? then 1 else 0) + Allowed(Replies(c, first.0, calls[1..]))
  {
    var next := Check(c, b, false, calls[0].now, calls[0].fault).0;
    assert Replies(c, b, calls)[1..] == Replies(c, next, calls[1..]);
  }

  /** A healthy allowed call takes one token; a faulty one takes none. */
  lemma LevelAfter(c: Config, b: Bucket, clock: real, call: Call)
    requires Usable(c) && Sound(c, b, clock) && clock <= call.now
    ensures var taken := if Check(c, b, false, call.now, call.fault).1.Allow? && call.fault.Healthy? then 1.0 else 0.0;
            Level(c, Check(c, b, false, call.now, call.fault).0, call.now) == Level(c, b, call.now) - taken
  {
    CheckKeepsSound(c, b, clock, false, call.now, call.fault);
    GainLaws(c, 0.0, 0.0);
    hide Gain, Rate;
  }

  lemma {:induction false} IntervalWithinSupply(c: Config, b: Bucket, calls: seq<Call>, from: real, to: real)
    requires Usable(c) && Sound(c, b, from) && InOrder(calls, from) && from <= to
    requires forall i :: 0 <= i < |calls| ==> calls[i].now <= to
    ensures Allowed(Replies(c, b, calls)) as real
         <= c.maxTokens as real + Gain(c, to - from) + Faults(calls) as real
  {
    AllowedWithinSupply(c, b, calls, from, to);
    CheckKeepsSound(c, b, from, false, from, Healthy);
    hide Check, Level, Replies, Gain, Sound;
  }

  /** In any interval of a run, the calls let through number at most one full bucket, plus the refill of the
      interval, plus the calls during which the store failed. */
  lemma {:induction false} IntervalBound(c: Config, b: Bucket, calls: seq<Call>, from: real, to: real, refill: real)
    requires Usable(c) && Sound(c, b, from) && InOrder(calls, from) && from <= to
    requires forall i :: 0 <= i < |calls| ==> calls[i].now <= to
    requires refill * c.refillSeconds as real == (to - from) * c.maxTokens as real
    ensures Allowed(Replies(c, b, calls)) as real <= c.maxTokens as real + refill + Faults(calls) as real
  {
    hide Check, Level, Replies, Sound, Gain, Faults, Allowed;
    IntervalWithinSupply(c, b, calls, from, to);
    RefillOf(c, to - from, refill);
  }

  lemma RefillOf(c: Config, elapsed: real, refill: real)
    requires Usable(c) && refill * c.refillSeconds as real == elapsed * c.maxTokens as real
    ensures Gain(c, elapsed) == refill
  {
    var m, r := c.maxTokens as real, c.refillSeconds as real;
    assert elapsed * (m / r) * r == elapsed * (m / r * r);
    assert Gain(c, elapsed) * r == refill * r;
  }

  /** The owner, and anyone while the store cannot be read, is let through and nothing is written; a failing
      write changes no answer. */
  lemma SomeAreNeverRefused(c: Config, b: Bucket, isOwner: bool, now: real, fault: Fault)
    requires Usable(c)
    ensures isOwner || fault.ReadFails? ==> Check(c, b, isOwner, now, fault) == (b, Allow)
    ensures Check(c, b, isOwner, now, WriteFails) == (b, Check(c, b, isOwner, now, Healthy).1)
  {
  }

  /** A key that has expired, like one never written, reads as a full bucket. */
  lemma ExpiredReadsFull(c: Config, b: Bucket, now: real)
    requires Usable(c) && (b.Present? ==> now >= b.expires)
    ensures Level(c, b, now) == c.maxTokens as real && Check(c, b, false, now, Healthy).1.Allow?
  {
  }

  /** A clock that went back refills nothing. */
  lemma BackwardClockRefillsNothing(c: Config, b: Bucket, now: real)
    requires Usable(c) && b.Present? && now <= b.ts && now < b.expires && b.tokens <= c.maxTokens as real
    ensures Level(c, b, now) == b.tokens
    ensures Check(c, b, false, now, Healthy).1.Allow? <==> b.tokens >= 1.0
  {
    GainLaws(c, 0.0, 0.0);
    hide Gain, Rate;
  }

  function Burst(now: real, k: nat): seq<Call> {
    if k == 0 then [] else [Call(now, Healthy)] + Burst(now, k - 1)
  }

  lemma {:induction false} TokensCoverBurst(c: Config, b: Bucket, clock: real, now: real, k: nat)
    requires Usable(c) && Sound(c, b, clock) && clock <= now && Level(c, b, now) >= k as real
    ensures Allowed(Replies(c, b, Burst(now, k))) == k
    decreases k
  {
    if k > 0 {
      var calls := Burst(now, k);
      LevelAfter(c, b, clock, calls[0]);
      CheckKeepsSound(c, b, clock, false, now, Healthy);
      AllowedUnfolds(c, b, calls);
      assert calls[1..] == Burst(now, k - 1);
      assert Check(c, b, false, now, Healthy).1.Allow?;
      hide Check, Replies, Level, Sound;
      TokensCoverBurst(c, Check(c, b, false, now, Healthy).0, now, now, k - 1);
    }
  }

  /** After a quiet refill period, and for a user not seen before, as many calls as the bucket holds go through
      at once. */
  lemma QuietPeriodRestoresAll(c: Config, b: Bucket, clock: real, now: real)
    requires Usable(c) && Sound(c, b, clock)
    requires clock <= now && (b.Present? ==> now >= clock + c.refillSeconds as real)
    ensures Allowed(Replies(c, b, Burst(now, c.maxTokens))) == c.maxTokens
  {
    if b.Present? {
      var m, r := c.maxTokens as real, c.refillSeconds as real;
      GainGrows(c, r, now - b.ts);
      assert Gain(c, r) == m by {
        assert r * (m / r) == m;
      }
    }
    TokensCoverBurst(c, b, clock, now, c.maxTokens);
  }

  /** After a refusal the next call is let through exactly when the (unrounded) wait has passed, whether or
      not the refusal could be written down. */
  lemma WaitIsExact(c: Config, b: Bucket, clock: real, now: real, fault: Fault, later: real)
    requires Usable(c) && Sound(c, b, clock) && clock <= now <= later && !fault.ReadFails?
    requires Check(c, b, false, now, fault).1.Deny?
    ensures var (next, reply) := Check(c, b, false, now, fault);
            Check(c, next, false, later, Healthy).1.Allow? <==> later >= now + reply.wait
  {
    var wait := Check(c, b, false, now, fault).1.wait;
    LevelAfterRefusal(c, b, clock, now, fault, later);
    GainOfWait(c, 1.0 - Level(c, b, now));
    hide Gain, Level;
    assert wait == (1.0 - Level(c, b, now)) / Rate(c);
    if later >= now + wait {
      GainGrows(c, wait, later - now);
    } else {
      GainGrows(c, later - now, wait);
    }
  }

  lemma LevelAfterRefusal(c: Config, b: Bucket, clock: real, now: real, fault: Fault, later: real)
    requires Usable(c) && Sound(c, b, clock) && clock <= now <= later && !fault.ReadFails?
    requires Check(c, b, false, now, fault).1.Deny?
    ensures var next := Check(c, b, false, now, fault).0;
            && Level(c, next, later) == Min(c.maxTokens as real, Level(c, b, now) + Gain(c, later - now))
            && (Check(c, next, false, later, Healthy).1.Allow? <==> Level(c, next, later) >= 1.0)
  {
    var next := Check(c, b, false, now, fault).0;
    CheckKeepsSound(c, b, clock, false, now, fault);
    ExpiryIsInvisible(c, b, clock, now);
    ExpiryIsInvisible(c, next, now, later);
    assert b.Present?;
    GainLaws(c, now - b.ts, later - now);
    hide Level, Gain, Rate;
  }
}
