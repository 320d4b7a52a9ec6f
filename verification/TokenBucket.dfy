// The per-address token bucket and its eviction (edge/crates/ddos/src/lib.rs).
module TokenBucket {

  type Ip = int

  datatype Config = Config(rate: nat, burst: nat)
  datatype Bucket = Bucket(tokens: real, lastRefill: real)
  datatype Decision = Allowed | RateLimited(retryAfter: real)
  datatype State = State(buckets: map<Ip, Bucket>, lastEviction: real)

  const TTL_SECONDS: real := 600.0
  const EVICT_EVERY_SECONDS: real := 30.0
  const NANOS_PER_SECOND: nat := 1_000_000_000
  const EVICT_AT: nat := 100_000

  function Min(a: real, b: real): (m: real)
    ensures m <= a && m <= b && (m == a || m == b)
  {
    if a <= b then a else b
  }

  // ----- One call -----

  /** The buckets refilled within the last ten minutes. */
  function Retain(buckets: map<Ip, Bucket>, now: real): map<Ip, Bucket> {
    map ip | ip in buckets && now - buckets[ip].lastRefill <= TTL_SECONDS :: buckets[ip]
  }

  function Evict(st: State, now: real): State {
    var due := if now - st.lastEviction < EVICT_EVERY_SECONDS then st else State(Retain(st.buckets, now), now);
    if |due.buckets| < EVICT_AT then due else due.(buckets := Retain(due.buckets, now))
  }

  /** The tokens gained in `dt` seconds. */
  function Gain(config: Config, dt: real): real {
    dt * config.rate as real
  }

  function Refill(config: Config, b: Bucket, now: real): Bucket {
    var refill := Gain(config, now - b.lastRefill);
    if refill > 0.0 then Bucket(Min(b.tokens + refill, config.burst as real), now) else b
  }

  /** One token's time in whole nanoseconds, rounded to the nearest and to even between two. */
  function RetryNanos(rate: nat): nat {
    var r := if rate < 1 then 1 else rate;
    var q, m := NANOS_PER_SECOND / r, NANOS_PER_SECOND % r;
    if 2 * m < r || (2 * m == r && q % 2 == 0) then q else q + 1
  }

  /** No whole number of nanoseconds is nearer to one token's time, and of two as near the even one is taken. */
  lemma RetryNearest(rate: nat, other: nat)
    ensures var r := if rate == 0 then 1 else rate;
            var miss, rival := RetryNanos(rate) * r - NANOS_PER_SECOND, other * r - NANOS_PER_SECOND;
            && Abs(miss) <= Abs(rival)
            && (Abs(miss) == Abs(rival) && other != RetryNanos(rate) ==> RetryNanos(rate) % 2 == 0)
  {
    var r := if rate == 0 then 1 else rate;
    var q, m := NANOS_PER_SECOND / r, NANOS_PER_SECOND % r;
    assert NANOS_PER_SECOND == q * r + m;
    Multiples(q, other, r);
  }

  function Abs(x: int): nat {
    if x < 0 then -x else x
  }

  /** Multiples of `r` other than the two around a number are at least one `r` beyond them. */
  lemma Multiples(q: nat, n: nat, r: nat)
    ensures (q + 1) * r == q * r + r
    ensures n < q ==> n * r + r <= q * r
    ensures n > q + 1 ==> n * r >= q * r + 2 * r
  {
    if n < q {
      assert (n + 1) * r <= q * r;
    } else if n > q + 1 {
      assert (q + 2) * r <= n * r;
    }
  }

  /** Which buckets an eviction leaves: all, unless it is due or the table is large; then those in use lately. */
  lemma EvictIff(st: State, now: real, ip: Ip)
    ensures var sweeping := now - st.lastEviction >= EVICT_EVERY_SECONDS || |st.buckets| >= EVICT_AT;
            && (ip in Evict(st, now).buckets <==>
                ip in st.buckets && (sweeping ==> now - st.buckets[ip].lastRefill <= TTL_SECONDS))
            && (ip in Evict(st, now).buckets ==> Evict(st, now).buckets[ip] == st.buckets[ip])
  {
  }

  function RetryAfter(config: Config): real {
    RetryNanos(config.rate) as real / NANOS_PER_SECOND as real
  }

  /** `evicting` distinguishes the limiter from the reference that keeps every bucket for ever. */
  function Allow(config: Config, evicting: bool, st: State, ip: Ip, now: real): (State, Decision) {
    var s := if evicting then Evict(st, now) else st;
    var b := Refill(config, if ip in s.buckets then s.buckets[ip] else Bucket(config.burst as real, now), now);
    if b.tokens >= 1.0 then (s.(buckets := s.buckets[ip := b.(tokens := b.tokens - 1.0)]), Allowed)
    else (s.(buckets := s.buckets[ip := b]), RateLimited(RetryAfter(config)))
  }

  class RateLimiter {
    const config: Config
    var buckets: map<Ip, Bucket>
    var lastEviction: real

    function Value(): State
      reads this
    {
      State(buckets, lastEviction)
    }

    constructor (config: Config, now: real)
      ensures this.config == config && Value() == New(now)
    {
      this.config := config;
      buckets := map[];
      lastEviction := now;
    }

    method EvictIfDue(now: real)
      modifies this
      ensures Value() == if now - old(lastEviction) < EVICT_EVERY_SECONDS then old(Value())
                         else State(Retain(old(buckets), now), now)
    {
      if now - lastEviction < EVICT_EVERY_SECONDS {
        return;
      }
      lastEviction := now;
      buckets := Retain(buckets, now);
    }

    method EvictStale(now: real)
      modifies this
      ensures Value() == if |old(buckets)| < EVICT_AT then old(Value())
                         else State(Retain(old(buckets), now), old(lastEviction))
    {
      if |buckets| < EVICT_AT {
        return;
      }
      buckets := Retain(buckets, now);
    }

    method EvictBoth(now: real)
      modifies this
      ensures Value() == Evict(old(Value()), now)
    {
      EvictIfDue(now);
      EvictStale(now);
    }

    method RefillBucket(b: Bucket, now: real) returns (bucket: Bucket)
      ensures bucket == Refill(config, b, now)
    {
      bucket := b;
      var refill := Gain(config, now - bucket.lastRefill);
      if refill > 0.0 {
        bucket := Bucket(Min(bucket.tokens + refill, config.burst as real), now);
      }
    }

    method AllowRequest(ip: Ip, now: real) returns (d: Decision)
      modifies this
      ensures (Value(), d) == Allow(config, true, old(Value()), ip, now)
    {
      EvictBoth(now);
      label evicted:
      var bucket := RefillBucket(if ip in buckets then buckets[ip] else Bucket(config.burst as real, now), now);
      if bucket.tokens >= 1.0 {
        bucket := bucket.(tokens := bucket.tokens - 1.0);
        d := Allowed;
      } else {
        d := RateLimited(RetryAfter(config));
      }
      buckets := buckets[ip := bucket];
      assert (Value(), d) == Allow(config, false, old@evicted(Value()), ip, now);
    }
  }

  // ----- The level of an address: what its bucket holds at a given time -----

  function New(now: real): State {
    State(map[], now)
  }

  function BucketLevel(config: Config, b: Bucket, now: real): real {
    Min(config.burst as real, b.tokens + Gain(config, now - b.lastRefill))
  }

  function Level(config: Config, st: State, ip: Ip, now: real): real {
    if ip in st.buckets then BucketLevel(config, st.buckets[ip], now) else config.burst as real
  }

  predicate SoundBucket(config: Config, b: Bucket, now: real) {
    0.0 <= b.tokens <= config.burst as real && b.lastRefill <= now
  }

  ghost predicate Sound(config: Config, st: State, now: real) {
    forall ip :: ip in st.buckets ==> SoundBucket(config, st.buckets[ip], now)
  }

  lemma GainMonotone(config: Config, a: real, b: real)
    requires a <= b
    ensures Gain(config, a) <= Gain(config, b)
    ensures Gain(config, 0.0) == 0.0
  {
  }

  lemma GainSum(config: Config, a: real, b: real)
    ensures Gain(config, a + b) == Gain(config, a) + Gain(config, b)
  {
  }

  /** Time only adds tokens at the configured rate, up to the burst. */
  lemma LevelLater(config: Config, st: State, ip: Ip, now: real, later: real)
    requires now <= later
    ensures Level(config, st, ip, later) ==
            Min(config.burst as real, Level(config, st, ip, now) + Gain(config, later - now))
  {
    GainMonotone(config, 0.0, later - now);
    if ip in st.buckets {
      var last := st.buckets[ip].lastRefill;
      assert later - last == (now - last) + (later - now);
      GainSum(config, now - last, later - now);
    }
  }

  lemma RefillIsLevel(config: Config, b: Bucket, now: real)
    requires SoundBucket(config, b, now)
    ensures Refill(config, b, now).tokens == BucketLevel(config, b, now)
    ensures SoundBucket(config, Refill(config, b, now), now)
    ensures Gain(config, now - Refill(config, b, now).lastRefill) == 0.0
  {
    GainMonotone(config, 0.0, now - b.lastRefill);
  }

  lemma IdleBucketIsFull(config: Config, b: Bucket, now: real)
    requires SoundBucket(config, b, now) && now - b.lastRefill > TTL_SECONDS
    requires config.burst <= 600 * config.rate
    ensures BucketLevel(config, b, now) == config.burst as real
  {
    GainMonotone(config, 600.0, now - b.lastRefill);
    assert Gain(config, 600.0) == (600 * config.rate) as real;
  }

  lemma EvictKeeps(st: State, now: real, ip: Ip)
    ensures ip in Evict(st, now).buckets ==> ip in st.buckets && Evict(st, now).buckets[ip] == st.buckets[ip]
    ensures ip in st.buckets && ip !in Evict(st, now).buckets ==> now - st.buckets[ip].lastRefill > TTL_SECONDS
  {
  }

  lemma EvictRaises(config: Config, st: State, now: real, ip: Ip)
    requires Sound(config, st, now)
    ensures Sound(config, Evict(st, now), now)
    ensures Level(config, st, ip, now) <= Level(config, Evict(st, now), ip, now)
    ensures config.burst <= 600 * config.rate ==> Level(config, Evict(st, now), ip, now) == Level(config, st, ip, now)
  {
    forall x {
      EvictKeeps(st, now, x);
    }
    if ip in st.buckets && ip !in Evict(st, now).buckets && config.burst <= 600 * config.rate {
      IdleBucketIsFull(config, st.buckets[ip], now);
    }
  }

  /** Without eviction a call is admitted exactly at level one or more, and takes one token of its own address only. */
  lemma TakeIsLevel(config: Config, st: State, ip: Ip, now: real, other: Ip)
    requires Sound(config, st, now)
    ensures var (st', d) := Allow(config, false, st, ip, now);
            && Sound(config, st', now)
            && (d.Allowed? <==> Level(config, st, ip, now) >= 1.0)
            && Level(config, st', other, now) ==
               Level(config, st, other, now) - if other == ip && d.Allowed? then 1.0 else 0.0
  {
    var b := if ip in st.buckets then st.buckets[ip] else Bucket(config.burst as real, now);
    GainMonotone(config, 0.0, 0.0);
    RefillIsLevel(config, b, now);
  }

  /** With eviction the same holds of the level that eviction leaves. */
  lemma AllowIsLevel(config: Config, evicting: bool, st: State, ip: Ip, now: real, other: Ip)
    requires Sound(config, st, now)
    ensures var s := if evicting then Evict(st, now) else st;
            var (st', d) := Allow(config, evicting, st, ip, now);
            && Sound(config, st', now)
            && (d.Allowed? <==> Level(config, s, ip, now) >= 1.0)
            && Level(config, st', other, now) ==
               Level(config, s, other, now) - if other == ip && d.Allowed? then 1.0 else 0.0
  {
    if evicting {
      EvictRaises(config, st, now, ip);
      assert Allow(config, true, st, ip, now) == Allow(config, false, Evict(st, now), ip, now);
      TakeIsLevel(config, Evict(st, now), ip, now, other);
    } else {
      TakeIsLevel(config, st, ip, now, other);
    }
  }

  // ----- Runs -----

  datatype Call = Call(ip: Ip, at: real)

  predicate Ordered(start: real, calls: seq<Call>)
    decreases calls
  {
    calls == [] || (start <= calls[0].at && Ordered(calls[0].at, calls[1..]))
  }

  function Decisions(config: Config, evicting: bool, st: State, calls: seq<Call>): (ds: seq<Decision>)
    ensures |ds| == |calls|
    decreases calls
  {
    if calls == [] then []
    else
      var (st', d) := Allow(config, evicting, st, calls[0].ip, calls[0].at);
      [d] + Decisions(config, evicting, st', calls[1..])
  }

  /** How many of the calls of an address were admitted. */
  function Admitted(calls: seq<Call>, ds: seq<Decision>, ip: Ip): nat
    requires |ds| == |calls|
  {
    if calls == [] then 0
    else (if calls[0].ip == ip && ds[0].Allowed? then 1 else 0) + Admitted(calls[1..], ds[1..], ip)
  }

  ghost predicate SameLevels(config: Config, a: State, b: State, now: real) {
    forall ip :: Level(config, a, ip, now) == Level(config, b, ip, now)
  }

  lemma SameLevelsLater(config: Config, a: State, b: State, now: real, later: real)
    requires SameLevels(config, a, b, now) && now <= later
    ensures SameLevels(config, a, b, later)
  {
    forall ip
      ensures Level(config, a, ip, later) == Level(config, b, ip, later)
    {
      LevelLater(config, a, ip, now, later);
      LevelLater(config, b, ip, now, later);
    }
  }

  lemma {:induction false} EvictionHarmless(config: Config, e: State, n: State, now: real, calls: seq<Call>)
    requires config.burst <= 600 * config.rate
    requires Sound(config, e, now) && Sound(config, n, now) && SameLevels(config, e, n, now)
    requires Ordered(now, calls)
    ensures Decisions(config, true, e, calls) == Decisions(config, false, n, calls)
    decreases calls
  {
    if calls != [] {
      var ip, at := calls[0].ip, calls[0].at;
      SameLevelsLater(config, e, n, now, at);
      var (e', de) := Allow(config, true, e, ip, at);
      var (n', dn) := Allow(config, false, n, ip, at);
      EvictRaises(config, e, at, ip);
      AllowIsLevel(config, true, e, ip, at, ip);
      AllowIsLevel(config, false, n, ip, at, ip);
      forall other
        ensures Level(config, e', other, at) == Level(config, n', other, at)
      {
        EvictRaises(config, e, at, other);
        AllowIsLevel(config, true, e, ip, at, other);
        AllowIsLevel(config, false, n, ip, at, other);
      }
      EvictionHarmless(config, e', n', at, calls[1..]);
    }
  }

  lemma {:induction false} AdmittedBound(config: Config, st: State, ip: Ip, s: real, t: real, calls: seq<Call>)
    requires Sound(config, st, s) && Ordered(s, calls)
    requires s <= t && forall k :: 0 <= k < |calls| ==> calls[k].at <= t
    ensures Admitted(calls, Decisions(config, false, st, calls), ip) as real <=
            Level(config, st, ip, s) + Gain(config, t - s)
    decreases calls
  {
    GainMonotone(config, 0.0, t - s);
    if calls == [] {
      if ip in st.buckets { RefillIsLevel(config, st.buckets[ip], s); }
    } else {
      var at := calls[0].at;
      var (st', d) := Allow(config, false, st, calls[0].ip, at);
      LevelLater(config, st, ip, s, at);
      AllowIsLevel(config, false, st, calls[0].ip, at, ip);
      AdmittedBound(config, st', ip, at, t, calls[1..]);
      assert t - s == (at - s) + (t - at);
      GainSum(config, at - s, t - at);
      assert Decisions(config, false, st, calls)[1..] == Decisions(config, false, st', calls[1..]);
    }
  }

  function StateAfter(config: Config, evicting: bool, st: State, calls: seq<Call>): State
    decreases calls
  {
    if calls == [] then st
    else StateAfter(config, evicting, Allow(config, evicting, st, calls[0].ip, calls[0].at).0, calls[1..])
  }

  lemma {:induction false} RunFrom(config: Config, st: State, start: real, calls: seq<Call>, i: nat)
    requires i < |calls| && Sound(config, st, start) && Ordered(start, calls)
    ensures var mid := StateAfter(config, false, st, calls[..i]);
            && Sound(config, mid, calls[i].at) && Ordered(calls[i].at, calls[i..])
            && Decisions(config, false, st, calls)[i..] == Decisions(config, false, mid, calls[i..])
    decreases calls
  {
    if i == 0 {
      assert calls[0..] == calls;
    } else {
      var (st', d) := Allow(config, false, st, calls[0].ip, calls[0].at);
      AllowIsLevel(config, false, st, calls[0].ip, calls[0].at, calls[0].ip);
      RunFrom(config, st', calls[0].at, calls[1..], i - 1);
      assert calls[..i][1..] == calls[1..][..i - 1];
      assert calls[1..][i - 1..] == calls[i..];
      assert Decisions(config, false, st, calls)[i..] == Decisions(config, false, st', calls[1..])[i - 1..];
    }
  }

  lemma {:induction false} DecisionsPrefix(config: Config, evicting: bool, st: State, calls: seq<Call>, j: nat)
    requires j <= |calls|
    ensures Decisions(config, evicting, st, calls)[..j] == Decisions(config, evicting, st, calls[..j])
    decreases calls
  {
    if j > 0 {
      var st' := Allow(config, evicting, st, calls[0].ip, calls[0].at).0;
      DecisionsPrefix(config, evicting, st', calls[1..], j - 1);
      assert calls[..j][1..] == calls[1..][..j - 1];
    }
  }

  lemma {:induction false} OrderedPrefix(start: real, calls: seq<Call>, j: nat)
    requires Ordered(start, calls) && j <= |calls|
    ensures Ordered(start, calls[..j])
    decreases calls
  {
    if j > 0 {
      OrderedPrefix(calls[0].at, calls[1..], j - 1);
      assert calls[..j][1..] == calls[1..][..j - 1];
    }
  }

  /** A stretch i..j of an ordered run that lies inside [s, t]. */
  predicate Window(start: real, calls: seq<Call>, i: nat, j: nat, s: real, t: real) {
    && Ordered(start, calls) && i <= j <= |calls| && s <= t
    && forall k :: i <= k < j ==> s <= calls[k].at <= t
  }

  function AdmittedIn(config: Config, evicting: bool, start: real, calls: seq<Call>, ip: Ip, i: nat, j: nat): nat
    requires i <= j <= |calls|
  {
    Admitted(calls[i..j], Decisions(config, evicting, New(start), calls)[i..j], ip)
  }

  /** In every run, the calls admitted for an address inside any [s, t] obey the burst and the rate. */
  ghost predicate RateBounded(config: Config, evicting: bool) {
    forall start, calls, ip, i, j, s, t :: Window(start, calls, i, j, s, t) ==>
      AdmittedIn(config, evicting, start, calls, ip, i, j) as real <= config.burst as real + Gain(config, t - s)
  }

  lemma WindowBound(config: Config, start: real, calls: seq<Call>, ip: Ip, i: nat, j: nat, s: real, t: real)
    requires Window(start, calls, i, j, s, t)
    ensures AdmittedIn(config, false, start, calls, ip, i, j) as real <= config.burst as real + Gain(config, t - s)
  {
    GainMonotone(config, 0.0, t - s);
    if i < j {
      var st := New(start);
      RunFrom(config, st, start, calls, i);
      var mid := StateAfter(config, false, st, calls[..i]);
      var at := calls[i].at;
      var window := calls[i..][..j - i];
      OrderedPrefix(at, calls[i..], j - i);
      DecisionsPrefix(config, false, mid, calls[i..], j - i);
      AdmittedBound(config, mid, ip, at, t, window);
      GainMonotone(config, t - at, t - s);
      assert window == calls[i..j];
      assert Decisions(config, false, st, calls)[i..j] == Decisions(config, false, st, calls)[i..][..j - i];
    } else {
      assert calls[i..j] == [];
    }
  }

  ghost predicate EvictionUnobservable(config: Config) {
    forall start: real, calls: seq<Call> :: Ordered(start, calls) ==>
      Decisions(config, true, New(start), calls) == Decisions(config, false, New(start), calls)
  }

  // ----- When the burst outlasts the time to live -----

  function Repeat(call: Call, n: nat): seq<Call> {
    if n == 0 then [] else [call] + Repeat(call, n - 1)
  }

  lemma {:induction false} DecisionsConcat(config: Config, st: State, a: seq<Call>, b: seq<Call>)
    ensures Decisions(config, true, st, a + b) ==
            Decisions(config, true, st, a) + Decisions(config, true, StateAfter(config, true, st, a), b)
    decreases a
  {
    if a == [] {
      assert a + b == b;
    } else {
      assert (a + b)[1..] == a[1..] + b;
      DecisionsConcat(config, Allow(config, true, st, a[0].ip, a[0].at).0, a[1..], b);
    }
  }

  /** At level n or more, n calls at one instant are all admitted. */
  lemma {:induction false} BurstAdmitted(config: Config, st: State, call: Call, n: nat)
    requires Sound(config, st, call.at)
    requires n as real <= Level(config, Evict(st, call.at), call.ip, call.at)
    ensures Sound(config, StateAfter(config, true, st, Repeat(call, n)), call.at)
    ensures Admitted(Repeat(call, n), Decisions(config, true, st, Repeat(call, n)), call.ip) == n
    decreases n
  {
    if n > 0 {
      var calls := Repeat(call, n);
      var (st', d) := Allow(config, true, st, call.ip, call.at);
      AllowIsLevel(config, true, st, call.ip, call.at, call.ip);
      EvictRaises(config, st', call.at, call.ip);
      BurstAdmitted(config, st', call, n - 1);
      assert calls[1..] == Repeat(call, n - 1);
      assert Decisions(config, true, st, calls)[1..] == Decisions(config, true, st', calls[1..]);
    }
  }

  lemma {:induction false} EvictionTimeStays(config: Config, st: State, call: Call, n: nat)
    requires st.lastEviction == call.at
    ensures StateAfter(config, true, st, Repeat(call, n)).lastEviction == call.at
    decreases n
  {
    if n > 0 {
      assert Repeat(call, n)[1..] == Repeat(call, n - 1);
      EvictionTimeStays(config, Allow(config, true, st, call.ip, call.at).0, call, n - 1);
    }
  }

  lemma {:induction false} RepeatOrdered(start: real, call: Call, n: nat, rest: seq<Call>)
    requires start <= call.at && Ordered(call.at, rest)
    ensures |Repeat(call, n)| == n && (forall k :: 0 <= k < n ==> Repeat(call, n)[k] == call)
    ensures Ordered(start, Repeat(call, n) + rest)
    decreases n
  {
    var calls := Repeat(call, n);
    if n == 0 {
      assert calls + rest == rest;
    } else {
      RepeatOrdered(call.at, call, n - 1, rest);
      assert (calls + rest)[1..] == Repeat(call, n - 1) + rest;
    }
  }

  lemma {:induction false} AdmittedConcat(a: seq<Call>, da: seq<Decision>, b: seq<Call>, db: seq<Decision>, ip: Ip)
    requires |a| == |da| && |b| == |db|
    ensures Admitted(a + b, da + db, ip) == Admitted(a, da, ip) + Admitted(b, db, ip)
  {
    if a == [] {
      assert a + b == b && da + db == db;
    } else {
      assert (a + b)[1..] == a[1..] + b && (da + db)[1..] == da[1..] + db;
      AdmittedConcat(a[1..], da[1..], b, db, ip);
    }
  }

  /** Two full bursts, just over ten minutes apart. */
  function TwoBursts(config: Config, t: real): seq<Call> {
    Repeat(Call(0, 0.0), config.burst) + Repeat(Call(0, t), config.burst)
  }

  lemma TwoBurstsAdmitted(config: Config, t: real)
    requires t > TTL_SECONDS
    ensures var calls := TwoBursts(config, t);
            && Ordered(0.0, calls)
            && (forall k :: 0 <= k < |calls| ==> 0.0 <= calls[k].at <= t)
            && Admitted(calls, Decisions(config, true, New(0.0), calls), 0) == 2 * config.burst
  {
    var b := config.burst;
    var first, second := Repeat(Call(0, 0.0), b), Repeat(Call(0, t), b);
    RepeatOrdered(t, Call(0, t), b, []);
    assert second + [] == second;
    RepeatOrdered(0.0, Call(0, t), b, []);
    RepeatOrdered(0.0, Call(0, 0.0), b, second);
    var st := New(0.0);
    BurstAdmitted(config, st, Call(0, 0.0), b);
    EvictionTimeStays(config, st, Call(0, 0.0), b);
    DecisionsConcat(config, st, first, second);
    var mid := StateAfter(config, true, st, first);
    SoundLater(config, mid, 0.0, t);
    assert 0 in mid.buckets ==> SoundBucket(config, mid.buckets[0], 0.0);
    assert 0 !in Evict(mid, t).buckets;
    BurstAdmitted(config, mid, Call(0, t), b);
    AdmittedConcat(first, Decisions(config, true, st, first), second, Decisions(config, true, mid, second), 0);
  }

  lemma SafeGap(config: Config) returns (t: real)
    requires config.burst > 600 * config.rate
    ensures t > TTL_SECONDS && Gain(config, t) < config.burst as real
  {
    var r := config.rate as real;
    var e := 1.0 / (2.0 * (r + 1.0));
    t := 600.0 + e;
    assert e > 0.0 && e * (2.0 * (r + 1.0)) == 1.0;
    assert e * r < 1.0 by {
      assert e * (2.0 * (r + 1.0)) == e * r + e * r + 2.0 * e;
    }
    assert Gain(config, 600.0) == (600 * config.rate) as real;
    GainSum(config, 600.0, e);
  }

  /** Beyond that limit, two bursts show it: all calls are admitted, more than the rate allows. */
  lemma EvictionBreaksRate(config: Config) returns (calls: seq<Call>, t: real)
    requires config.burst > 600 * config.rate
    ensures Window(0.0, calls, 0, |calls|, 0.0, t)
    ensures AdmittedIn(config, true, 0.0, calls, 0, 0, |calls|) as real > config.burst as real + Gain(config, t - 0.0)
  {
    t := SafeGap(config);
    calls := TwoBursts(config, t);
    TwoBurstsAdmitted(config, t);
    var ds := Decisions(config, true, New(0.0), calls);
    assert calls[0..|calls|] == calls && ds[0..|calls|] == ds;
  }

  /** Dropping idle buckets is unobservable exactly when a bucket refills completely within ten minutes. */
  lemma EvictionUnobservableIff(config: Config)
    ensures EvictionUnobservable(config) <==> config.burst <= 600 * config.rate
  {
    if config.burst <= 600 * config.rate {
      forall start: real, calls: seq<Call> | Ordered(start, calls)
        ensures Decisions(config, true, New(start), calls) == Decisions(config, false, New(start), calls)
      {
        EvictionHarmless(config, New(start), New(start), start, calls);
      }
    } else {
      var calls, t := EvictionBreaksRate(config);
      WindowBound(config, 0.0, calls, 0, 0, |calls|, 0.0, t);
    }
  }

  /** The rate bound always holds without eviction, and with it exactly under the same condition. */
  lemma RateBoundedIff(config: Config)
    ensures RateBounded(config, false)
    ensures RateBounded(config, true) <==> config.burst <= 600 * config.rate
  {
    forall start, calls, ip, i, j, s, t | Window(start, calls, i, j, s, t)
      ensures AdmittedIn(config, false, start, calls, ip, i, j) as real <= config.burst as real + Gain(config, t - s)
    {
      WindowBound(config, start, calls, ip, i, j, s, t);
    }
    EvictionUnobservableIff(config);
    if config.burst > 600 * config.rate {
      var calls, t := EvictionBreaksRate(config);
    } else {
      forall start, calls, ip, i, j, s, t | Window(start, calls, i, j, s, t)
        ensures AdmittedIn(config, true, start, calls, ip, i, j) as real <= config.burst as real + Gain(config, t - s)
      {
        assert AdmittedIn(config, true, start, calls, ip, i, j) == AdmittedIn(config, false, start, calls, ip, i, j);
      }
    }
  }

  // ----- The advertised wait -----

  /** A refused caller that comes back after the advertised time, alone, is admitted. */
  predicate LetIn(config: Config, evicting: bool, st: State, ip: Ip, now: real) {
    var (st', d) := Allow(config, evicting, st, ip, now);
    d.RateLimited? ==> Allow(config, evicting, st', ip, now + d.retryAfter).1.Allowed?
  }

  /** In every state a run of calls reaches, whoever calls next, not before the last call. */
  ghost predicate WaitSuffices(config: Config, evicting: bool) {
    forall start, calls, ip, now :: Reaches(start, calls, now) ==>
      LetIn(config, evicting, StateAfter(config, evicting, New(start), calls), ip, now)
  }

  predicate Reaches(start: real, calls: seq<Call>, now: real) {
    Ordered(start, calls) && start <= now && forall k :: 0 <= k < |calls| ==> calls[k].at <= now
  }

  /**
   * The advertised wait suffices in every reachable state, with eviction or without, exactly when the bucket
   * holds a token at all and the wait in whole nanoseconds was not rounded down below one token's time.
   */
  lemma WaitSufficesIff(config: Config, evicting: bool)
    ensures WaitSuffices(config, evicting) <==>
            config.burst >= 1 && config.rate * RetryNanos(config.rate) >= NANOS_PER_SECOND
  {
    GainOfWait(config);
    if config.burst >= 1 && config.rate * RetryNanos(config.rate) >= NANOS_PER_SECOND {
      forall start, calls, ip, now | Reaches(start, calls, now)
        ensures LetIn(config, evicting, StateAfter(config, evicting, New(start), calls), ip, now)
      {
        ReachedSound(config, evicting, New(start), start, calls, now);
        EnoughLetsIn(config, evicting, StateAfter(config, evicting, New(start), calls), ip, now);
      }
    } else {
      DrainedRefused(config, evicting);
    }
  }

  lemma {:induction false} ReachedSound(
    config: Config, evicting: bool, st: State, start: real, calls: seq<Call>, now: real)
    requires Sound(config, st, start) && Reaches(start, calls, now)
    ensures Sound(config, StateAfter(config, evicting, st, calls), now)
    decreases calls
  {
    if calls == [] {
      SoundLater(config, st, start, now);
    } else {
      var at := calls[0].at;
      SoundLater(config, st, start, at);
      AllowIsLevel(config, evicting, st, calls[0].ip, at, calls[0].ip);
      ReachedSound(config, evicting, Allow(config, evicting, st, calls[0].ip, at).0, at, calls[1..], now);
    }
  }

  lemma GainOfWait(config: Config)
    ensures 0.0 <= RetryAfter(config) <= 1.0
    ensures Gain(config, RetryAfter(config)) >= 1.0 <==> config.rate * RetryNanos(config.rate) >= NANOS_PER_SECOND
    ensures Gain(config, RetryAfter(config)) >= 0.0
  {
    NanosBounded(config.rate);
    Scaled(RetryNanos(config.rate), config.rate, NANOS_PER_SECOND);
    assert (config.rate * RetryNanos(config.rate)) as real >= 0.0;
  }

  lemma NanosBounded(rate: nat)
    ensures RetryNanos(rate) <= NANOS_PER_SECOND
  {
    var r := if rate < 1 then 1 else rate;
    if r > 1 {
      assert NANOS_PER_SECOND / r <= NANOS_PER_SECOND / 2 by { Halved(NANOS_PER_SECOND, r); }
    }
  }

  lemma Halved(n: nat, r: nat)
    requires r >= 2
    ensures n / r <= n / 2
  {
    assert n == n / r * r + n % r;
    AtLeastTwice(n / r, r - 2);
  }

  lemma AtLeastTwice(q: nat, d: nat)
    ensures q * 2 <= q * (d + 2)
  {
    assert q * (d + 2) == q * d + q * 2;
  }

  lemma Scaled(n: nat, rate: nat, unit: nat)
    requires unit > 0
    ensures n as real / unit as real * rate as real == (rate * n) as real / unit as real
    ensures (rate * n) as real / unit as real >= 1.0 <==> rate * n >= unit
  {
    assert (rate * n) as real == rate as real * n as real;
  }

  lemma EnoughLetsIn(config: Config, evicting: bool, st: State, ip: Ip, now: real)
    requires Sound(config, st, now) && config.burst >= 1 && Gain(config, RetryAfter(config)) >= 1.0
    ensures LetIn(config, evicting, st, ip, now)
  {
    var (st', d) := Allow(config, evicting, st, ip, now);
    if d.RateLimited? {
      var later := now + RetryAfter(config);
      GainOfWait(config);
      AllowIsLevel(config, evicting, st, ip, now, ip);
      LevelNotNegative(config, st', ip, now);
      LevelLater(config, st', ip, now, later);
      SoundLater(config, st', now, later);
      EvictRaises(config, st', later, ip);
      AllowIsLevel(config, evicting, st', ip, later, ip);
      assert later - now == RetryAfter(config);
    }
  }

  lemma LevelNotNegative(config: Config, st: State, ip: Ip, now: real)
    requires Sound(config, st, now)
    ensures Level(config, st, ip, now) >= 0.0
  {
    if ip in st.buckets {
      assert SoundBucket(config, st.buckets[ip], now);
      GainMonotone(config, 0.0, now - st.buckets[ip].lastRefill);
    }
  }

  /** Nothing is there but the first address's bucket, evicted last at the start. */
  predicate Lone(st: State) {
    st.buckets.Keys <= {0} && st.lastEviction == 0.0
  }

  lemma LoneKept(st: State, now: real)
    requires Lone(st) && now < EVICT_EVERY_SECONDS
    ensures Evict(st, now) == st
  {
    if 0 in st.buckets {
      assert st.buckets.Keys == {0};
    } else {
      assert st.buckets.Keys == {};
    }
    assert |st.buckets| == |st.buckets.Keys|;
    KeptFor(st, now);
  }

  /** Calls at the start drain the level of their address one by one. */
  lemma {:induction false} Drains(config: Config, evicting: bool, st: State, n: nat)
    requires Lone(st) && Sound(config, st, 0.0) && Level(config, st, 0, 0.0) >= n as real
    ensures var st' := StateAfter(config, evicting, st, Repeat(Call(0, 0.0), n));
            Lone(st') && Sound(config, st', 0.0) && Level(config, st', 0, 0.0) == Level(config, st, 0, 0.0) - n as real
    decreases n
  {
    if n > 0 {
      var call := Call(0, 0.0);
      LoneKept(st, 0.0);
      AllowIsLevel(config, evicting, st, 0, 0.0, 0);
      assert Repeat(call, n)[1..] == Repeat(call, n - 1);
      Drains(config, evicting, Allow(config, evicting, st, 0, 0.0).0, n - 1);
    }
  }

  /** A drained address is refused, and refused again when the wait does not bring a token. */
  lemma EmptyRefused(config: Config, evicting: bool, st: State)
    requires Lone(st) && Sound(config, st, 0.0) && Level(config, st, 0, 0.0) == 0.0
    requires config.burst == 0 || Gain(config, RetryAfter(config)) < 1.0
    ensures !LetIn(config, evicting, st, 0, 0.0)
  {
    var later := RetryAfter(config);
    var (st', d) := Allow(config, evicting, st, 0, 0.0);
    GainOfWait(config);
    LoneKept(st, 0.0);
    AllowIsLevel(config, evicting, st, 0, 0.0, 0);
    LoneKept(st', later);
    SoundLater(config, st', 0.0, later);
    LevelLater(config, st', 0, 0.0, later);
    AllowIsLevel(config, evicting, st', 0, later, 0);
    assert later - 0.0 == later && 0.0 + later == later;
  }

  /** As many calls as the burst at one moment, one more, and that one again after the wait. */
  lemma DrainedRefused(config: Config, evicting: bool)
    requires config.burst == 0 || Gain(config, RetryAfter(config)) < 1.0
    ensures !WaitSuffices(config, evicting)
  {
    var calls := Repeat(Call(0, 0.0), config.burst);
    RepeatOrdered(0.0, Call(0, 0.0), config.burst, []);
    assert calls + [] == calls;
    Drains(config, evicting, New(0.0), config.burst);
    EmptyRefused(config, evicting, StateAfter(config, evicting, New(0.0), calls));
    assert Reaches(0.0, calls, 0.0);
  }

  lemma KeptFor(st: State, now: real)
    requires now - st.lastEviction < EVICT_EVERY_SECONDS && |st.buckets| < EVICT_AT
    ensures Evict(st, now) == st
  {
  }

  lemma SoundLater(config: Config, st: State, now: real, later: real)
    requires Sound(config, st, now) && now <= later
    ensures Sound(config, st, later)
  {
  }
}
