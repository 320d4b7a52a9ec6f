// Choosing an available upstream and explaining why there is none (edge/crates/http-proxy/src/lib.rs).
module Selection {
  import opened Text
  import opened Routes
  import opened CircuitBreaker
  import opened Balancing

  datatype Reason = RouteHasNoUpstreams | AllUpstreamsUnhealthy | CircuitBreakerOpen

  /** Where a request is headed: the route and path prefix that key its breakers. */
  datatype Target = Target(routeId: string, prefix: string)

  function BreakerKey(t: Target, u: Upstream): string {
    CircuitKey(t.routeId, t.prefix, u.url)
  }

  /** An upstream that may be used: healthy, with its breaker closed. */
  predicate Eligible(states: Breakers, t: Target, now: real, u: Upstream) {
    u.healthy && !OpenAt(states, BreakerKey(t, u), now)
  }

  /** The eligible upstreams of one kind, primary or backup, in order. */
  function EligibleOf(states: Breakers, t: Target, now: real, ups: seq<Upstream>, backup: bool): seq<Upstream> {
    if ups == [] then []
    else
      var init, last := ups[..|ups| - 1], ups[|ups| - 1];
      EligibleOf(states, t, now, init, backup) +
      if last.backup == backup && Eligible(states, t, now, last) then [last] else []
  }

  ghost predicate SameFrom(a: Breakers, b: Breakers, now: real) {
    forall k, t :: now <= t ==> OpenAt(a, k, t) == OpenAt(b, k, t)
  }

  lemma EligibleSame(a: Breakers, b: Breakers, t: Target, now: real)
    requires SameFrom(a, b, now)
    ensures forall u :: Eligible(a, t, now, u) == Eligible(b, t, now, u)
  {
    forall u: Upstream
      ensures Eligible(a, t, now, u) == Eligible(b, t, now, u)
    {
      assert OpenAt(a, BreakerKey(t, u), now) == OpenAt(b, BreakerKey(t, u), now);
    }
  }

  lemma {:induction false} EligibleOfSame(a: Breakers, b: Breakers, t: Target, now: real, ups: seq<Upstream>, backup: bool)
    requires forall u :: Eligible(a, t, now, u) == Eligible(b, t, now, u)
    ensures EligibleOf(a, t, now, ups, backup) == EligibleOf(b, t, now, ups, backup)
  {
    if ups != [] {
      EligibleOfSame(a, b, t, now, ups[..|ups| - 1], backup);
    }
  }

  /** An upstream may be used exactly when it is healthy and its own results do not end in a recent run of failures. */
  lemma EligibleIffHistory(config: Config, history: seq<Event>, t: Target, now: real, u: Upstream)
    requires config.enabled && Ordered(history)
    requires history != [] ==> history[|history| - 1].at <= now
    ensures Eligible(After(config, history), t, now, u) <==>
            u.healthy && !ShouldBeOpen(config, ResultsOf(history, CircuitKey(t.routeId, t.prefix, u.url)), now)
  {
    OpenIffHistory(config, history, BreakerKey(t, u), now);
  }

  lemma {:induction false} EligibleOfMembers(states: Breakers, t: Target, now: real, ups: seq<Upstream>, backup: bool)
    ensures forall u :: u in EligibleOf(states, t, now, ups, backup) <==>
                          u in ups && u.backup == backup && Eligible(states, t, now, u)
  {
    if ups != [] {
      EligibleOfMembers(states, t, now, ups[..|ups| - 1], backup);
      assert ups == ups[..|ups| - 1] + [ups[|ups| - 1]];
    }
  }

  lemma {:induction false} AllHealthy(ups: seq<Upstream>)
    requires forall u :: u in ups ==> u.healthy
    ensures Healthy(ups) == ups
  {
    if ups != [] {
      AllHealthy(ups[..|ups| - 1]);
      assert ups == ups[..|ups| - 1] + [ups[|ups| - 1]];
    }
  }

  /** The filter, with the breaker query each member it reaches performs. */
  method FilterEligible(breakers: CircuitBreakers, t: Target, now: real, ups: seq<Upstream>, backup: bool)
    returns (r: seq<Upstream>)
    modifies breakers
    ensures r == EligibleOf(old(breakers.states), t, now, ups, backup)
    ensures SameFrom(breakers.states, old(breakers.states), now)
  {
    r := [];
    for i := 0 to |ups|
      invariant r == EligibleOf(old(breakers.states), t, now, ups[..i], backup)
      invariant SameFrom(breakers.states, old(breakers.states), now)
    {
      assert ups[..i + 1][..i] == ups[..i];
      if ups[i].backup == backup && ups[i].healthy {
        assert OpenAt(breakers.states, BreakerKey(t, ups[i]), now) == OpenAt(old(breakers.states), BreakerKey(t, ups[i]), now);
        var open := breakers.IsOpen(BreakerKey(t, ups[i]), now);
        if !open {
          r := r + [ups[i]];
        }
      }
    }
    assert ups[..|ups|] == ups;
  }

  /** The upstream a sticky cookie names; `wanted` is None without an enabled, readable cookie. */
  function StickyUpstream(ups: seq<Upstream>, idOf: string -> string, wanted: Option<string>): (r: Option<Upstream>)
    ensures r.Some? ==> r.value in ups && wanted == Some(idOf(r.value.url))
    ensures r.None? && wanted.Some? ==> forall u :: u in ups ==> idOf(u.url) != wanted.value
  {
    if wanted.None? || ups == [] then None
    else if idOf(ups[0].url) == wanted.value then Some(ups[0])
    else StickyUpstream(ups[1..], idOf, wanted)
  }

  /** A selection can succeed: some member is eligible, and hashing by address knows it or has a usable cookie. */
  ghost predicate Selectable(
    states: Breakers, t: Target, now: real, ups: seq<Upstream>, algorithm: Algorithm, ip: Option<Ip>, sticky: Option<Upstream>)
  {
    && (exists u :: u in ups && Eligible(states, t, now, u))
    && (algorithm.IpHash? && ip.None? ==> sticky.Some? && Eligible(states, t, now, sticky.value))
  }

  method SelectAvailable(
    breakers: CircuitBreakers, balancer: LoadBalancer, t: Target, now: real, routeKey: string, algorithm: Algorithm,
    ups: seq<Upstream>, ip: Option<Ip>, idOf: string -> string, wanted: Option<string>)
    returns (r: Option<Upstream>)
    modifies breakers, balancer
    ensures SameFrom(breakers.states, old(breakers.states), now)
    ensures r.Some? <==> Selectable(old(breakers.states), t, now, ups, algorithm, ip, StickyUpstream(ups, idOf, wanted))
    ensures r.Some? ==> r.value in ups && Eligible(old(breakers.states), t, now, r.value)
    ensures r.Some? && r.value.backup ==>
              || StickyUpstream(ups, idOf, wanted) == r
              || forall u :: u in ups && Eligible(old(breakers.states), t, now, u) ==> u.backup
    ensures var sticky := StickyUpstream(ups, idOf, wanted);
            sticky.Some? && Eligible(old(breakers.states), t, now, sticky.value) ==> r == sticky
    ensures var sticky := StickyUpstream(ups, idOf, wanted);
            !(sticky.Some? && Eligible(old(breakers.states), t, now, sticky.value)) ==>
              r == Pooled(balancer.hashes, old(balancer.Remembered()), old(breakers.states), t, now, routeKey, algorithm, ups, ip)
  {
    ghost var states := breakers.states;
    var sticky := StickyUpstream(ups, idOf, wanted);
    if sticky.Some? && sticky.value.healthy {
      var open := breakers.IsOpen(BreakerKey(t, sticky.value), now);
      if !open {
        return sticky;
      }
    }
    assert !(sticky.Some? && Eligible(states, t, now, sticky.value));
    EligibleSame(breakers.states, states, t, now);
    PooledSame(balancer.hashes, balancer.Remembered(), breakers.states, states, t, now, routeKey, algorithm, ups, ip);
    r := SelectPooled(breakers, balancer, t, now, routeKey, algorithm, ups, ip);
  }

  /** Primaries first, and backups only where those give nothing. */
  method SelectPooled(
    breakers: CircuitBreakers, balancer: LoadBalancer, t: Target, now: real, routeKey: string, algorithm: Algorithm,
    ups: seq<Upstream>, ip: Option<Ip>)
    returns (r: Option<Upstream>)
    modifies breakers, balancer
    ensures SameFrom(breakers.states, old(breakers.states), now)
    ensures r.Some? <==>
            (exists u :: u in ups && Eligible(old(breakers.states), t, now, u)) && (algorithm.IpHash? ==> ip.Some?)
    ensures r.Some? ==> r.value in ups && Eligible(old(breakers.states), t, now, r.value)
    ensures r.Some? && r.value.backup ==> forall u :: u in ups && Eligible(old(breakers.states), t, now, u) ==> u.backup
    ensures r == Pooled(balancer.hashes, old(balancer.Remembered()), old(breakers.states), t, now, routeKey, algorithm, ups, ip)
  {
    ghost var states, m := breakers.states, balancer.Remembered();
    r := SelectFrom(breakers, balancer, t, now, routeKey, algorithm, ups, ip, false);
    if r.None? {
      EligibleSame(breakers.states, states, t, now);
      EligibleOfSame(breakers.states, states, t, now, ups, true);
      r := SelectFrom(breakers, balancer, t, now, routeKey, algorithm, ups, ip, true);
    }
  }

  /** The choice among the eligible upstreams of one kind, by a balancer that has just cleared what it had to. */
  function ChoiceOf(
    h: Hashes, m: Memory, states: Breakers, t: Target, now: real, routeKey: string, algorithm: Algorithm, ups: seq<Upstream>,
    ip: Option<Ip>, backup: bool): Option<Upstream>
  {
    Choice(h, ClearedMemory(m), routeKey, algorithm, EligibleOf(states, t, now, ups, backup), ip)
  }

  function Pooled(
    h: Hashes, m: Memory, states: Breakers, t: Target, now: real, routeKey: string, algorithm: Algorithm, ups: seq<Upstream>,
    ip: Option<Ip>): Option<Upstream>
  {
    var primary := ChoiceOf(h, m, states, t, now, routeKey, algorithm, ups, ip, false);
    if primary.Some? then primary else ChoiceOf(h, m, states, t, now, routeKey, algorithm, ups, ip, true)
  }

  lemma PooledSame(
    h: Hashes, m: Memory, a: Breakers, b: Breakers, t: Target, now: real, routeKey: string, algorithm: Algorithm,
    ups: seq<Upstream>, ip: Option<Ip>)
    requires forall u :: Eligible(a, t, now, u) == Eligible(b, t, now, u)
    ensures Pooled(h, m, a, t, now, routeKey, algorithm, ups, ip) == Pooled(h, m, b, t, now, routeKey, algorithm, ups, ip)
  {
    EligibleOfSame(a, b, t, now, ups, false);
    EligibleOfSame(a, b, t, now, ups, true);
  }

  /** Selection among the eligible upstreams of one kind. */
  method SelectFrom(
    breakers: CircuitBreakers, balancer: LoadBalancer, t: Target, now: real, routeKey: string, algorithm: Algorithm,
    ups: seq<Upstream>, ip: Option<Ip>, backup: bool)
    returns (r: Option<Upstream>)
    modifies breakers, balancer
    ensures SameFrom(breakers.states, old(breakers.states), now)
    ensures r.Some? <==>
            && (exists u :: u in ups && u.backup == backup && Eligible(old(breakers.states), t, now, u))
            && (algorithm.IpHash? ==> ip.Some?)
    ensures r.Some? ==> r.value in ups && r.value.backup == backup && Eligible(old(breakers.states), t, now, r.value)
    ensures r == ChoiceOf(balancer.hashes, old(balancer.Remembered()), old(breakers.states), t, now, routeKey, algorithm,
                          ups, ip, backup)
    ensures r.None? ==> balancer.Remembered() == ClearedMemory(old(balancer.Remembered()))
  {
    ghost var states := breakers.states;
    var pool := FilterEligible(breakers, t, now, ups, backup);
    PoolChoices(states, t, now, ups, backup);
    r := Pick(balancer, routeKey, algorithm, pool, ip);
  }

  /** Selection from a pool that is healthy throughout. */
  method Pick(balancer: LoadBalancer, routeKey: string, algorithm: Algorithm, pool: seq<Upstream>, ip: Option<Ip>)
    returns (r: Option<Upstream>)
    requires Healthy(pool) == pool
    modifies balancer
    ensures r.Some? <==> pool != [] && (algorithm.IpHash? ==> ip.Some?)
    ensures r.Some? ==> r.value in pool
    ensures r == Choice(balancer.hashes, ClearedMemory(old(balancer.Remembered())), routeKey, algorithm, pool, ip)
    ensures r.None? ==> balancer.Remembered() == ClearedMemory(old(balancer.Remembered()))
  {
    r := balancer.Select(routeKey, algorithm, pool, ip);
  }

  /** What a filtered pool offers. */
  lemma PoolChoices(states: Breakers, t: Target, now: real, ups: seq<Upstream>, backup: bool)
    ensures var pool := EligibleOf(states, t, now, ups, backup);
            && Healthy(pool) == pool
            && (forall u :: u in pool <==> u in ups && u.backup == backup && Eligible(states, t, now, u))
            && (pool != [] <==> exists u :: u in ups && u.backup == backup && Eligible(states, t, now, u))
  {
    var pool := EligibleOf(states, t, now, ups, backup);
    EligibleOfMembers(states, t, now, ups, backup);
    AllHealthy(pool);
    if pool != [] {
      assert pool[0] in pool;
    }
  }

  /** The reason as the code computes it, breaker queries included. */
  method RouteUnavailableReason(breakers: CircuitBreakers, t: Target, now: real, ups: seq<Upstream>) returns (reason: Reason)
    modifies breakers
    ensures reason == WhyNot(old(breakers.states), t, now, ups)
  {
    if ups == [] {
      return RouteHasNoUpstreams;
    }
    var healthy := Healthy(ups);
    HealthyMembers(ups);
    if |healthy| == 0 {
      assert forall u :: u in ups ==> !u.healthy;
      return AllUpstreamsUnhealthy;
    }
    assert healthy[0] in healthy;
    var i := 0;
    while i < |healthy|
      invariant 0 <= i <= |healthy|
      invariant SameFrom(breakers.states, old(breakers.states), now)
      invariant forall k :: 0 <= k < i ==> OpenAt(old(breakers.states), BreakerKey(t, healthy[k]), now)
    {
      assert OpenAt(breakers.states, BreakerKey(t, healthy[i]), now) ==
             OpenAt(old(breakers.states), BreakerKey(t, healthy[i]), now);
      var open := breakers.IsOpen(BreakerKey(t, healthy[i]), now);
      if !open {
        assert healthy[i] in healthy && Eligible(old(breakers.states), t, now, healthy[i]);
        return AllUpstreamsUnhealthy;
      }
      i := i + 1;
    }
    return CircuitBreakerOpen;
  }

  ghost function WhyNot(states: Breakers, t: Target, now: real, ups: seq<Upstream>): Reason {
    if ups == [] then RouteHasNoUpstreams
    else if (exists u :: u in ups && u.healthy) && (forall u :: u in ups ==> !Eligible(states, t, now, u))
    then CircuitBreakerOpen
    else AllUpstreamsUnhealthy
  }

  /**
   * When a selection fails, the reason given is the true one: no upstream, none healthy, or all healthy
   * ones behind open breakers. It misleads exactly when hashing by an unknown address was the cause.
   */
  lemma ReasonIsTrueIff(
    states: Breakers, t: Target, now: real, ups: seq<Upstream>, algorithm: Algorithm, ip: Option<Ip>, sticky: Option<Upstream>)
    requires !Selectable(states, t, now, ups, algorithm, ip, sticky)
    ensures var reason := WhyNot(states, t, now, ups);
            && (reason.RouteHasNoUpstreams? <==> ups == [])
            && (reason.CircuitBreakerOpen? <==>
                  (exists u :: u in ups && u.healthy) &&
                  forall u :: u in ups && u.healthy ==> OpenAt(states, BreakerKey(t, u), now))
            && (reason.AllUpstreamsUnhealthy? && ups != [] ==>
                  ((forall u :: u in ups ==> !u.healthy) <==> !(exists u :: u in ups && Eligible(states, t, now, u))))
    ensures (exists u :: u in ups && Eligible(states, t, now, u)) ==>
              algorithm.IpHash? && ip.None? && WhyNot(states, t, now, ups).AllUpstreamsUnhealthy?
  {
    forall u | u in ups
      ensures Eligible(states, t, now, u) <==> u.healthy && !OpenAt(states, BreakerKey(t, u), now)
    {
    }
    if ups != [] {
      assert ups[0] in ups;
    }
  }

  /** Such a failure: one healthy primary, no breaker, hashing by address, and neither address nor cookie. */
  lemma ReasonMisleads(t: Target, now: real, u: Upstream)
    requires u.healthy && !u.backup
    ensures !Selectable(map[], t, now, [u], IpHash, None, None)
    ensures Eligible(map[], t, now, u) && WhyNot(map[], t, now, [u]) == AllUpstreamsUnhealthy
  {
    assert u in [u] && Eligible(map[], t, now, u);
  }
}
