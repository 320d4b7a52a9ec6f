// Health flags of upstreams inside the route table (edge/crates/core/src/lib.rs).
module Health {
  import opened Text
  import opened Merging
  import opened Routes
  import opened Registry

  datatype HealthUpdate = HealthUpdate(domain: string, prefix: Bytes, url: string, healthy: bool)

  /** An update that names no host or no upstream is skipped. */
  predicate Skipped(u: HealthUpdate) {
    NormalizeDomain(u.domain) == [] || TrimText(u.url) == []
  }

  function Mark(ups: seq<Upstream>, url: string, healthy: bool): (r: seq<Upstream>)
    ensures |r| == |ups|
  {
    seq(|ups|, i requires 0 <= i < |ups| => if ups[i].url == url then ups[i].(healthy := healthy) else ups[i])
  }

  function MarkPaths(paths: seq<PathRoute>, u: HealthUpdate): (r: seq<PathRoute>)
    ensures |r| == |paths|
  {
    seq(|paths|, i requires 0 <= i < |paths| =>
      if paths[i].prefix == u.prefix then paths[i].(upstreams := Mark(paths[i].upstreams, u.url, u.healthy))
      else paths[i])
  }

  function MarkPools(pools: seq<Pool>, url: string, healthy: bool): (r: seq<Pool>)
    ensures |r| == |pools|
  {
    seq(|pools|, i requires 0 <= i < |pools| => pools[i].(upstreams := Mark(pools[i].upstreams, url, healthy)))
  }

  function MarkRoute(r: Route, u: HealthUpdate): Route {
    if r.domain != NormalizeDomain(u.domain) then r
    else r.(paths := MarkPaths(r.paths, u),
            rules := r.rules.(trafficSplits := MarkPools(r.rules.trafficSplits, u.url, u.healthy),
                              locationRoutes := MarkPools(r.rules.locationRoutes, u.url, u.healthy)))
  }

  /** One update over the whole flat list. */
  function MarkRoutes(routes: seq<Route>, u: HealthUpdate): (r: seq<Route>)
    ensures |r| == |routes|
  {
    if Skipped(u) then routes
    else seq(|routes|, i requires 0 <= i < |routes| => MarkRoute(routes[i], u))
  }

  function MarkAll(routes: seq<Route>, us: seq<HealthUpdate>): (r: seq<Route>)
    ensures |r| == |routes|
    decreases us
  {
    if us == [] then routes else MarkAll(MarkRoutes(routes, us[0]), us[1..])
  }

  // ----- The loops -----

  /** A loop that rewrites `start` into `goal` in place, front to back, is done up to `i`. */
  ghost predicate DoneTo<T>(r: seq<T>, goal: seq<T>, start: seq<T>, i: nat) {
    && |r| == |goal| == |start| && i <= |r|
    && (forall k :: 0 <= k < i ==> r[k] == goal[k])
    && (forall k :: i <= k < |r| ==> r[k] == start[k])
  }

  method MarkUpstreams(ups: seq<Upstream>, url: string, healthy: bool) returns (r: seq<Upstream>)
    ensures r == Mark(ups, url, healthy)
  {
    r := ups;
    for i := 0 to |ups|
      invariant DoneTo(r, Mark(ups, url, healthy), ups, i)
    {
      if r[i].url == url {
        r := r[i := r[i].(healthy := healthy)];
      }
    }
  }

  method MarkPoolUpstreams(pools: seq<Pool>, url: string, healthy: bool) returns (r: seq<Pool>)
    ensures r == MarkPools(pools, url, healthy)
  {
    r := pools;
    for i := 0 to |pools|
      invariant DoneTo(r, MarkPools(pools, url, healthy), pools, i)
    {
      var ups := MarkUpstreams(r[i].upstreams, url, healthy);
      r := r[i := r[i].(upstreams := ups)];
    }
  }

  method MarkPathUpstreams(paths: seq<PathRoute>, u: HealthUpdate) returns (r: seq<PathRoute>)
    ensures r == MarkPaths(paths, u)
  {
    r := paths;
    for i := 0 to |paths|
      invariant DoneTo(r, MarkPaths(paths, u), paths, i)
    {
      if r[i].prefix == u.prefix {
        var ups := MarkUpstreams(r[i].upstreams, u.url, u.healthy);
        r := r[i := r[i].(upstreams := ups)];
      }
    }
  }

  /** The route loop shared by the single and the batch update. */
  method ApplyUpdate(routes: seq<Route>, u: HealthUpdate) returns (r: seq<Route>)
    requires !Skipped(u)
    ensures r == MarkRoutes(routes, u)
  {
    r := routes;
    for i := 0 to |routes|
      invariant DoneTo(r, MarkRoutes(routes, u), routes, i)
    {
      if r[i].domain == NormalizeDomain(u.domain) {
        var paths := MarkPathUpstreams(r[i].paths, u);
        var splits := MarkPoolUpstreams(r[i].rules.trafficSplits, u.url, u.healthy);
        var locations := MarkPoolUpstreams(r[i].rules.locationRoutes, u.url, u.healthy);
        var rules := r[i].rules.(trafficSplits := splits, locationRoutes := locations);
        r := r[i := r[i].(paths := paths, rules := rules)];
      }
    }
  }

  method ApplyUpdates(routes: seq<Route>, us: seq<HealthUpdate>) returns (r: seq<Route>)
    ensures r == MarkAll(routes, us)
  {
    r := routes;
    for i := 0 to |us|
      invariant MarkAll(routes, us) == MarkAll(r, us[i..])
    {
      assert us[i..][1..] == us[i + 1..];
      if NormalizeDomain(us[i].domain) == [] || TrimText(us[i].url) == [] {
        continue;
      }
      r := ApplyUpdate(r, us[i]);
    }
  }

  // ----- Health by URL alone, over every route -----

  function Relabel(ups: seq<Upstream>, health: map<string, bool>): (r: seq<Upstream>)
    ensures |r| == |ups|
  {
    seq(|ups|, i requires 0 <= i < |ups| =>
      if ups[i].url in health then ups[i].(healthy := health[ups[i].url]) else ups[i])
  }

  function RelabelPaths(paths: seq<PathRoute>, health: map<string, bool>): (r: seq<PathRoute>)
    ensures |r| == |paths|
  {
    seq(|paths|, i requires 0 <= i < |paths| => paths[i].(upstreams := Relabel(paths[i].upstreams, health)))
  }

  function RelabelPools(pools: seq<Pool>, health: map<string, bool>): (r: seq<Pool>)
    ensures |r| == |pools|
  {
    seq(|pools|, i requires 0 <= i < |pools| => pools[i].(upstreams := Relabel(pools[i].upstreams, health)))
  }

  function RelabelRoutes(routes: seq<Route>, health: map<string, bool>): (r: seq<Route>)
    ensures |r| == |routes|
    ensures forall i :: 0 <= i < |routes| ==> Key(r[i]) == Key(routes[i])
  {
    seq(|routes|, i requires 0 <= i < |routes| =>
      var rules := routes[i].rules;
      routes[i].(paths := RelabelPaths(routes[i].paths, health),
                 rules := rules.(trafficSplits := RelabelPools(rules.trafficSplits, health),
                                 locationRoutes := RelabelPools(rules.locationRoutes, health))))
  }

  method RelabelUpstreams(ups: seq<Upstream>, health: map<string, bool>) returns (r: seq<Upstream>)
    ensures r == Relabel(ups, health)
  {
    r := ups;
    for i := 0 to |ups|
      invariant DoneTo(r, Relabel(ups, health), ups, i)
    {
      if r[i].url in health {
        r := r[i := r[i].(healthy := health[r[i].url])];
      }
    }
  }

  method RelabelPoolUpstreams(pools: seq<Pool>, health: map<string, bool>) returns (r: seq<Pool>)
    ensures r == RelabelPools(pools, health)
  {
    r := pools;
    for i := 0 to |pools|
      invariant DoneTo(r, RelabelPools(pools, health), pools, i)
    {
      var ups := RelabelUpstreams(r[i].upstreams, health);
      r := r[i := r[i].(upstreams := ups)];
    }
  }

  method RelabelPathUpstreams(paths: seq<PathRoute>, health: map<string, bool>) returns (r: seq<PathRoute>)
    ensures r == RelabelPaths(paths, health)
  {
    r := paths;
    for i := 0 to |paths|
      invariant DoneTo(r, RelabelPaths(paths, health), paths, i)
    {
      var ups := RelabelUpstreams(r[i].upstreams, health);
      r := r[i := r[i].(upstreams := ups)];
    }
  }

  method ApplyHealth(routes: seq<Route>, health: map<string, bool>) returns (r: seq<Route>)
    ensures r == RelabelRoutes(routes, health)
  {
    r := routes;
    for i := 0 to |routes|
      invariant DoneTo(r, RelabelRoutes(routes, health), routes, i)
    {
      var paths := RelabelPathUpstreams(r[i].paths, health);
      var splits := RelabelPoolUpstreams(r[i].rules.trafficSplits, health);
      var locations := RelabelPoolUpstreams(r[i].rules.locationRoutes, health);
      var rules := r[i].rules.(trafficSplits := splits, locationRoutes := locations);
      r := r[i := r[i].(paths := paths, rules := rules)];
    }
  }

  // ----- Health is invisible to deduplication -----

  lemma MarkKeepsKeys(routes: seq<Route>, u: HealthUpdate)
    ensures forall i :: 0 <= i < |routes| ==> Key(MarkRoutes(routes, u)[i]) == Key(routes[i])
  {
  }

  /** The single update, as the registry performs it: mark, then rebuild the table. */
  function SetRouteHealth(routes: seq<Route>, u: HealthUpdate): seq<Route> {
    if Skipped(u) then routes else Dedupe(MarkRoutes(routes, u))
  }

  function SetRouteHealthEach(routes: seq<Route>, us: seq<HealthUpdate>): seq<Route>
    decreases us
  {
    if us == [] then routes else SetRouteHealthEach(SetRouteHealth(routes, us[0]), us[1..])
  }

  /** The batch update: mark for all, then rebuild once. */
  function SetRouteHealthMany(routes: seq<Route>, us: seq<HealthUpdate>): seq<Route> {
    if us == [] then routes else Dedupe(MarkAll(routes, us))
  }

  lemma SetRouteHealthIsMark(routes: seq<Route>, u: HealthUpdate)
    requires KeysDistinct(routes)
    ensures SetRouteHealth(routes, u) == MarkRoutes(routes, u)
    ensures KeysDistinct(MarkRoutes(routes, u))
  {
    MarkKeepsKeys(routes, u);
    KeysCarryOver(routes, MarkRoutes(routes, u));
    LatestDistinct(Key, MarkRoutes(routes, u));
  }

  lemma KeysCarryOver(a: seq<Route>, b: seq<Route>)
    requires |a| == |b| && KeysDistinct(a)
    requires forall i :: 0 <= i < |a| ==> Key(b[i]) == Key(a[i])
    ensures KeysDistinct(b)
  {
    forall i, j | 0 <= i < j < |b|
      ensures Key(b[i]) != Key(b[j])
    {
      assert Key(a[i]) != Key(a[j]);
    }
  }

  lemma {:induction false} EachIsMarkAll(routes: seq<Route>, us: seq<HealthUpdate>)
    requires KeysDistinct(routes)
    ensures SetRouteHealthEach(routes, us) == MarkAll(routes, us)
    ensures KeysDistinct(MarkAll(routes, us))
    decreases us
  {
    if us != [] {
      SetRouteHealthIsMark(routes, us[0]);
      EachIsMarkAll(MarkRoutes(routes, us[0]), us[1..]);
    }
  }

  /** One batch leaves the table as the same updates one at a time would. */
  lemma BatchIsOneAtATime(routes: seq<Route>, us: seq<HealthUpdate>)
    requires KeysDistinct(routes)
    ensures SetRouteHealthMany(routes, us) == SetRouteHealthEach(routes, us)
    ensures KeysDistinct(SetRouteHealthMany(routes, us))
  {
    EachIsMarkAll(routes, us);
    LatestDistinct(Key, MarkAll(routes, us));
  }

  /** Every upstream of the list is as before but for its flag, which is the one told for its URL, if any was. */
  predicate Told(before: seq<Upstream>, after: seq<Upstream>, health: map<string, bool>) {
    && |after| == |before|
    && forall k :: 0 <= k < |before| ==>
         after[k] == before[k].(healthy := if before[k].url in health then health[before[k].url] else before[k].healthy)
  }

  predicate PathsTold(before: seq<PathRoute>, after: seq<PathRoute>, health: map<string, bool>) {
    && |after| == |before|
    && forall k :: 0 <= k < |before| ==>
         && Told(before[k].upstreams, after[k].upstreams, health)
         && after[k].(upstreams := before[k].upstreams) == before[k]
  }

  predicate PoolsTold(before: seq<Pool>, after: seq<Pool>, health: map<string, bool>) {
    && |after| == |before|
    && forall k :: 0 <= k < |before| ==>
         && Told(before[k].upstreams, after[k].upstreams, health)
         && after[k].(upstreams := before[k].upstreams) == before[k]
  }

  /** The health map reaches every upstream of every path, traffic split and location, and nothing else of a route. */
  lemma RelabelMeans(routes: seq<Route>, health: map<string, bool>, i: nat)
    requires i < |routes|
    ensures var before, after := routes[i], RelabelRoutes(routes, health)[i];
            && PathsTold(before.paths, after.paths, health)
            && PoolsTold(before.rules.trafficSplits, after.rules.trafficSplits, health)
            && PoolsTold(before.rules.locationRoutes, after.rules.locationRoutes, health)
            && after.(paths := before.paths,
                      rules := after.rules.(trafficSplits := before.rules.trafficSplits,
                                            locationRoutes := before.rules.locationRoutes)) == before
  {
  }

  // ----- What a batch leaves behind -----

  /** The value of the last update in `us` that hits, else `old`. */
  function LastHit(us: seq<HealthUpdate>, domain: string, prefix: Option<Bytes>, url: string, was: bool): bool {
    if us == [] then was
    else
      var u := us[|us| - 1];
      if Hits(u, domain, prefix, url) then u.healthy
      else LastHit(us[..|us| - 1], domain, prefix, url, was)
  }

  /** Does an update concern an upstream of this host, URL and (for a path's upstream) prefix? */
  predicate Hits(u: HealthUpdate, domain: string, prefix: Option<Bytes>, url: string) {
    && !Skipped(u) && NormalizeDomain(u.domain) == domain && u.url == url
    && (prefix.Some? ==> u.prefix == prefix.value)
  }

  /** The reference result on a list of upstreams: only `healthy` differs, and it is the last hit's. */
  function Settled(ups: seq<Upstream>, us: seq<HealthUpdate>, domain: string, prefix: Option<Bytes>): (r: seq<Upstream>)
    ensures |r| == |ups|
  {
    seq(|ups|, i requires 0 <= i < |ups| =>
      ups[i].(healthy := LastHit(us, domain, prefix, ups[i].url, ups[i].healthy)))
  }

  function SettledPaths(paths: seq<PathRoute>, us: seq<HealthUpdate>, domain: string): seq<PathRoute> {
    seq(|paths|, i requires 0 <= i < |paths| =>
      paths[i].(upstreams := Settled(paths[i].upstreams, us, domain, Some(paths[i].prefix))))
  }

  function SettledPools(pools: seq<Pool>, us: seq<HealthUpdate>, domain: string): seq<Pool> {
    seq(|pools|, i requires 0 <= i < |pools| =>
      pools[i].(upstreams := Settled(pools[i].upstreams, us, domain, None)))
  }

  function SettledRoute(r: Route, us: seq<HealthUpdate>): Route {
    r.(paths := SettledPaths(r.paths, us, r.domain),
       rules := r.rules.(trafficSplits := SettledPools(r.rules.trafficSplits, us, r.domain),
                         locationRoutes := SettledPools(r.rules.locationRoutes, us, r.domain)))
  }

  lemma {:induction false} MarkAllSnoc(routes: seq<Route>, us: seq<HealthUpdate>, u: HealthUpdate)
    ensures MarkAll(routes, us + [u]) == MarkRoutes(MarkAll(routes, us), u)
    decreases us
  {
    if us == [] {
      assert [u][1..] == [];
      assert us + [u] == [u];
    } else {
      assert (us + [u])[1..] == us[1..] + [u];
      MarkAllSnoc(MarkRoutes(routes, us[0]), us[1..], u);
    }
  }

  lemma MarkSettled(ups: seq<Upstream>, us: seq<HealthUpdate>, u: HealthUpdate, domain: string, prefix: Option<Bytes>)
    ensures Settled(ups, us + [u], domain, prefix) ==
            var before := Settled(ups, us, domain, prefix);
            if !Skipped(u) && NormalizeDomain(u.domain) == domain && (prefix.Some? ==> u.prefix == prefix.value)
            then Mark(before, u.url, u.healthy) else before
  {
    assert (us + [u])[..|us|] == us;
  }

  lemma MarkSettledRoute(r: Route, us: seq<HealthUpdate>, u: HealthUpdate)
    ensures SettledRoute(r, us + [u]) ==
            if Skipped(u) then SettledRoute(r, us) else MarkRoute(SettledRoute(r, us), u)
  {
    forall i | 0 <= i < |r.paths|
      ensures SettledPaths(r.paths, us + [u], r.domain)[i] ==
              if Skipped(u) || NormalizeDomain(u.domain) != r.domain then SettledPaths(r.paths, us, r.domain)[i]
              else MarkPaths(SettledPaths(r.paths, us, r.domain), u)[i]
    {
      MarkSettled(r.paths[i].upstreams, us, u, r.domain, Some(r.paths[i].prefix));
    }
    MarkSettledPools(r.rules.trafficSplits, us, u, r.domain);
    MarkSettledPools(r.rules.locationRoutes, us, u, r.domain);
  }

  lemma MarkSettledPools(pools: seq<Pool>, us: seq<HealthUpdate>, u: HealthUpdate, domain: string)
    ensures SettledPools(pools, us + [u], domain) ==
            if Skipped(u) || NormalizeDomain(u.domain) != domain then SettledPools(pools, us, domain)
            else MarkPools(SettledPools(pools, us, domain), u.url, u.healthy)
  {
    forall i | 0 <= i < |pools|
      ensures SettledPools(pools, us + [u], domain)[i] ==
              if Skipped(u) || NormalizeDomain(u.domain) != domain then SettledPools(pools, us, domain)[i]
              else MarkPools(SettledPools(pools, us, domain), u.url, u.healthy)[i]
    {
      MarkSettled(pools[i].upstreams, us, u, domain, None);
    }
  }

  /** After a batch every route differs only in health flags, and each flag is the last update's that hits it. */
  lemma BatchSettles(routes: seq<Route>, us: seq<HealthUpdate>)
    requires KeysDistinct(routes)
    ensures var left := SetRouteHealthMany(routes, us);
            |left| == |routes| && forall i :: 0 <= i < |routes| ==> left[i] == SettledRoute(routes[i], us)
  {
    MarksSettle(routes, us);
    EachIsMarkAll(routes, us);
    BatchIsOneAtATime(routes, us);
  }

  lemma {:induction false} MarksSettle(routes: seq<Route>, us: seq<HealthUpdate>)
    ensures forall i :: 0 <= i < |routes| ==> MarkAll(routes, us)[i] == SettledRoute(routes[i], us)
    decreases |us|
  {
    if us == [] {
      forall i | 0 <= i < |routes|
        ensures routes[i] == SettledRoute(routes[i], us)
      {
        SettledByNothing(routes[i]);
      }
    } else {
      var init, u := us[..|us| - 1], us[|us| - 1];
      assert us == init + [u];
      MarksSettle(routes, init);
      MarkAllSnoc(routes, init, u);
      forall i | 0 <= i < |routes|
        ensures MarkAll(routes, us)[i] == SettledRoute(routes[i], us)
      {
        MarkSettledRoute(routes[i], init, u);
      }
    }
  }

  lemma SettledByNothing(r: Route)
    ensures SettledRoute(r, []) == r
  {
    assert SettledPaths(r.paths, [], r.domain) == r.paths by {
      forall i | 0 <= i < |r.paths|
        ensures SettledPaths(r.paths, [], r.domain)[i] == r.paths[i]
      {
        assert Settled(r.paths[i].upstreams, [], r.domain, Some(r.paths[i].prefix)) == r.paths[i].upstreams;
      }
    }
    PoolsSettledByNothing(r.rules.trafficSplits, r.domain);
    PoolsSettledByNothing(r.rules.locationRoutes, r.domain);
  }

  lemma PoolsSettledByNothing(pools: seq<Pool>, domain: string)
    ensures SettledPools(pools, [], domain) == pools
  {
    forall i | 0 <= i < |pools|
      ensures SettledPools(pools, [], domain)[i] == pools[i]
    {
      assert Settled(pools[i].upstreams, [], domain, None) == pools[i].upstreams;
    }
  }

  // ----- Updates that name nothing -----

  /** An update leaves every table alone exactly when it names no host or no upstream. */
  lemma SkippedIff(u: HealthUpdate)
    ensures (forall routes: seq<Route> :: MarkRoutes(routes, u) == routes) <==>
            NormalizeDomain(u.domain) == [] || TrimText(u.url) == []
  {
    if NormalizeDomain(u.domain) != [] && TrimText(u.url) != [] {
      var up := Upstream(u.url, 1, !u.healthy, false, 0);
      var path := PathRoute(u.prefix, [up], []);
      var route := Route("", NormalizeDomain(u.domain), [path], false, RoundRobin, Rules(false, [], [], 0), Static, 0, 0, 0);
      var after := MarkRoutes([route], u);
      assert after[0] == MarkRoute(route, u);
      assert after[0].paths[0].upstreams[0].healthy == u.healthy;
    }
  }
}
