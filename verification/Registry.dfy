// The indexed route table: deduplication, the domain index and lookups (edge/crates/core/src/lib.rs).
module Registry {
  import opened Text
  import opened Prefixes
  import opened Merging
  import opened Routes

  // ----- Deduplication -----

  function SourceName(source: RouteSource): string {
    match source
    case Static => "Static"
    case Docker => "Docker"
    case Podman => "Podman"
    case Api => "Api"
  }

  function Key(route: Route): string {
    if route.source.Api? then "api:" + route.domain
    else SourceName(route.source) + ":" + route.domain + ":" + route.id
  }

  /** The last route of every key, at the place of the key's first route. */
  function Dedupe(routes: seq<Route>): seq<Route> {
    Latest(Key, routes)
  }

  ghost predicate KeysDistinct(routes: seq<Route>) {
    DistinctKeys(Key, routes)
  }

  method DedupeRoutes(routes: seq<Route>) returns (merged: seq<Route>)
    ensures merged == Dedupe(routes) && KeysDistinct(merged)
  {
    merged := DedupeBy(Key, routes);
  }

  /** What the key is meant to identify. */
  predicate SameIdentity(a: Route, b: Route) {
    a.source == b.source && a.domain == b.domain && (a.source.Api? || a.id == b.id)
  }

  lemma KeySource(a: Route, b: Route)
    requires Key(a) == Key(b)
    ensures a.source == b.source
    ensures a.source.Api? ==> a.domain == b.domain
    ensures !a.source.Api? ==> a.domain + ":" + a.id == b.domain + ":" + b.id
  {
    assert Key(a)[0] == Key(b)[0];
    if a.source.Api? {
      assert a.domain == Key(a)[4..] && b.domain == Key(b)[4..];
    } else {
      assert Key(a)[7..] == a.domain + ":" + a.id;
      assert Key(b)[7..] == b.domain + ":" + b.id;
    }
  }

  /** Over domains without a colon the key identifies exactly what it is meant to. */
  lemma KeyIdentifies(a: Route, b: Route)
    requires ':' !in a.domain && ':' !in b.domain
    ensures Key(a) == Key(b) <==> SameIdentity(a, b)
  {
    if Key(a) == Key(b) {
      KeySource(a, b);
      if !a.source.Api? {
        ColonSplitUnique(a.domain, a.id, b.domain, b.id);
      }
    }
  }

  /** Exactly when some different route shares a container or static route's key: a colon in its name. */
  lemma KeyAmbiguousIff(a: Route)
    requires !a.source.Api?
    ensures (exists b: Route :: Key(b) == Key(a) && !SameIdentity(a, b)) <==> ':' in a.domain || ':' in a.id
  {
    if ':' in a.domain {
      var i :| 0 <= i < |a.domain| && a.domain[i] == ':';
      var b := a.(domain := a.domain[..i], id := a.domain[i + 1..] + ":" + a.id);
      CutDomain(a.domain, i, a.id);
      KeyShared(a, b);
    } else if ':' in a.id {
      var i :| 0 <= i < |a.id| && a.id[i] == ':';
      var b := a.(domain := a.domain + ":" + a.id[..i], id := a.id[i + 1..]);
      CutId(a.domain, a.id, i);
      KeyShared(a, b);
    } else {
      forall b: Route | Key(b) == Key(a)
        ensures SameIdentity(a, b)
      {
        KeySource(a, b);
        SingleColon(a.domain, a.id, b.domain, b.id);
      }
    }
  }

  lemma CutDomain(domain: string, i: nat, id: string)
    requires i < |domain| && domain[i] == ':'
    ensures domain + ":" + id == domain[..i] + ":" + (domain[i + 1..] + ":" + id)
  {
    assert domain == domain[..i] + ":" + domain[i + 1..];
  }

  lemma CutId(domain: string, id: string, i: nat)
    requires i < |id| && id[i] == ':'
    ensures domain + ":" + id == domain + ":" + id[..i] + ":" + id[i + 1..]
  {
    assert id == id[..i] + ":" + id[i + 1..];
  }

  lemma KeyShared(a: Route, b: Route)
    requires !a.source.Api? && a.source == b.source && |a.domain| != |b.domain|
    requires a.domain + ":" + a.id == b.domain + ":" + b.id
    ensures Key(b) == Key(a) && !SameIdentity(a, b)
  {
    assert Key(a) == SourceName(a.source) + ":" + (a.domain + ":" + a.id);
    assert Key(b) == SourceName(b.source) + ":" + (b.domain + ":" + b.id);
  }

  lemma SingleColon(a: string, x: string, b: string, y: string)
    requires ':' !in a && ':' !in x && a + ":" + x == b + ":" + y
    ensures a == b && x == y
  {
    var s := a + ":" + x;
    assert forall k :: 0 <= k < |s| && k != |a| ==> s[k] != ':';
    assert s[|b|] == ':';
    assert a == s[..|a|] && b == s[..|b|];
    assert x == s[|a| + 1..] && y == s[|b| + 1..];
  }

  // ----- The domain index -----

  datatype RouteTable = RouteTable(routes: seq<Route>, byDomain: map<string, seq<Route>>)

  function OfDomain(routes: seq<Route>, domain: string): seq<Route> {
    if routes == [] then []
    else
      var init, last := routes[..|routes| - 1], routes[|routes| - 1];
      OfDomain(init, domain) + if last.domain == domain then [last] else []
  }

  /** `by_domain.get(domain).into_iter().flatten()` */
  function Bucket(byDomain: map<string, seq<Route>>, domain: string): seq<Route> {
    if domain in byDomain then byDomain[domain] else []
  }

  ghost predicate Indexed(table: RouteTable) {
    forall d: string :: Bucket(table.byDomain, d) == OfDomain(table.routes, d)
  }

  lemma IndexStep(byDomain: map<string, seq<Route>>, routes: seq<Route>, route: Route)
    requires forall d: string :: Bucket(byDomain, d) == OfDomain(routes, d)
    ensures var next := byDomain[route.domain := Bucket(byDomain, route.domain) + [route]];
            forall d: string :: Bucket(next, d) == OfDomain(routes + [route], d)
  {
    assert (routes + [route])[..|routes|] == routes;
    assert forall d: string :: OfDomain(routes + [route], d) ==
                               OfDomain(routes, d) + if route.domain == d then [route] else [];
  }

  method BuildIndex(routes: seq<Route>) returns (byDomain: map<string, seq<Route>>)
    ensures forall d: string :: Bucket(byDomain, d) == OfDomain(routes, d)
  {
    byDomain := map[];
    for i := 0 to |routes|
      invariant forall d: string :: Bucket(byDomain, d) == OfDomain(routes[..i], d)
    {
      var route := routes[i];
      IndexStep(byDomain, routes[..i], route);
      assert routes[..i] + [route] == routes[..i + 1];
      byDomain := byDomain[route.domain := Bucket(byDomain, route.domain) + [route]];
    }
    assert routes[..|routes|] == routes;
  }

  method NewTable(routes: seq<Route>) returns (table: RouteTable)
    ensures table.routes == Dedupe(routes) && KeysDistinct(table.routes) && Indexed(table)
  {
    var kept := DedupeRoutes(routes);
    var byDomain := BuildIndex(kept);
    table := RouteTable(kept, byDomain);
  }

  // ----- Lookup of a host and path -----

  /** The filter and map of `matching_routes` over one bucket. */
  function Candidates(bucket: seq<Route>, path: Bytes, alias: bool): seq<RouteMatch> {
    if bucket == [] then []
    else
      var init, last := bucket[..|bucket| - 1], bucket[|bucket| - 1];
      var best := BestPath(last.paths, path);
      Candidates(init, path, alias) +
      if (alias ==> AllowsWwwAlias(last)) && best.Some? then [RouteMatch(last, best.value)] else []
  }

  function MatchingRoutes(table: RouteTable, domain: string, path: Bytes, alias: bool): seq<RouteMatch> {
    Candidates(Bucket(table.byDomain, domain), path, alias)
  }

  function LongestPrefix(ms: seq<RouteMatch>): (n: nat)
    requires ms != []
    ensures forall k :: 0 <= k < |ms| ==> |ms[k].path.prefix| <= n
    ensures exists k :: 0 <= k < |ms| && |ms[k].path.prefix| == n
  {
    var here := |ms[0].path.prefix|;
    if |ms| == 1 then here
    else
      var rest := LongestPrefix(ms[1..]);
      assert exists k :: 0 <= k < |ms[1..]| && |ms[1..][k].path.prefix| == rest && ms[1..][k] == ms[k + 1];
      if here > rest then here else rest
  }

  function HighestPriority(ms: seq<RouteMatch>, length: nat): (n: nat)
    ensures forall k :: 0 <= k < |ms| && |ms[k].path.prefix| == length ==> SourcePriority(ms[k].route.source) <= n
    ensures n == 0 || exists k :: 0 <= k < |ms| && |ms[k].path.prefix| == length && SourcePriority(ms[k].route.source) == n
  {
    if ms == [] then 0
    else
      var rest := HighestPriority(ms[1..], length);
      assert rest == 0 ||
             exists k :: 0 <= k < |ms[1..]| && ms[1..][k] == ms[k + 1] &&
                         |ms[1..][k].path.prefix| == length && SourcePriority(ms[1..][k].route.source) == rest;
      var here := SourcePriority(ms[0].route.source);
      if |ms[0].path.prefix| == length && here > rest then here else rest
  }

  function Select(ms: seq<RouteMatch>, length: nat, priority: nat): seq<RouteMatch> {
    if ms == [] then []
    else
      var init, last := ms[..|ms| - 1], ms[|ms| - 1];
      Select(init, length, priority) +
      if |last.path.prefix| == length && SourcePriority(last.route.source) == priority then [last] else []
  }

  function UrlOf(u: Upstream): string { u.url }

  function NameOf(name: string): string { name }

  function AllUpstreams(ms: seq<RouteMatch>): seq<Upstream> {
    if ms == [] then [] else AllUpstreams(ms[..|ms| - 1]) + ms[|ms| - 1].path.upstreams
  }

  function AllMiddlewares(ms: seq<RouteMatch>): seq<string> {
    if ms == [] then [] else AllMiddlewares(ms[..|ms| - 1]) + ms[|ms| - 1].path.middlewares
  }

  /** `merge_best_route_matches` on a list that is not empty, its loop included. */
  method MergeBestRouteMatches(ms: seq<RouteMatch>) returns (r: Option<RouteMatch>)
    ensures ms != [] ==> Winners(ms, ms) != []
    ensures r == if ms == [] then None else Some(MergeWinners(Winners(ms, ms)))
  {
    if ms == [] {
      return None;
    }
    var length := LongestPrefix(ms);
    var priority := HighestPriority(ms, length);
    var selected := Select(ms, length, priority);
    SelectIsWinners(ms);
    var first := selected[0];
    var path := first.path;
    var rest := selected[1..];
    for i := 0 to |rest|
      invariant path.prefix == first.path.prefix
      invariant path.upstreams == Extend(UrlOf, first.path.upstreams, AllUpstreams(rest[..i]))
      invariant path.middlewares == Extend(NameOf, first.path.middlewares, AllMiddlewares(rest[..i]))
    {
      ExtendAppend(UrlOf, first.path.upstreams, AllUpstreams(rest[..i]), rest[i].path.upstreams);
      ExtendAppend(NameOf, first.path.middlewares, AllMiddlewares(rest[..i]), rest[i].path.middlewares);
      var upstreams := ExtendUnique(UrlOf, path.upstreams, rest[i].path.upstreams);
      var middlewares := ExtendUnique(NameOf, path.middlewares, rest[i].path.middlewares);
      path := path.(upstreams := upstreams, middlewares := middlewares);
      assert rest[..i + 1][..i] == rest[..i];
    }
    assert rest[..|rest|] == rest;
    ExtendIsFresh(UrlOf, first.path.upstreams, AllUpstreams(rest));
    ExtendIsFresh(NameOf, first.path.middlewares, AllMiddlewares(rest));
    r := Some(RouteMatch(first.route.(paths := [path]), path));
  }

  // ----- The reference: a plain scan of the flat list -----

  predicate Eligible(route: Route, domain: string, path: Bytes, alias: bool) {
    && route.domain == domain
    && (alias ==> AllowsWwwAlias(route))
    && exists k :: 0 <= k < |route.paths| && Matches(route.paths[k].prefix, path)
  }

  function ScanCandidates(routes: seq<Route>, domain: string, path: Bytes, alias: bool): seq<RouteMatch> {
    if routes == [] then []
    else
      var init, last := routes[..|routes| - 1], routes[|routes| - 1];
      ScanCandidates(init, domain, path, alias) +
      if Eligible(last, domain, path, alias) then [RouteMatch(last, BestPath(last.paths, path).value)] else []
  }

  /** `a` is preferred to `b`: a longer prefix, or an equally long one from a stronger source. */
  predicate Beats(a: RouteMatch, b: RouteMatch) {
    || |a.path.prefix| > |b.path.prefix|
    || (|a.path.prefix| == |b.path.prefix| && SourcePriority(a.route.source) > SourcePriority(b.route.source))
  }

  predicate Unbeaten(all: seq<RouteMatch>, m: RouteMatch) {
    forall k :: 0 <= k < |all| ==> !Beats(all[k], m)
  }

  /** The members of `ms` that nothing in `all` beats. */
  function Winners(all: seq<RouteMatch>, ms: seq<RouteMatch>): seq<RouteMatch> {
    if ms == [] then []
    else
      var init, last := ms[..|ms| - 1], ms[|ms| - 1];
      Winners(all, init) + if Unbeaten(all, last) then [last] else []
  }

  /** The first winner, with what the others add. */
  function MergeWinners(winners: seq<RouteMatch>): RouteMatch
    requires winners != []
  {
    var first, rest := winners[0].path, winners[1..];
    var path := first.(
      upstreams := first.upstreams + Fresh(UrlOf, first.upstreams, AllUpstreams(rest)),
      middlewares := first.middlewares + Fresh(NameOf, first.middlewares, AllMiddlewares(rest)));
    RouteMatch(winners[0].route.(paths := [path]), path)
  }

  /** Exact-domain candidates; those of the www alias only when there are none. */
  function ScanPool(routes: seq<Route>, host: string, path: Bytes): seq<RouteMatch> {
    var exact := ScanCandidates(routes, host, path, false);
    if exact != [] then exact
    else
      match WwwAliasBase(host)
      case None => []
      case Some(base) => ScanCandidates(routes, base, path, true)
  }

  function ScanFind(routes: seq<Route>, host: string, path: Bytes): Option<RouteMatch> {
    var h := NormalizeDomain(host);
    var pool := ScanPool(routes, h, path);
    if h == [] || pool == [] then None
    else WinnersExist(pool); Some(MergeWinners(Winners(pool, pool)))
  }

  lemma {:induction false} CandidatesAreScanned(routes: seq<Route>, domain: string, path: Bytes, alias: bool)
    ensures Candidates(OfDomain(routes, domain), path, alias) == ScanCandidates(routes, domain, path, alias)
  {
    if routes != [] {
      var init, last := routes[..|routes| - 1], routes[|routes| - 1];
      CandidatesAreScanned(init, domain, path, alias);
      if last.domain == domain {
        assert OfDomain(routes, domain) == OfDomain(init, domain) + [last];
        assert OfDomain(routes, domain)[..|OfDomain(init, domain)|] == OfDomain(init, domain);
      } else {
        assert OfDomain(routes, domain) == OfDomain(init, domain);
      }
    }
  }

  lemma {:induction false} SelectPointwise(all: seq<RouteMatch>, ms: seq<RouteMatch>, length: nat, priority: nat)
    requires forall k :: 0 <= k < |ms| ==>
               (Unbeaten(all, ms[k]) <==>
                |ms[k].path.prefix| == length && SourcePriority(ms[k].route.source) == priority)
    ensures Select(ms, length, priority) == Winners(all, ms)
  {
    if ms != [] {
      SelectPointwise(all, ms[..|ms| - 1], length, priority);
      assert Unbeaten(all, ms[|ms| - 1]) <==>
             |ms[|ms| - 1].path.prefix| == length && SourcePriority(ms[|ms| - 1].route.source) == priority;
    }
  }

  /** Two maxima and a filter select exactly the unbeaten candidates, of which there is one. */
  lemma SelectIsWinners(ms: seq<RouteMatch>)
    requires ms != []
    ensures Select(ms, LongestPrefix(ms), HighestPriority(ms, LongestPrefix(ms))) == Winners(ms, ms)
    ensures Winners(ms, ms) != []
  {
    var length := LongestPrefix(ms);
    var priority := HighestPriority(ms, length);
    var longest :| 0 <= longest < |ms| && |ms[longest].path.prefix| == length;
    assert priority > 0;
    var best :| 0 <= best < |ms| && |ms[best].path.prefix| == length && SourcePriority(ms[best].route.source) == priority;
    forall k | 0 <= k < |ms|
      ensures Unbeaten(ms, ms[k]) <==>
              |ms[k].path.prefix| == length && SourcePriority(ms[k].route.source) == priority
    {
      if Unbeaten(ms, ms[k]) {
        assert !Beats(ms[best], ms[k]);
      }
    }
    SelectPointwise(ms, ms, length, priority);
    WinnerKept(ms, ms, best);
  }

  lemma {:induction false} WinnerKept(all: seq<RouteMatch>, ms: seq<RouteMatch>, k: nat)
    requires k < |ms| && Unbeaten(all, ms[k])
    ensures ms[k] in Winners(all, ms)
  {
    if k < |ms| - 1 {
      WinnerKept(all, ms[..|ms| - 1], k);
    }
  }

  lemma WinnersExist(pool: seq<RouteMatch>)
    requires pool != []
    ensures Winners(pool, pool) != []
  {
    SelectIsWinners(pool);
  }

  lemma {:induction false} WinnersAre(all: seq<RouteMatch>, ms: seq<RouteMatch>)
    ensures forall w :: w in Winners(all, ms) <==> w in ms && Unbeaten(all, w)
  {
    if ms != [] {
      WinnersAre(all, ms[..|ms| - 1]);
      assert ms == ms[..|ms| - 1] + [ms[|ms| - 1]];
    }
  }

  lemma {:induction false} ScanCandidatesAre(routes: seq<Route>, domain: string, path: Bytes, alias: bool)
    ensures forall m :: m in ScanCandidates(routes, domain, path, alias) <==>
                          && m.route in routes && Eligible(m.route, domain, path, alias)
                          && BestPath(m.route.paths, path) == Some(m.path)
  {
    if routes != [] {
      ScanCandidatesAre(routes[..|routes| - 1], domain, path, alias);
      assert routes == routes[..|routes| - 1] + [routes[|routes| - 1]];
    }
  }
}
