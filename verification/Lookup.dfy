// What a lookup returns, said over the flat route list (edge/crates/core/src/lib.rs).
module Lookup {
  import opened Text
  import opened Paths
  import opened Prefixes
  import opened Merging
  import opened Routes
  import opened Registry

  /** The routes a lookup of a normalised host may use: its own, else those reached by the www alias. */
  predicate Usable(routes: seq<Route>, h: string, path: Bytes, route: Route) {
    && route in routes
    && if exists r :: r in routes && Eligible(r, h, path, false) then Eligible(route, h, path, false)
       else WwwAliasBase(h).Some? && Eligible(route, WwwAliasBase(h).value, path, true)
  }

  lemma PoolIsUsable(routes: seq<Route>, h: string, path: Bytes)
    ensures forall m :: m in ScanPool(routes, h, path) <==>
                          Usable(routes, h, path, m.route) && BestPath(m.route.paths, path) == Some(m.path)
  {
    var exact := ScanCandidates(routes, h, path, false);
    ScanCandidatesAre(routes, h, path, false);
    if WwwAliasBase(h).Some? {
      ScanCandidatesAre(routes, WwwAliasBase(h).value, path, true);
    }
    forall r | r in routes && Eligible(r, h, path, false)
      ensures exact != []
    {
      assert RouteMatch(r, BestPath(r.paths, path).value) in exact;
    }
    if exact != [] {
      assert exact[0] in exact;
    }
  }

  lemma PoolMember(routes: seq<Route>, h: string, path: Bytes, route: Route)
    requires Usable(routes, h, path, route)
    ensures BestPath(route.paths, path).Some?
    ensures RouteMatch(route, BestPath(route.paths, path).value) in ScanPool(routes, h, path)
  {
    PoolIsUsable(routes, h, path);
  }

  /** A route with a path for the request. */
  predicate Serves(route: Route, path: Bytes) {
    exists p :: p in route.paths && Matches(p.prefix, path)
  }

  lemma ServesIff(route: Route, domain: string, path: Bytes, alias: bool)
    ensures Eligible(route, domain, path, alias) <==>
            route.domain == domain && (alias ==> AllowsWwwAlias(route)) && Serves(route, path)
  {
    if Serves(route, path) {
      var p :| p in route.paths && Matches(p.prefix, path);
      var k :| 0 <= k < |route.paths| && route.paths[k] == p;
    }
  }

  /** Usable, in the words of the table: the host's own routes, and failing those the plain names behind its `www.`. */
  lemma UsableIff(routes: seq<Route>, h: string, path: Bytes, route: Route)
    ensures Usable(routes, h, path, route) <==>
            && route in routes && Serves(route, path)
            && if exists r :: r in routes && r.domain == h && Serves(r, path) then route.domain == h
               else && h == "www." + route.domain && route.domain != [] && !("www." <= route.domain)
                    && route.rules.wwwAlias && Labels(route.domain, false) == 2
  {
    forall r, d, a: bool
      ensures Eligible(r, d, path, a) <==> r.domain == d && (a ==> AllowsWwwAlias(r)) && Serves(r, path)
    {
      ServesIff(r, d, path, a);
    }
    AliasBaseIff(h, route.domain);
    if exists r :: r in routes && r.domain == h && Serves(r, path) {
      var r :| r in routes && r.domain == h && Serves(r, path);
      assert Eligible(r, h, path, false);
    }
  }

  lemma {:induction false} CandidatesConcat(a: seq<Route>, b: seq<Route>, domain: string, path: Bytes, alias: bool)
    ensures ScanCandidates(a + b, domain, path, alias) ==
            ScanCandidates(a, domain, path, alias) + ScanCandidates(b, domain, path, alias)
    decreases |b|
  {
    if b == [] {
      assert a + b == a;
    } else {
      assert (a + b)[..|a + b| - 1] == a + b[..|b| - 1];
      CandidatesConcat(a, b[..|b| - 1], domain, path, alias);
    }
  }

  /** Of the unbeaten candidates the one that comes first in the table leads the result. */
  lemma FirstUnbeatenLeads(pool: seq<RouteMatch>, k: nat)
    requires k < |pool| && Unbeaten(pool, pool[k]) && forall j :: 0 <= j < k ==> !Unbeaten(pool, pool[j])
    ensures Winners(pool, pool) != [] && Winners(pool, pool)[0] == pool[k]
  {
    LeaderIn(pool, pool, k);
  }

  lemma {:induction false} LeaderIn(all: seq<RouteMatch>, ms: seq<RouteMatch>, k: nat)
    requires k < |ms| && Unbeaten(all, ms[k]) && forall j :: 0 <= j < k ==> !Unbeaten(all, ms[j])
    ensures Winners(all, ms) != [] && Winners(all, ms)[0] == ms[k]
  {
    var init := ms[..|ms| - 1];
    if k == |ms| - 1 {
      NoWinners(all, init);
    } else {
      LeaderIn(all, init, k);
    }
  }

  lemma {:induction false} NoWinners(all: seq<RouteMatch>, ms: seq<RouteMatch>)
    requires forall k :: 0 <= k < |ms| ==> !Unbeaten(all, ms[k])
    ensures Winners(all, ms) == []
  {
    if ms != [] {
      NoWinners(all, ms[..|ms| - 1]);
    }
  }

  /** A lookup succeeds exactly when some route is usable for the normalised host. */
  lemma FindSucceedsIff(routes: seq<Route>, host: string, path: Bytes)
    ensures ScanFind(routes, host, path).Some? <==>
            NormalizeDomain(host) != [] && exists r :: Usable(routes, NormalizeDomain(host), path, r)
  {
    var h := NormalizeDomain(host);
    var pool := ScanPool(routes, h, path);
    PoolIsUsable(routes, h, path);
    if pool != [] {
      assert pool[0] in pool;
    }
    forall r | Usable(routes, h, path, r)
      ensures pool != []
    {
      PoolMember(routes, h, path, r);
    }
  }

  /** No usable route has a matching path that is longer, or as long from a stronger source. */
  lemma FindIsBest(routes: seq<Route>, host: string, path: Bytes, route: Route, p: PathRoute)
    requires ScanFind(routes, host, path).Some?
    requires Usable(routes, NormalizeDomain(host), path, route) && p in route.paths && Matches(p.prefix, path)
    ensures var m := ScanFind(routes, host, path).value;
            && |p.prefix| <= |m.path.prefix|
            && (|p.prefix| == |m.path.prefix| ==> SourcePriority(route.source) <= SourcePriority(m.route.source))
  {
    var h := NormalizeDomain(host);
    var pool := ScanPool(routes, h, path);
    var winners := Winners(pool, pool);
    PoolMember(routes, h, path, route);
    var rival := RouteMatch(route, BestPath(route.paths, path).value);
    WinnersExist(pool);
    WinnersAre(pool, pool);
    assert winners[0] in winners && Unbeaten(pool, winners[0]);
    assert !Beats(rival, winners[0]);
    assert |p.prefix| <= |rival.path.prefix|;
  }

  /** With accepted prefixes every route merged into the result matched under one and the same prefix. */
  lemma WinnersShareOnePrefix(routes: seq<Route>, h: string, path: Bytes, w: RouteMatch)
    requires forall r :: r in routes ==> AcceptedPaths(r)
    requires CanonicalShape(path)
    requires w in Winners(ScanPool(routes, h, path), ScanPool(routes, h, path))
    ensures w.path.prefix == Winners(ScanPool(routes, h, path), ScanPool(routes, h, path))[0].path.prefix
    ensures w.path.prefix != [] && Segments(w.path.prefix) <= Segments(path)
  {
    var pool := ScanPool(routes, h, path);
    var first := Winners(pool, pool)[0];
    WinnersAre(pool, pool);
    PoolIsUsable(routes, h, path);
    assert first in Winners(pool, pool);
    assert !Beats(first, w) && !Beats(w, first);
    AcceptedCandidate(routes, path, w);
    AcceptedCandidate(routes, path, first);
    TiedPrefixesEqual(w.path.prefix, first.path.prefix, path);
    MatchesIffSegmentPrefix(w.path.prefix, path);
  }

  lemma AcceptedCandidate(routes: seq<Route>, path: Bytes, m: RouteMatch)
    requires m.route in routes && BestPath(m.route.paths, path) == Some(m.path)
    requires forall r :: r in routes ==> AcceptedPaths(r)
    ensures AcceptedPrefix(m.path) && Matches(m.path.prefix, path)
  {
    var k :| 0 <= k < |m.route.paths| && m.route.paths[k] == m.path;
    assert AcceptedPrefix(m.route.paths[k]);
  }

  lemma {:induction false} AllUpstreamsUrls(ms: seq<RouteMatch>, url: string)
    ensures HasKey(UrlOf, AllUpstreams(ms), url) <==>
            exists k :: 0 <= k < |ms| && HasKey(UrlOf, ms[k].path.upstreams, url)
  {
    if ms != [] {
      var init, last := ms[..|ms| - 1], ms[|ms| - 1];
      AllUpstreamsUrls(init, url);
      HasKeyConcat(UrlOf, AllUpstreams(init), last.path.upstreams, url);
      if HasKey(UrlOf, AllUpstreams(init), url) {
        var k :| 0 <= k < |init| && HasKey(UrlOf, init[k].path.upstreams, url);
        assert ms[k] == init[k];
      }
      forall k | 0 <= k < |ms| && HasKey(UrlOf, ms[k].path.upstreams, url)
        ensures HasKey(UrlOf, AllUpstreams(ms), url)
      {
        if k < |ms| - 1 { assert ms[k] == init[k]; }
      }
    }
  }

  lemma HasKeyConcat<T>(key: T -> string, a: seq<T>, b: seq<T>, k: string)
    ensures HasKey(key, a + b, k) <==> HasKey(key, a, k) || HasKey(key, b, k)
  {
    if HasKey(key, a, k) {
      var i :| 0 <= i < |a| && key(a[i]) == k;
      assert key((a + b)[i]) == k;
    }
    if HasKey(key, b, k) {
      var i :| 0 <= i < |b| && key(b[i]) == k;
      assert key((a + b)[|a| + i]) == k;
    }
  }

  /** The merged upstreams: every winner's URLs and no others, repeated only where the first winner repeats them. */
  lemma MergedUrls(winners: seq<RouteMatch>, url: string)
    requires winners != []
    ensures HasKey(UrlOf, MergeWinners(winners).path.upstreams, url) <==>
            exists k :: 0 <= k < |winners| && HasKey(UrlOf, winners[k].path.upstreams, url)
    ensures DistinctKeys(UrlOf, MergeWinners(winners).path.upstreams) <==>
            DistinctKeys(UrlOf, winners[0].path.upstreams)
  {
    var first, rest := winners[0].path.upstreams, winners[1..];
    var more := AllUpstreams(rest);
    FreshKeys(UrlOf, first, more, url);
    AllUpstreamsUrls(rest, url);
    assert forall k :: 0 <= k < |rest| ==> rest[k] == winners[k + 1];
    ExtendIsFresh(UrlOf, first, more);
    ExtendDistinct(UrlOf, first, more);
  }

  lemma {:induction false} AllMiddlewaresNames(ms: seq<RouteMatch>, name: string)
    ensures HasKey(NameOf, AllMiddlewares(ms), name) <==>
            exists k :: 0 <= k < |ms| && HasKey(NameOf, ms[k].path.middlewares, name)
  {
    if ms != [] {
      var init, last := ms[..|ms| - 1], ms[|ms| - 1];
      AllMiddlewaresNames(init, name);
      HasKeyConcat(NameOf, AllMiddlewares(init), last.path.middlewares, name);
      if HasKey(NameOf, AllMiddlewares(init), name) {
        var k :| 0 <= k < |init| && HasKey(NameOf, init[k].path.middlewares, name);
        assert ms[k] == init[k];
      }
      forall k | 0 <= k < |ms| && HasKey(NameOf, ms[k].path.middlewares, name)
        ensures HasKey(NameOf, AllMiddlewares(ms), name)
      {
        if k < |ms| - 1 { assert ms[k] == init[k]; }
      }
    }
  }

  /** The same of the merged middlewares. */
  lemma MergedMiddlewares(winners: seq<RouteMatch>, name: string)
    requires winners != []
    ensures HasKey(NameOf, MergeWinners(winners).path.middlewares, name) <==>
            exists k :: 0 <= k < |winners| && HasKey(NameOf, winners[k].path.middlewares, name)
    ensures DistinctKeys(NameOf, MergeWinners(winners).path.middlewares) <==>
            DistinctKeys(NameOf, winners[0].path.middlewares)
  {
    var first, rest := winners[0].path.middlewares, winners[1..];
    var more := AllMiddlewares(rest);
    FreshKeys(NameOf, first, more, name);
    AllMiddlewaresNames(rest, name);
    assert forall k :: 0 <= k < |rest| ==> rest[k] == winners[k + 1];
    ExtendIsFresh(NameOf, first, more);
    ExtendDistinct(NameOf, first, more);
  }

  /** The result is the first winner, its own upstreams and middlewares in front; only its paths are replaced. */
  lemma MergedKeepsFirst(winners: seq<RouteMatch>)
    requires winners != []
    ensures var m, first := MergeWinners(winners), winners[0];
            && m.path.prefix == first.path.prefix
            && first.path.upstreams <= m.path.upstreams && first.path.middlewares <= m.path.middlewares
            && m.route.paths == [m.path] && m.route.(paths := first.route.paths) == first.route
  {
  }

  /** One winner with a repeated URL: the merge keeps the repetition. */
  lemma RepeatedUrlStays(m: RouteMatch, a: Upstream, b: Upstream)
    requires m.path.upstreams == [a, b] && a.url == b.url
    ensures MergeWinners([m]).path.upstreams == [a, b]
    ensures !DistinctKeys(UrlOf, MergeWinners([m]).path.upstreams)
  {
    assert [m][1..] == [];
    assert UrlOf(m.path.upstreams[0]) == UrlOf(m.path.upstreams[1]);
    MergedUrls([m], a.url);
  }

  // ----- Lookup of a whole domain -----

  /** Byte-wise lexicographic order, the order of a map keyed by strings. */
  predicate Before(a: Bytes, b: Bytes) {
    b != [] && (a == [] || a[0] < b[0] || (a[0] == b[0] && Before(a[1..], b[1..])))
  }

  lemma {:induction false} BeforeTotal(a: Bytes, b: Bytes)
    ensures Before(a, b) || Before(b, a) || a == b
    ensures !(Before(a, b) && Before(b, a)) && !Before(a, a)
  {
    if a != [] {
      BeforeTotal(a[1..], a[1..]);
      if b != [] && a[0] == b[0] {
        BeforeTotal(a[1..], b[1..]);
        assert a == [a[0]] + a[1..] && b == [b[0]] + b[1..];
      }
    }
  }

  lemma {:induction false} BeforeTransitive(a: Bytes, b: Bytes, c: Bytes)
    requires Before(a, b) && Before(b, c)
    ensures Before(a, c)
  {
    if a != [] && a[0] == b[0] && b[0] == c[0] {
      BeforeTransitive(a[1..], b[1..], c[1..]);
    }
  }

  predicate Sorted(entries: seq<PathRoute>) {
    forall i, j :: 0 <= i < j < |entries| ==> Before(entries[i].prefix, entries[j].prefix)
  }

  function Entry(entries: seq<PathRoute>, prefix: Bytes): Option<PathRoute> {
    if entries == [] then None
    else if entries[0].prefix == prefix then Some(entries[0])
    else Entry(entries[1..], prefix)
  }

  /** The entry of a prefix after one more path of that prefix. */
  function Grown(entry: Option<PathRoute>, p: PathRoute): PathRoute {
    var e := if entry.Some? then entry.value else PathRoute(p.prefix, [], p.middlewares);
    PathRoute(p.prefix, Extend(UrlOf, e.upstreams, p.upstreams), Extend(NameOf, e.middlewares, p.middlewares))
  }

  /** Puts one path into the sorted map. */
  function Absorb(entries: seq<PathRoute>, p: PathRoute): seq<PathRoute> {
    if entries == [] || Before(p.prefix, entries[0].prefix) then [Grown(None, p)] + entries
    else if entries[0].prefix == p.prefix then [Grown(Some(entries[0]), p)] + entries[1..]
    else [entries[0]] + Absorb(entries[1..], p)
  }

  lemma {:induction false} AbsentBefore(entries: seq<PathRoute>, prefix: Bytes)
    requires Sorted(entries) && (entries != [] ==> Before(prefix, entries[0].prefix))
    ensures Entry(entries, prefix) == None
  {
    if entries != [] {
      BeforeTotal(prefix, entries[0].prefix);
      BeforeTotal(prefix, prefix);
      if |entries| > 1 {
        BeforeTransitive(prefix, entries[0].prefix, entries[1].prefix);
      }
      AbsentBefore(entries[1..], prefix);
    }
  }

  lemma {:induction false} AbsorbMeaning(entries: seq<PathRoute>, p: PathRoute, q: Bytes)
    requires Sorted(entries)
    ensures Sorted(Absorb(entries, p))
    ensures Absorb(entries, p) != []
    ensures Absorb(entries, p)[0].prefix == p.prefix ||
            (entries != [] && Absorb(entries, p)[0].prefix == entries[0].prefix)
    ensures Entry(Absorb(entries, p), q) ==
            if q == p.prefix then Some(Grown(Entry(entries, p.prefix), p)) else Entry(entries, q)
  {
    var r := Absorb(entries, p);
    if entries == [] || Before(p.prefix, entries[0].prefix) {
      AbsentBefore(entries, p.prefix);
      assert r[1..] == entries;
      forall j | 0 < j < |r|
        ensures Before(r[0].prefix, r[j].prefix)
      {
        if j > 1 { BeforeTransitive(p.prefix, entries[0].prefix, entries[j - 1].prefix); }
      }
    } else if entries[0].prefix == p.prefix {
      assert r[1..] == entries[1..];
    } else {
      BeforeTotal(p.prefix, entries[0].prefix);
      AbsorbMeaning(entries[1..], p, q);
      assert r[1..] == Absorb(entries[1..], p);
      forall j | 0 < j < |r|
        ensures Before(r[0].prefix, r[j].prefix)
      {
        if j > 1 { BeforeTransitive(r[0].prefix, r[1].prefix, r[j].prefix); }
      }
    }
  }

  function PathsByPrefix(ps: seq<PathRoute>): seq<PathRoute> {
    if ps == [] then [] else Absorb(PathsByPrefix(ps[..|ps| - 1]), ps[|ps| - 1])
  }

  function WithPrefix(ps: seq<PathRoute>, prefix: Bytes): seq<PathRoute> {
    if ps == [] then []
    else
      var init, last := ps[..|ps| - 1], ps[|ps| - 1];
      WithPrefix(init, prefix) + if last.prefix == prefix then [last] else []
  }

  function UpstreamsOf(ps: seq<PathRoute>): seq<Upstream> {
    if ps == [] then [] else UpstreamsOf(ps[..|ps| - 1]) + ps[|ps| - 1].upstreams
  }

  function MiddlewaresOf(ps: seq<PathRoute>): seq<string> {
    if ps == [] then [] else MiddlewaresOf(ps[..|ps| - 1]) + ps[|ps| - 1].middlewares
  }

  /** The reference entry of a prefix: its paths' upstreams by first-seen URL, middlewares by first-seen name. */
  function MergedAt(ps: seq<PathRoute>, prefix: Bytes): Option<PathRoute> {
    var same := WithPrefix(ps, prefix);
    if same == [] then None
    else Some(PathRoute(prefix, Fresh(UrlOf, [], UpstreamsOf(same)),
                        same[0].middlewares + Fresh(NameOf, same[0].middlewares, MiddlewaresOf(same))))
  }

  /** The paths of a merged domain: in prefix order, one per prefix, each the reference entry. */
  lemma {:induction false} PathsByPrefixMeaning(ps: seq<PathRoute>, q: Bytes)
    ensures Sorted(PathsByPrefix(ps)) && Entry(PathsByPrefix(ps), q) == MergedAt(ps, q)
  {
    if ps != [] {
      var init, p := ps[..|ps| - 1], ps[|ps| - 1];
      PathsByPrefixMeaning(init, p.prefix);
      PathsByPrefixMeaning(init, q);
      AbsorbMeaning(PathsByPrefix(init), p, q);
      MergedAtSnoc(init, p, q);
      assert ps == init + [p];
    }
  }

  lemma MergedAtSnoc(init: seq<PathRoute>, p: PathRoute, q: Bytes)
    ensures MergedAt(init + [p], q) == if q == p.prefix then Some(Grown(MergedAt(init, q), p)) else MergedAt(init, q)
  {
    if q == p.prefix {
      GrownMeaning(init, p);
    } else {
      assert (init + [p])[..|init|] == init;
      assert WithPrefix(init + [p], q) == WithPrefix(init, q);
    }
  }

  lemma GrownMeaning(init: seq<PathRoute>, p: PathRoute)
    ensures Some(Grown(MergedAt(init, p.prefix), p)) == MergedAt(init + [p], p.prefix)
  {
    var same := WithPrefix(init, p.prefix);
    assert (init + [p])[..|init|] == init;
    var more := same + [p];
    assert WithPrefix(init + [p], p.prefix) == more;
    assert more[..|same|] == same;
    assert UpstreamsOf(more) == UpstreamsOf(same) + p.upstreams;
    assert MiddlewaresOf(more) == MiddlewaresOf(same) + p.middlewares;
    FreshGrows(UrlOf, [], UpstreamsOf(same), p.upstreams);
    FreshGrows(NameOf, more[0].middlewares, MiddlewaresOf(same), p.middlewares);
    assert [] + Fresh(UrlOf, [], UpstreamsOf(same)) == Fresh(UrlOf, [], UpstreamsOf(same));
    assert [] + Fresh(UrlOf, [], UpstreamsOf(more)) == Fresh(UrlOf, [], UpstreamsOf(more));
    if same == [] {
      assert p.middlewares + Fresh(NameOf, p.middlewares, []) == p.middlewares;
    }
  }

  lemma FreshGrows<T>(key: T -> string, target: seq<T>, a: seq<T>, b: seq<T>)
    ensures Extend(key, target + Fresh(key, target, a), b) == target + Fresh(key, target, a + b)
  {
    ExtendIsFresh(key, target, a);
    ExtendIsFresh(key, target, a + b);
    ExtendAppend(key, target, a, b);
  }

  function PathsOf(routes: seq<Route>): seq<PathRoute> {
    if routes == [] then [] else PathsOf(routes[..|routes| - 1]) + routes[|routes| - 1].paths
  }

  predicate Strongest(all: seq<Route>, r: Route) {
    forall k :: 0 <= k < |all| ==> SourcePriority(all[k].source) <= SourcePriority(r.source)
  }

  /** The members of `rs` whose source no route in `all` outranks. */
  function StrongestOf(all: seq<Route>, rs: seq<Route>): seq<Route> {
    if rs == [] then []
    else
      var init, last := rs[..|rs| - 1], rs[|rs| - 1];
      StrongestOf(all, init) + if Strongest(all, last) then [last] else []
  }

  /** One strongest route stands for itself; several are merged path by path into the first. */
  function MergeDomain(bucket: seq<Route>): Option<Route> {
    var selected := StrongestOf(bucket, bucket);
    if selected == [] then None
    else if |selected| == 1 then Some(selected[0])
    else Some(selected[0].(paths := PathsByPrefix(PathsOf(selected))))
  }

  function TopPriority(rs: seq<Route>): (n: nat)
    requires rs != []
    ensures forall k :: 0 <= k < |rs| ==> SourcePriority(rs[k].source) <= n
    ensures exists k :: 0 <= k < |rs| && SourcePriority(rs[k].source) == n
  {
    var here := SourcePriority(rs[0].source);
    if |rs| == 1 then here
    else
      var rest := TopPriority(rs[1..]);
      assert exists k :: 0 <= k < |rs[1..]| && rs[1..][k] == rs[k + 1] && SourcePriority(rs[1..][k].source) == rest;
      if here > rest then here else rest
  }

  function OfPriority(rs: seq<Route>, priority: nat): seq<Route> {
    if rs == [] then []
    else
      var init, last := rs[..|rs| - 1], rs[|rs| - 1];
      OfPriority(init, priority) + if SourcePriority(last.source) == priority then [last] else []
  }

  lemma {:induction false} OfPriorityIsStrongest(all: seq<Route>, rs: seq<Route>, priority: nat)
    requires forall k :: 0 <= k < |all| ==> SourcePriority(all[k].source) <= priority
    requires exists k :: 0 <= k < |all| && SourcePriority(all[k].source) == priority
    requires forall k :: 0 <= k < |rs| ==> rs[k] in all
    ensures OfPriority(rs, priority) == StrongestOf(all, rs)
  {
    if rs != [] {
      OfPriorityIsStrongest(all, rs[..|rs| - 1], priority);
      assert rs[|rs| - 1] in all;
    }
  }

  lemma {:induction false} PathsByPrefixAppend(a: seq<PathRoute>, b: seq<PathRoute>, j: nat)
    requires j < |b|
    ensures PathsByPrefix(a + b[..j + 1]) == Absorb(PathsByPrefix(a + b[..j]), b[j])
  {
    assert a + b[..j + 1] == (a + b[..j]) + [b[j]];
    assert ((a + b[..j]) + [b[j]])[..|a| + j] == a + b[..j];
  }

  /** The ordered map of paths by prefix, filled route by route. */
  method MergePaths(selected: seq<Route>) returns (entries: seq<PathRoute>)
    ensures entries == PathsByPrefix(PathsOf(selected))
  {
    entries := [];
    for i := 0 to |selected|
      invariant entries == PathsByPrefix(PathsOf(selected[..i]))
    {
      var paths := selected[i].paths;
      ghost var before := PathsOf(selected[..i]);
      assert before + paths[..0] == before;
      for j := 0 to |paths|
        invariant entries == PathsByPrefix(before + paths[..j])
      {
        PathsByPrefixAppend(before, paths, j);
        entries := Absorb(entries, paths[j]);
      }
      assert paths[..|paths|] == paths && selected[..i + 1][..i] == selected[..i];
    }
    assert selected[..|selected|] == selected;
  }

  method MergeBestDomainRoutes(bucket: seq<Route>) returns (r: Option<Route>)
    ensures r == MergeDomain(bucket)
  {
    if bucket == [] {
      return None;
    }
    var priority := TopPriority(bucket);
    var selected := OfPriority(bucket, priority);
    OfPriorityIsStrongest(bucket, bucket, priority);
    if |selected| == 1 {
      return Some(selected[0]);
    }
    if selected == [] {
      return None;
    }
    var entries := MergePaths(selected);
    r := Some(selected[0].(paths := entries));
  }

  function AliasOnly(bucket: seq<Route>): seq<Route> {
    if bucket == [] then []
    else
      var init, last := bucket[..|bucket| - 1], bucket[|bucket| - 1];
      AliasOnly(init) + if AllowsWwwAlias(last) then [last] else []
  }

  function ScanDomain(routes: seq<Route>, domain: string): Option<Route> {
    var n := NormalizeDomain(domain);
    var exact := MergeDomain(OfDomain(routes, n));
    if exact.Some? then exact
    else
      match WwwAliasBase(n)
      case None => None
      case Some(base) => MergeDomain(AliasOnly(OfDomain(routes, base)))
  }

  // ----- What a domain lookup returns -----

  lemma {:induction false} OfDomainAre(routes: seq<Route>, domain: string)
    ensures forall r :: r in OfDomain(routes, domain) <==> r in routes && r.domain == domain
  {
    if routes != [] {
      OfDomainAre(routes[..|routes| - 1], domain);
      assert routes == routes[..|routes| - 1] + [routes[|routes| - 1]];
    }
  }

  lemma {:induction false} AliasOnlyAre(bucket: seq<Route>)
    ensures forall r :: r in AliasOnly(bucket) <==> r in bucket && AllowsWwwAlias(r)
  {
    if bucket != [] {
      AliasOnlyAre(bucket[..|bucket| - 1]);
      assert bucket == bucket[..|bucket| - 1] + [bucket[|bucket| - 1]];
    }
  }

  lemma {:induction false} StrongestOfConcat(all: seq<Route>, a: seq<Route>, b: seq<Route>)
    ensures StrongestOf(all, a + b) == StrongestOf(all, a) + StrongestOf(all, b)
    decreases |b|
  {
    if b == [] {
      assert a + b == a;
    } else {
      assert (a + b)[..|a + b| - 1] == a + b[..|b| - 1];
      StrongestOfConcat(all, a, b[..|b| - 1]);
    }
  }

  lemma {:induction false} StrongestOfNone(all: seq<Route>, rs: seq<Route>)
    requires forall k :: 0 <= k < |rs| ==> !Strongest(all, rs[k])
    ensures StrongestOf(all, rs) == []
  {
    if rs != [] {
      StrongestOfNone(all, rs[..|rs| - 1]);
    }
  }

  /** Of the strongest routes the one that comes first stands for the domain; only its paths may be replaced. */
  lemma FirstStrongestLeads(bucket: seq<Route>, k: nat)
    requires k < |bucket| && Strongest(bucket, bucket[k]) && forall j :: 0 <= j < k ==> !Strongest(bucket, bucket[j])
    ensures MergeDomain(bucket).Some? && MergeDomain(bucket).value.(paths := bucket[k].paths) == bucket[k]
    ensures (forall j :: k < j < |bucket| ==> !Strongest(bucket, bucket[j])) ==> MergeDomain(bucket) == Some(bucket[k])
  {
    var a, b := bucket[..k], bucket[k + 1..];
    assert bucket == a + [bucket[k]] + b;
    StrongestOfConcat(bucket, a + [bucket[k]], b);
    StrongestOfConcat(bucket, a, [bucket[k]]);
    StrongestOfNone(bucket, a);
    assert [bucket[k]][..0] == [];
    if forall j :: k < j < |bucket| ==> !Strongest(bucket, bucket[j]) {
      StrongestOfNone(bucket, b);
    }
  }

  lemma {:induction false} SomeStrongest(bucket: seq<Route>, n: nat) returns (k: nat)
    requires 0 < n <= |bucket|
    ensures k < n && forall j :: 0 <= j < n ==> SourcePriority(bucket[j].source) <= SourcePriority(bucket[k].source)
  {
    k := 0;
    if n > 1 {
      k := SomeStrongest(bucket, n - 1);
      if SourcePriority(bucket[n - 1].source) > SourcePriority(bucket[k].source) {
        k := n - 1;
      }
    }
  }

  lemma MergeDomainIff(bucket: seq<Route>)
    ensures MergeDomain(bucket).Some? <==> bucket != []
  {
    if bucket != [] {
      var k := SomeStrongest(bucket, |bucket|);
      assert bucket == bucket[..k] + [bucket[k]] + bucket[k + 1..];
      StrongestOfConcat(bucket, bucket[..k] + [bucket[k]], bucket[k + 1..]);
      StrongestOfConcat(bucket, bucket[..k], [bucket[k]]);
      assert [bucket[k]][..0] == [];
    }
  }

  /** A domain is found exactly when it has a route of its own, or is the `www.` of a plain name that allows it. */
  lemma DomainFoundIff(routes: seq<Route>, domain: string)
    ensures var n := NormalizeDomain(domain);
            ScanDomain(routes, domain).Some? <==>
            || (exists r :: r in routes && r.domain == n)
            || (exists r :: r in routes && n == "www." + r.domain && r.domain != [] && AllowsWwwAlias(r))
  {
    var n := NormalizeDomain(domain);
    var own := OfDomain(routes, n);
    OfDomainAre(routes, n);
    MergeDomainIff(own);
    if own != [] {
      assert own[0] in own;
    } else {
      AliasFoundIff(routes, n);
    }
  }

  lemma AliasFoundIff(routes: seq<Route>, n: string)
    ensures var base := WwwAliasBase(n);
            (base.Some? && MergeDomain(AliasOnly(OfDomain(routes, base.value))).Some?) <==>
            exists r :: r in routes && n == "www." + r.domain && r.domain != [] && AllowsWwwAlias(r)
  {
    var base := WwwAliasBase(n);
    if base.Some? {
      var named := AliasOnly(OfDomain(routes, base.value));
      OfDomainAre(routes, base.value);
      AliasOnlyAre(OfDomain(routes, base.value));
      MergeDomainIff(named);
      AliasBaseIff(n, base.value);
      if named != [] {
        assert named[0] in named;
      }
    }
    forall r | r in routes && n == "www." + r.domain && r.domain != [] && AllowsWwwAlias(r)
      ensures base == Some(r.domain)
    {
      AliasBaseIff(n, r.domain);
    }
  }

  lemma {:induction false} PathsOfAre(routes: seq<Route>, p: PathRoute)
    ensures p in PathsOf(routes) <==> exists r :: r in routes && p in r.paths
  {
    if routes != [] {
      var init, last := routes[..|routes| - 1], routes[|routes| - 1];
      PathsOfAre(init, p);
      assert routes == init + [last];
    }
  }

  lemma {:induction false} WithPrefixIff(ps: seq<PathRoute>, prefix: Bytes)
    ensures WithPrefix(ps, prefix) != [] <==> exists p :: p in ps && p.prefix == prefix
  {
    if ps != [] {
      var init, last := ps[..|ps| - 1], ps[|ps| - 1];
      WithPrefixIff(init, prefix);
      assert ps == init + [last];
    }
  }

  /** Merging keeps the prefixes: one is in the merged paths exactly when some merged route has it. */
  lemma MergedPrefixes(selected: seq<Route>, prefix: Bytes)
    ensures Entry(PathsByPrefix(PathsOf(selected)), prefix).Some? <==>
            exists r, p :: r in selected && p in r.paths && p.prefix == prefix
  {
    var ps := PathsOf(selected);
    PathsByPrefixMeaning(ps, prefix);
    WithPrefixIff(ps, prefix);
    if p :| p in ps && p.prefix == prefix {
      PathsOfAre(selected, p);
    }
    forall r, p | r in selected && p in r.paths && p.prefix == prefix
      ensures p in ps
    {
      PathsOfAre(selected, p);
    }
  }
}
