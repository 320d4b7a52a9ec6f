// The route registry as an object, and its runs (edge/crates/core/src/lib.rs).
module RouteRegistry {
  import opened Text
  import opened Merging
  import opened Routes
  import opened Registry
  import opened Lookup
  import opened Health

  function WithoutSource(routes: seq<Route>, source: RouteSource): seq<Route> {
    if routes == [] then []
    else
      var init, last := routes[..|routes| - 1], routes[|routes| - 1];
      WithoutSource(init, source) + if last.source != source then [last] else []
  }

  function WithoutApi(routes: seq<Route>, domain: string): seq<Route> {
    if routes == [] then []
    else
      var init, last := routes[..|routes| - 1], routes[|routes| - 1];
      WithoutApi(init, domain) + if !(last.source.Api? && last.domain == domain) then [last] else []
  }

  /** Equal in everything but the two time stamps, and both from the API. */
  predicate ApiEquivalent(a: Route, b: Route) {
    && a.source.Api? && b.source.Api?
    && a.(createdAt := b.createdAt, updatedAt := b.updatedAt) == b
  }

  predicate Unchanged(routes: seq<Route>, route: Route) {
    exists k :: 0 <= k < |routes| && ApiEquivalent(routes[k], route)
  }

  function Upserted(routes: seq<Route>, route: Route): seq<Route> {
    if Unchanged(routes, route) then routes else Dedupe(WithoutApi(routes, route.domain) + [route])
  }

  // ----- Runs over the flat list -----

  datatype Operation =
    | ReplaceAll(all: seq<Route>)
    | ReplaceSource(source: RouteSource, routes: seq<Route>)
    | UpsertApi(route: Route)
    | DeleteApi(domain: string)
    | SetHealth(health: map<string, bool>)
    | SetOne(update: HealthUpdate)
    | SetMany(updates: seq<HealthUpdate>)

  function Apply(routes: seq<Route>, op: Operation): seq<Route> {
    match op
    case ReplaceAll(all) => Dedupe(all)
    case ReplaceSource(source, rs) => Dedupe(WithoutSource(routes, source) + rs)
    case UpsertApi(route) => Upserted(routes, route)
    case DeleteApi(domain) => Dedupe(WithoutApi(routes, domain))
    case SetHealth(health) => if health == map[] then routes else Dedupe(RelabelRoutes(routes, health))
    case SetOne(u) => SetRouteHealth(routes, u)
    case SetMany(us) => SetRouteHealthMany(routes, us)
  }

  function Run(routes: seq<Route>, ops: seq<Operation>): seq<Route>
    decreases ops
  {
    if ops == [] then routes else Run(Apply(routes, ops[0]), ops[1..])
  }

  /** A run is its operations one after another. */
  lemma {:induction false} RunConcat(initial: seq<Route>, a: seq<Operation>, b: seq<Operation>)
    ensures Run(initial, a + b) == Run(Run(initial, a), b)
    ensures |b| == 1 ==> Run(initial, a + b) == Apply(Run(initial, a), b[0])
    decreases a
  {
    if a == [] {
      assert a + b == b;
    } else {
      assert (a + b)[1..] == a[1..] + b;
      RunConcat(Apply(initial, a[0]), a[1..], b);
    }
  }

  lemma ApplyKeepsKeysDistinct(routes: seq<Route>, op: Operation)
    requires KeysDistinct(routes)
    ensures KeysDistinct(Apply(routes, op))
  {
  }

  /** In every state a run reaches, no two routes share a key; so each host has at most one API route. */
  lemma {:induction false} RunKeepsKeysDistinct(initial: seq<Route>, ops: seq<Operation>)
    requires KeysDistinct(initial)
    ensures var routes := Run(initial, ops);
            && KeysDistinct(routes)
            && forall i, j :: 0 <= i < j < |routes| && routes[i].source.Api? && routes[j].source.Api? ==>
                              routes[i].domain != routes[j].domain
    decreases ops
  {
    if ops != [] {
      ApplyKeepsKeysDistinct(initial, ops[0]);
      RunKeepsKeysDistinct(Apply(initial, ops[0]), ops[1..]);
    } else {
      forall i, j | 0 <= i < j < |initial| && initial[i].source.Api? && initial[j].source.Api?
        ensures initial[i].domain != initial[j].domain
      {
        assert Key(initial[i]) != Key(initial[j]);
      }
    }
  }

  // ----- What the filters keep -----

  /** A selection from all but the last route does not meet the last route's key. */
  lemma LastKeyNew(routes: seq<Route>, kept: seq<Route>)
    requires routes != [] && KeysDistinct(routes)
    requires forall r :: r in kept ==> r in routes[..|routes| - 1]
    ensures forall i :: 0 <= i < |kept| ==> Key(kept[i]) != Key(routes[|routes| - 1])
  {
    forall i | 0 <= i < |kept|
      ensures Key(kept[i]) != Key(routes[|routes| - 1])
    {
      assert kept[i] in kept;
      var j :| 0 <= j < |routes| - 1 && routes[j] == kept[i];
      assert Key(routes[j]) != Key(routes[|routes| - 1]);
    }
  }

  lemma {:induction false} WithoutApiKeeps(routes: seq<Route>, domain: string)
    requires KeysDistinct(routes)
    ensures KeysDistinct(WithoutApi(routes, domain))
    ensures forall r :: r in WithoutApi(routes, domain) <==> r in routes && !(r.source.Api? && r.domain == domain)
  {
    if routes != [] {
      var init, last := routes[..|routes| - 1], routes[|routes| - 1];
      assert routes == init + [last];
      assert KeysDistinct(init);
      WithoutApiKeeps(init, domain);
      LastKeyNew(routes, WithoutApi(init, domain));
    }
  }

  /** An upsert that changes something removes the host's API route and appends the new one, nothing else. */
  lemma UpsertContents(routes: seq<Route>, route: Route)
    requires KeysDistinct(routes) && route.source.Api? && !Unchanged(routes, route)
    ensures Upserted(routes, route) == WithoutApi(routes, route.domain) + [route]
  {
    AppendApi(routes, route);
  }

  lemma AppendApi(routes: seq<Route>, route: Route)
    requires KeysDistinct(routes) && route.source.Api?
    ensures Dedupe(WithoutApi(routes, route.domain) + [route]) == WithoutApi(routes, route.domain) + [route]
  {
    var kept := WithoutApi(routes, route.domain);
    WithoutApiKeeps(routes, route.domain);
    forall i | 0 <= i < |kept|
      ensures Key(kept[i]) != Key(route)
    {
      assert kept[i] in kept;
      if Key(kept[i]) == Key(route) {
        KeySource(kept[i], route);
        assert false;
      }
    }
    LatestDistinct(Key, kept + [route]);
  }

  /** A delete removes the host's API route and nothing else. */
  lemma DeleteContents(routes: seq<Route>, domain: string)
    requires KeysDistinct(routes)
    ensures Apply(routes, DeleteApi(domain)) == WithoutApi(routes, domain)
    ensures forall r :: r in WithoutApi(routes, domain) <==> r in routes && !(r.source.Api? && r.domain == domain)
  {
    WithoutApiKeeps(routes, domain);
    LatestDistinct(Key, WithoutApi(routes, domain));
  }

  lemma {:induction false} WithoutSourceKeeps(routes: seq<Route>, source: RouteSource)
    ensures forall r :: r in WithoutSource(routes, source) <==> r in routes && r.source != source
  {
    if routes != [] {
      WithoutSourceKeeps(routes[..|routes| - 1], source);
      assert routes == routes[..|routes| - 1] + [routes[|routes| - 1]];
    }
  }

  /** Deduplication keeps exactly the last element of each key. */
  lemma LatestIff<T>(key: T -> string, xs: seq<T>, x: T)
    ensures x in Latest(key, xs) <==> HasKey(key, xs, key(x)) && LastWith(key, xs, key(x)) == x
  {
    var ks, r := FirstKeys(key, xs), Latest(key, xs);
    if x in r {
      var i :| 0 <= i < |r| && r[i] == x;
      assert r[i] == LastWith(key, xs, ks[i]);
    }
    if HasKey(key, xs, key(x)) && LastWith(key, xs, key(x)) == x {
      assert key(x) in ks;
      var i :| 0 <= i < |ks| && ks[i] == key(x);
      assert r[i] == x;
    }
  }

  lemma {:induction false} LastWithConcat<T>(key: T -> string, a: seq<T>, b: seq<T>, k: string)
    requires HasKey(key, a, k) || HasKey(key, b, k)
    ensures HasKey(key, a + b, k)
    ensures LastWith(key, a + b, k) == if HasKey(key, b, k) then LastWith(key, b, k) else LastWith(key, a, k)
    decreases |b|
  {
    if b == [] {
      assert a + b == a;
    } else {
      var init, last := b[..|b| - 1], b[|b| - 1];
      assert (a + b)[..|a + b| - 1] == a + init && a + b == (a + init) + [last] && b == init + [last];
      HasKeyAppend(key, init, last, k);
      HasKeyAppend(key, a + init, last, k);
      if key(last) != k {
        LastWithConcat(key, a, init, k);
      }
    }
  }

  lemma UniqueIsLast<T>(key: T -> string, xs: seq<T>, x: T)
    requires x in xs && forall k :: 0 <= k < |xs| && key(xs[k]) == key(x) ==> xs[k] == x
    ensures HasKey(key, xs, key(x)) && LastWith(key, xs, key(x)) == x
  {
    var i :| 0 <= i < |xs| && xs[i] == x;
    assert HasKey(key, xs, key(x));
    assert LastWith(key, xs, key(x)) in xs;
  }

  /**
   * Replacing one source keeps a route of another source exactly when no replacement carries its key, or the
   * last that does is that very route.
   */
  lemma ReplaceSourceKeepsOthers(routes: seq<Route>, source: RouteSource, rs: seq<Route>, r: Route)
    requires KeysDistinct(routes) && r in routes && r.source != source
    ensures r in Apply(routes, ReplaceSource(source, rs)) <==>
            HasKey(Key, rs, Key(r)) ==> LastWith(Key, rs, Key(r)) == r
    ensures (forall n :: n in rs ==> n.source == source) ==> r in Apply(routes, ReplaceSource(source, rs))
  {
    var kept := WithoutSource(routes, source);
    WithoutSourceKeeps(routes, source);
    forall k | 0 <= k < |kept| && Key(kept[k]) == Key(r)
      ensures kept[k] == r
    {
      assert kept[k] in kept;
      var a :| 0 <= a < |routes| && routes[a] == kept[k];
      var b :| 0 <= b < |routes| && routes[b] == r;
      assert a == b;
    }
    UniqueIsLast(Key, kept, r);
    LastWithConcat(Key, kept, rs, Key(r));
    LatestIff(Key, kept + rs, r);
    if HasKey(Key, rs, Key(r)) {
      KeySource(LastWith(Key, rs, Key(r)), r);
    }
  }

  lemma {:induction false} WithoutSourceConcat(a: seq<Route>, b: seq<Route>, source: RouteSource)
    ensures WithoutSource(a + b, source) == WithoutSource(a, source) + WithoutSource(b, source)
    decreases |b|
  {
    if b == [] {
      assert a + b == a;
    } else {
      var init := b[..|b| - 1];
      assert (a + b)[..|a + b| - 1] == a + init;
      WithoutSourceConcat(a, init, source);
    }
  }

  /** The filter drops the routes of the source and keeps the others in place: over any cut of the list. */
  lemma WithoutSourceInOrder(a: seq<Route>, r: Route, b: seq<Route>, source: RouteSource)
    ensures WithoutSource(a + [r] + b, source) ==
            WithoutSource(a, source) + (if r.source == source then [] else [r]) + WithoutSource(b, source)
  {
    WithoutSourceConcat(a + [r], b, source);
    WithoutSourceConcat(a, [r], source);
    assert [r][..0] == [];
  }

  lemma {:induction false} WithoutSourceDistinct(routes: seq<Route>, source: RouteSource)
    requires KeysDistinct(routes)
    ensures KeysDistinct(WithoutSource(routes, source))
  {
    if routes != [] {
      var init := routes[..|routes| - 1];
      WithoutSourceDistinct(init, source);
      WithoutSourceKeeps(init, source);
      LastKeyNew(routes, WithoutSource(init, source));
    }
  }

  lemma DistinctLast<T>(key: T -> string, xs: seq<T>, x: T)
    requires DistinctKeys(key, xs) && HasKey(key, xs, key(x))
    ensures LastWith(key, xs, key(x)) == x <==> x in xs
  {
    if x in xs {
      var i :| 0 <= i < |xs| && xs[i] == x;
      LastWithDistinct(key, xs, i);
    }
  }

  /** What the table holds after one source is replaced: the last new route of a key, else an old one of another source. */
  lemma ReplaceSourceContents(routes: seq<Route>, source: RouteSource, rs: seq<Route>, r: Route)
    requires KeysDistinct(routes)
    ensures r in Apply(routes, ReplaceSource(source, rs)) <==>
            if HasKey(Key, rs, Key(r)) then LastWith(Key, rs, Key(r)) == r else r in routes && r.source != source
    ensures r in Apply(routes, ReplaceSource(source, rs)) && r.source == source ==> r in rs
  {
    var kept := WithoutSource(routes, source);
    WithoutSourceKeeps(routes, source);
    WithoutSourceDistinct(routes, source);
    LatestIff(Key, kept + rs, r);
    if HasKey(Key, kept, Key(r)) || HasKey(Key, rs, Key(r)) {
      LastWithConcat(Key, kept, rs, Key(r));
      if !HasKey(Key, rs, Key(r)) {
        DistinctLast(Key, kept, r);
      }
    } else {
      NoKeyConcat(Key, kept, rs, Key(r));
      assert r !in kept;
    }
  }

  lemma NoKeyConcat<T>(key: T -> string, a: seq<T>, b: seq<T>, k: string)
    requires !HasKey(key, a, k) && !HasKey(key, b, k)
    ensures !HasKey(key, a + b, k)
    ensures forall x :: x in a ==> key(x) != k
  {
  }

  /** A clean listing of one source: the others as they were and in their order, then the listing. */
  lemma ReplaceSourceExact(routes: seq<Route>, source: RouteSource, rs: seq<Route>)
    requires KeysDistinct(routes) && KeysDistinct(rs)
    requires forall k :: 0 <= k < |rs| ==> rs[k].source == source
    ensures Apply(routes, ReplaceSource(source, rs)) == WithoutSource(routes, source) + rs
  {
    var kept := WithoutSource(routes, source);
    WithoutSourceDistinct(routes, source);
    WithoutSourceKeeps(routes, source);
    forall i, j | 0 <= i < |kept| && 0 <= j < |rs|
      ensures Key(kept[i]) != Key(rs[j])
    {
      assert kept[i] in kept;
      if Key(kept[i]) == Key(rs[j]) {
        KeySource(kept[i], rs[j]);
        assert false;
      }
    }
    LatestDistinct(Key, kept + rs);
  }

  lemma {:induction false} WithoutApiConcat(a: seq<Route>, b: seq<Route>, domain: string)
    ensures WithoutApi(a + b, domain) == WithoutApi(a, domain) + WithoutApi(b, domain)
    decreases |b|
  {
    if b == [] {
      assert a + b == a;
    } else {
      var init := b[..|b| - 1];
      assert (a + b)[..|a + b| - 1] == a + init;
      WithoutApiConcat(a, init, domain);
    }
  }

  /** The same of the filter that drops one host's API routes. */
  lemma WithoutApiInOrder(a: seq<Route>, r: Route, b: seq<Route>, domain: string)
    ensures WithoutApi(a + [r] + b, domain) ==
            WithoutApi(a, domain) + (if r.source.Api? && r.domain == domain then [] else [r]) + WithoutApi(b, domain)
  {
    WithoutApiConcat(a + [r], b, domain);
    WithoutApiConcat(a, [r], domain);
    assert [r][..0] == [];
  }

  /** A health map changes the flags it tells of and neither adds, drops nor moves a route. */
  lemma SetHealthContents(routes: seq<Route>, health: map<string, bool>)
    requires KeysDistinct(routes) && health != map[]
    ensures Apply(routes, SetHealth(health)) == RelabelRoutes(routes, health)
  {
    var relabelled := RelabelRoutes(routes, health);
    forall i, j | 0 <= i < j < |relabelled|
      ensures Key(relabelled[i]) != Key(relabelled[j])
    {
      assert Key(routes[i]) != Key(routes[j]);
    }
    LatestDistinct(Key, relabelled);
  }

  /** After an upsert the table holds the route, up to its time stamps; it is touched only if it did not already. */
  lemma UpsertHolds(routes: seq<Route>, route: Route)
    requires KeysDistinct(routes) && route.source.Api?
    ensures exists r :: r in Upserted(routes, route) && r.(createdAt := route.createdAt, updatedAt := route.updatedAt) == route
    ensures Upserted(routes, route) == routes || route in Upserted(routes, route)
    ensures (exists r :: r in routes && r.(createdAt := route.createdAt, updatedAt := route.updatedAt) == route) <==>
            Unchanged(routes, route)
  {
    if Unchanged(routes, route) {
      var k :| 0 <= k < |routes| && ApiEquivalent(routes[k], route);
      assert routes[k] in routes;
    } else {
      UpsertContents(routes, route);
      assert route in Upserted(routes, route);
    }
  }

  // ----- The object -----

  class RouteRegistry {
    var table: RouteTable

    ghost predicate Valid()
      reads this
    {
      Indexed(table) && KeysDistinct(table.routes)
    }

    constructor (routes: seq<Route>)
      ensures Valid() && table.routes == Dedupe(routes)
    {
      var t := NewTable(routes);
      table := t;
    }

    method Store(routes: seq<Route>)
      modifies this
      ensures Valid() && table.routes == Dedupe(routes)
    {
      var t := NewTable(routes);
      table := t;
    }

    method ReplaceSource(source: RouteSource, routes: seq<Route>)
      requires Valid()
      modifies this
      ensures Valid() && table.routes == Apply(old(table.routes), Operation.ReplaceSource(source, routes))
    {
      Store(WithoutSource(table.routes, source) + routes);
    }

    method UpsertApiRoute(route: Route) returns (changed: bool)
      requires Valid()
      modifies this
      ensures Valid() && table.routes == Apply(old(table.routes), UpsertApi(route))
      ensures changed <==> !Unchanged(old(table.routes), route)
    {
      changed := !(exists k :: 0 <= k < |table.routes| && ApiEquivalent(table.routes[k], route));
      if changed {
        Store(WithoutApi(table.routes, route.domain) + [route]);
      }
    }

    method DeleteApiDomain(domain: string) returns (deleted: bool)
      requires Valid()
      modifies this
      ensures Valid() && table.routes == Apply(old(table.routes), DeleteApi(domain))
      ensures deleted <==> exists r :: r in old(table.routes) && r.source.Api? && r.domain == domain
    {
      var after := WithoutApi(table.routes, domain);
      deleted := |table.routes| != |after|;
      WithoutApiLength(table.routes, domain);
      Store(after);
    }

    method SetUpstreamHealth(health: map<string, bool>)
      requires Valid()
      modifies this
      ensures Valid() && table.routes == Apply(old(table.routes), SetHealth(health))
    {
      if health != map[] {
        var routes := ApplyHealth(table.routes, health);
        Store(routes);
      }
    }

    method SetRouteUpstreamHealth(u: HealthUpdate)
      requires Valid()
      modifies this
      ensures Valid() && table.routes == Apply(old(table.routes), SetOne(u))
      ensures table.routes == MarkRoutes(old(table.routes), u)
    {
      SetRouteHealthIsMark(table.routes, u);
      if NormalizeDomain(u.domain) == [] || TrimText(u.url) == [] {
        return;
      }
      var routes := ApplyUpdate(table.routes, u);
      Store(routes);
    }

    method SetRouteUpstreamHealthMany(us: seq<HealthUpdate>)
      requires Valid()
      modifies this
      ensures Valid() && table.routes == Apply(old(table.routes), SetMany(us))
    {
      if us != [] {
        var routes := ApplyUpdates(table.routes, us);
        Store(routes);
        assert table.routes == SetRouteHealthMany(old(table.routes), us);
      }
    }

    /** The indexed lookup returns what a plain scan of the flat list returns. */
    method Find(host: string, path: Bytes) returns (r: Option<RouteMatch>)
      requires Valid()
      ensures r == ScanFind(table.routes, host, path)
    {
      var h := NormalizeDomain(host);
      if h == [] {
        return None;
      }
      var ms := MatchingRoutes(table, h, path, false);
      assert Bucket(table.byDomain, h) == OfDomain(table.routes, h);
      CandidatesAreScanned(table.routes, h, path, false);
      if ms == [] {
        var base := WwwAliasBase(h);
        if base.Some? {
          ms := MatchingRoutes(table, base.value, path, true);
          assert Bucket(table.byDomain, base.value) == OfDomain(table.routes, base.value);
          CandidatesAreScanned(table.routes, base.value, path, true);
        }
      }
      assert ms == ScanPool(table.routes, h, path);
      r := MergeBestRouteMatches(ms);
    }

    method FindDomain(domain: string) returns (r: Option<Route>)
      requires Valid()
      ensures r == ScanDomain(table.routes, domain)
    {
      var n := NormalizeDomain(domain);
      assert Bucket(table.byDomain, n) == OfDomain(table.routes, n);
      r := MergeBestDomainRoutes(Bucket(table.byDomain, n));
      if r.Some? {
        return;
      }
      var base := WwwAliasBase(n);
      if base.Some? {
        assert Bucket(table.byDomain, base.value) == OfDomain(table.routes, base.value);
        r := MergeBestDomainRoutes(AliasOnly(Bucket(table.byDomain, base.value)));
      }
    }
  }

  lemma {:induction false} WithoutApiLength(routes: seq<Route>, domain: string)
    ensures |WithoutApi(routes, domain)| <= |routes|
    ensures |WithoutApi(routes, domain)| != |routes| <==> exists r :: r in routes && r.source.Api? && r.domain == domain
  {
    if routes != [] {
      WithoutApiLength(routes[..|routes| - 1], domain);
      assert routes == routes[..|routes| - 1] + [routes[|routes| - 1]];
    }
  }
}
