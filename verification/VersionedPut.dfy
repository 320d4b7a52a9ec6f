// Versioned route updates from the control plane (edge/crates/api/src/lib.rs).
module VersionedPut {
  import opened Text
  import opened Routes
  import opened Registry
  import opened Lookup
  import opened RouteRegistry

  datatype Status = BadRequest | PayloadTooLarge | Conflict(current: nat) | BadGateway | Done(changed: bool)

  /** What reading, parsing and converting a request body comes to. */
  datatype Body = TooLarge | Malformed | Converted(route: Route)

  /** What conversion and validation of a request body guarantee about the route. */
  predicate Admissible(route: Route) {
    && route.source.Api? && route.domain != []
    && NormalizeDomain(route.domain) == route.domain
  }

  /** The version that makes an update stale, if there is one. */
  function Gate(routes: seq<Route>, route: Route): Option<nat> {
    var existing := ScanDomain(routes, route.domain);
    if existing.Some? && existing.value.source.Api? && existing.value.version > route.version
    then Some(existing.value.version)
    else None
  }

  function Put(routes: seq<Route>, route: Route): seq<Route> {
    if Gate(routes, route).Some? then routes else Upserted(routes, route)
  }

  /**
   * The handler. `safe` is the outcome of the network checks on the upstreams, `persisted` that of writing
   * the route to the persistent store once the table has changed.
   */
  method UpsertInternalRoute(registry: RouteRegistry, pathHost: string, body: Body, safe: bool, persisted: bool)
    returns (status: Status)
    requires registry.Valid()
    requires body.Converted? ==> Admissible(body.route)
    modifies registry
    ensures registry.Valid()
    ensures status.PayloadTooLarge? <==> NormalizeDomain(pathHost) != [] && body.TooLarge?
    ensures status.BadRequest? <==>
            || NormalizeDomain(pathHost) == [] || body.Malformed?
            || (body.Converted? && body.route.domain != NormalizeDomain(pathHost))
            || (body.Converted? && Gate(old(registry.table.routes), body.route).None? && !safe)
    ensures status.BadRequest? || status.PayloadTooLarge? ==> registry.table == old(registry.table)
    ensures !status.BadRequest? && !status.PayloadTooLarge? ==>
              registry.table.routes == Put(old(registry.table.routes), body.route)
    ensures status.Conflict? ==> Gate(old(registry.table.routes), body.route) == Some(status.current)
    ensures status.BadGateway? || status.Done? ==> Gate(old(registry.table.routes), body.route).None?
    ensures status.BadGateway? ==> !Unchanged(old(registry.table.routes), body.route) && !persisted
    ensures status.Done? ==> (status.changed <==> !Unchanged(old(registry.table.routes), body.route))
    ensures status.Done? && status.changed ==> persisted
  {
    var host := NormalizeDomain(pathHost);
    if host == [] {
      return BadRequest;
    }
    if body.TooLarge? {
      return PayloadTooLarge;
    }
    if body.Malformed? {
      return BadRequest;
    }
    var route := body.route;
    if route.domain != host {
      return BadRequest;
    }
    var existing := registry.FindDomain(route.domain);
    if existing.Some? && existing.value.source.Api? && existing.value.version > route.version {
      return Conflict(existing.value.version);
    }
    if !safe {
      return BadRequest;
    }
    var changed := registry.UpsertApiRoute(route);
    if changed && !persisted {
      return BadGateway;
    }
    return Done(changed);
  }

  // ----- The API route of a host -----

  predicate HasApi(routes: seq<Route>, domain: string, r: Route) {
    r in routes && r.source.Api? && r.domain == domain
  }

  lemma ApiUnique(routes: seq<Route>, domain: string, a: Route, b: Route)
    requires KeysDistinct(routes) && HasApi(routes, domain, a) && HasApi(routes, domain, b)
    ensures a == b
  {
    var i :| 0 <= i < |routes| && routes[i] == a;
    var j :| 0 <= j < |routes| && routes[j] == b;
    assert Key(routes[i]) == Key(routes[j]);
  }

  lemma {:induction false} OfDomainAre(routes: seq<Route>, domain: string)
    ensures forall r :: r in OfDomain(routes, domain) <==> r in routes && r.domain == domain
    ensures KeysDistinct(routes) ==> KeysDistinct(OfDomain(routes, domain))
  {
    if routes != [] {
      var init, last := routes[..|routes| - 1], routes[|routes| - 1];
      assert routes == init + [last];
      OfDomainAre(init, domain);
      if KeysDistinct(routes) {
        assert KeysDistinct(init);
        LastKeyNew(routes, OfDomain(init, domain));
      }
    }
  }

  lemma {:induction false} AliasOnlyAre(bucket: seq<Route>)
    ensures forall r :: r in AliasOnly(bucket) <==> r in bucket && AllowsWwwAlias(r)
    ensures KeysDistinct(bucket) ==> KeysDistinct(AliasOnly(bucket))
  {
    if bucket != [] {
      var init, last := bucket[..|bucket| - 1], bucket[|bucket| - 1];
      assert bucket == init + [last];
      AliasOnlyAre(init);
      if KeysDistinct(bucket) {
        assert KeysDistinct(init);
        LastKeyNew(bucket, AliasOnly(init));
      }
    }
  }

  /** A source that nothing outranks and that occurs once is selected alone. */
  lemma {:induction false} StrongestSingle(all: seq<Route>, rs: seq<Route>, r: Route)
    requires r in all && r.source.Api?
    requires forall x :: x in rs && x.source.Api? ==> x == r
    requires KeysDistinct(rs)
    ensures StrongestOf(all, rs) == if r in rs then [r] else []
  {
    if rs != [] {
      var init, last := rs[..|rs| - 1], rs[|rs| - 1];
      assert rs == init + [last];
      assert KeysDistinct(init);
      StrongestSingle(all, init, r);
      OnlyStrongest(all, last, r);
      if last == r {
        LastKeyNew(rs, init);
        assert r !in init;
      }
    }
  }

  lemma OnlyStrongest(all: seq<Route>, x: Route, r: Route)
    requires r in all && r.source.Api? && (x.source.Api? ==> x == r)
    ensures Strongest(all, x) <==> x == r
  {
    var k :| 0 <= k < |all| && all[k] == r;
    assert SourcePriority(all[k].source) == SourcePriority(r.source);
  }

  lemma {:induction false} StrongestAre(all: seq<Route>, rs: seq<Route>)
    ensures forall x :: x in StrongestOf(all, rs) ==> x in rs
  {
    if rs != [] {
      StrongestAre(all, rs[..|rs| - 1]);
    }
  }

  /** Merging a bucket yields its API route when it has one, and otherwise something from another source. */
  lemma MergeDomainApi(bucket: seq<Route>)
    requires KeysDistinct(bucket)
    requires forall a, b :: a in bucket && b in bucket && a.source.Api? && b.source.Api? ==> a == b
    ensures forall r :: r in bucket && r.source.Api? ==> MergeDomain(bucket) == Some(r)
    ensures MergeDomain(bucket).Some? && MergeDomain(bucket).value.source.Api? ==> MergeDomain(bucket).value in bucket
  {
    forall r | r in bucket && r.source.Api?
      ensures MergeDomain(bucket) == Some(r)
    {
      StrongestSingle(bucket, bucket, r);
    }
    var selected := StrongestOf(bucket, bucket);
    StrongestAre(bucket, bucket);
    if selected != [] {
      assert selected[0] in selected;
    }
  }

  lemma MergeDomainEmpty(bucket: seq<Route>)
    ensures MergeDomain(bucket).None? <==> bucket == []
  {
    if bucket != [] {
      var top := TopPriority(bucket);
      var k :| 0 <= k < |bucket| && SourcePriority(bucket[k].source) == top;
      assert Strongest(bucket, bucket[k]);
      StrongestKept(bucket, bucket, k);
    }
  }

  lemma {:induction false} StrongestKept(all: seq<Route>, rs: seq<Route>, k: nat)
    requires k < |rs| && Strongest(all, rs[k])
    ensures rs[k] in StrongestOf(all, rs)
  {
    if k < |rs| - 1 {
      StrongestKept(all, rs[..|rs| - 1], k);
    }
  }

  lemma BucketApi(routes: seq<Route>, domain: string)
    requires KeysDistinct(routes)
    ensures var bucket := OfDomain(routes, domain);
            && KeysDistinct(bucket)
            && forall a, b :: a in bucket && b in bucket && a.source.Api? && b.source.Api? ==> a == b
  {
    OfDomainAre(routes, domain);
    forall a, b | a in OfDomain(routes, domain) && b in OfDomain(routes, domain) && a.source.Api? && b.source.Api?
      ensures a == b
    {
      ApiUnique(routes, domain, a, b);
    }
  }

  /** The API route of the apex that a www host without routes of its own falls back to. */
  predicate ApexApi(routes: seq<Route>, domain: string, r: Route) {
    && OfDomain(routes, domain) == [] && WwwAliasBase(domain).Some?
    && HasApi(routes, WwwAliasBase(domain).value, r) && AllowsWwwAlias(r)
  }

  /** An update is stale exactly when its host's API route, or the apex route it falls back to, is newer. */
  lemma GateIff(routes: seq<Route>, route: Route)
    requires KeysDistinct(routes) && Admissible(route)
    ensures Gate(routes, route).Some? <==>
            exists r :: (HasApi(routes, route.domain, r) || ApexApi(routes, route.domain, r)) && r.version > route.version
  {
    var d := route.domain;
    if r :| (HasApi(routes, d, r) || ApexApi(routes, d, r)) && r.version > route.version {
      ScanFindsApi(routes, d, r);
    }
    if Gate(routes, route).Some? {
      ScanFindsApi(routes, d, ScanDomain(routes, d).value);
    }
  }

  /** A lookup of a normalised host yields an API route exactly when the host, or its apex, has that one. */
  lemma ScanFindsApi(routes: seq<Route>, d: string, r: Route)
    requires KeysDistinct(routes) && NormalizeDomain(d) == d
    ensures ScanDomain(routes, d) == Some(r) && r.source.Api? <==> HasApi(routes, d, r) || ApexApi(routes, d, r)
  {
    ExactApi(routes, d, r);
    if OfDomain(routes, d) == [] && WwwAliasBase(d).Some? {
      AliasApi(routes, WwwAliasBase(d).value, r);
    }
  }

  lemma ExactApi(routes: seq<Route>, d: string, r: Route)
    requires KeysDistinct(routes)
    ensures MergeDomain(OfDomain(routes, d)) == Some(r) && r.source.Api? <==> HasApi(routes, d, r)
    ensures MergeDomain(OfDomain(routes, d)).None? <==> OfDomain(routes, d) == []
    ensures HasApi(routes, d, r) ==> OfDomain(routes, d) != []
  {
    OfDomainAre(routes, d);
    BucketApi(routes, d);
    MergeDomainApi(OfDomain(routes, d));
    MergeDomainEmpty(OfDomain(routes, d));
  }

  lemma AliasApi(routes: seq<Route>, base: string, r: Route)
    requires KeysDistinct(routes)
    ensures MergeDomain(AliasOnly(OfDomain(routes, base))) == Some(r) && r.source.Api? <==>
            HasApi(routes, base, r) && AllowsWwwAlias(r)
  {
    OfDomainAre(routes, base);
    BucketApi(routes, base);
    AliasOnlyAre(OfDomain(routes, base));
    MergeDomainApi(AliasOnly(OfDomain(routes, base)));
  }

  // ----- One update -----

  lemma PutKeepsKeysDistinct(routes: seq<Route>, route: Route)
    requires KeysDistinct(routes)
    ensures KeysDistinct(Put(routes, route))
  {
  }

  /** The effect of an update on the API route of any host. */
  lemma PutEffect(routes: seq<Route>, route: Route, domain: string, r: Route)
    requires KeysDistinct(routes) && Admissible(route)
    ensures HasApi(Put(routes, route), domain, r) <==>
            if domain != route.domain || Gate(routes, route).Some? || Unchanged(routes, route)
            then HasApi(routes, domain, r)
            else r == route
  {
    if Gate(routes, route).None? && !Unchanged(routes, route) {
      UpsertContents(routes, route);
      WithoutApiKeeps(routes, route.domain);
    }
  }

  /** The stored version of a host never goes down. */
  lemma VersionNeverDecreases(routes: seq<Route>, route: Route, domain: string, r: Route)
    requires KeysDistinct(routes) && Admissible(route) && HasApi(routes, domain, r)
    ensures exists r' :: HasApi(Put(routes, route), domain, r') && r'.version >= r.version
  {
    GateIff(routes, route);
    PutEffect(routes, route, domain, r);
    PutEffect(routes, route, domain, route);
    if !HasApi(Put(routes, route), domain, r) {
      assert HasApi(Put(routes, route), domain, route);
    }
  }

  // ----- Runs -----

  /** No apex route can stand in for the host: it is not `www.` and a name, or the name has not two labels. */
  predicate NoFallback(domain: string) {
    WwwAliasBase(domain).None? || Labels(WwwAliasBase(domain).value, false) != 2
  }

  function PutAll(routes: seq<Route>, puts: seq<Route>): seq<Route> {
    if puts == [] then routes else Put(PutAll(routes, puts[..|puts| - 1]), puts[|puts| - 1])
  }

  /** Greatest version among the stored route and the updates of the host; the latest of equal ones. */
  function Champion(stored: Option<Route>, puts: seq<Route>, domain: string): Option<Route> {
    if puts == [] then stored
    else
      var before, last := Champion(stored, puts[..|puts| - 1], domain), puts[|puts| - 1];
      if last.domain != domain || (before.Some? && before.value.version > last.version) then before
      else Some(last)
  }

  ghost predicate IsApi(routes: seq<Route>, domain: string, o: Option<Route>) {
    forall r :: HasApi(routes, domain, r) <==> o == Some(r)
  }

  predicate SameButTimes(a: Route, b: Route) {
    a.(createdAt := b.createdAt, updatedAt := b.updatedAt) == b
  }

  /**
   * Whatever else is updated in between, the API route of a host without a www fallback ends as the
   * greatest version sent, up to the time stamps of a repeated identical update.
   */
  lemma {:induction false} LastVersionWins(
    routes: seq<Route>, puts: seq<Route>, domain: string, stored: Option<Route>) returns (final: Option<Route>)
    requires KeysDistinct(routes) && IsApi(routes, domain, stored)
    requires NoFallback(domain)
    requires forall k :: 0 <= k < |puts| ==> Admissible(puts[k])
    ensures KeysDistinct(PutAll(routes, puts)) && IsApi(PutAll(routes, puts), domain, final)
    ensures var champion := Champion(stored, puts, domain);
            && (final.Some? <==> champion.Some?)
            && (final.Some? ==> SameButTimes(final.value, champion.value))
            && (DistinctVersions(stored, puts, domain) ==> final == champion)
  {
    if puts == [] {
      final := stored;
    } else {
      var init, last := puts[..|puts| - 1], puts[|puts| - 1];
      var before := LastVersionWins(routes, init, domain, stored);
      var mid := PutAll(routes, init);
      PutKeepsKeysDistinct(mid, last);
      if DistinctVersions(stored, puts, domain) {
        DistinctInit(stored, puts, domain);
      }
      final := PutStep(mid, last, domain, before);
      if last.domain == domain && Unchanged(mid, last) && DistinctVersions(stored, puts, domain) {
        RepeatedVersion(stored, puts, domain);
      }
    }
  }

  /** An update with the version of the champion before it repeats a version. */
  lemma RepeatedVersion(stored: Option<Route>, puts: seq<Route>, domain: string)
    requires puts != [] && puts[|puts| - 1].domain == domain
    ensures var champion := Champion(stored, puts[..|puts| - 1], domain);
            DistinctVersions(stored, puts, domain) && champion.Some? ==> champion.value.version != puts[|puts| - 1].version
  {
    ChampionFrom(stored, puts[..|puts| - 1], domain);
  }

  /** The host's API route after one update, given the one before it. */
  lemma PutStep(mid: seq<Route>, put: Route, domain: string, before: Option<Route>) returns (after: Option<Route>)
    requires KeysDistinct(mid) && Admissible(put) && IsApi(mid, domain, before)
    requires NoFallback(domain)
    ensures IsApi(Put(mid, put), domain, after)
    ensures put.domain == domain ==> (Gate(mid, put).Some? <==> before.Some? && before.value.version > put.version)
    ensures after == if put.domain != domain || Gate(mid, put).Some? || Unchanged(mid, put) then before else Some(put)
    ensures put.domain == domain && Unchanged(mid, put) ==> before.Some? && ApiEquivalent(before.value, put)
  {
    after := if put.domain != domain || Gate(mid, put).Some? || Unchanged(mid, put) then before else Some(put);
    forall r
      ensures HasApi(Put(mid, put), domain, r) <==> after == Some(r)
    {
      PutEffect(mid, put, domain, r);
    }
    if put.domain == domain {
      GateIff(mid, put);
      if Gate(mid, put).Some? {
        var r :| (HasApi(mid, domain, r) || ApexApi(mid, domain, r)) && r.version > put.version;
      }
      if before.Some? {
        assert HasApi(mid, domain, before.value);
      }
      if Unchanged(mid, put) {
        var k :| 0 <= k < |mid| && ApiEquivalent(mid[k], put);
        assert HasApi(mid, domain, mid[k]);
      }
    }
  }

  predicate DistinctVersions(stored: Option<Route>, puts: seq<Route>, domain: string) {
    && (forall i, j :: 0 <= i < j < |puts| && puts[i].domain == puts[j].domain == domain ==>
          puts[i].version != puts[j].version)
    && (forall i :: 0 <= i < |puts| && puts[i].domain == domain && stored.Some? ==>
          puts[i].version != stored.value.version)
  }

  lemma DistinctInit(stored: Option<Route>, puts: seq<Route>, domain: string)
    requires puts != [] && DistinctVersions(stored, puts, domain)
    ensures DistinctVersions(stored, puts[..|puts| - 1], domain)
  {
  }

  lemma {:induction false} ChampionFrom(stored: Option<Route>, puts: seq<Route>, domain: string)
    ensures var c := Champion(stored, puts, domain);
            && (stored.Some? ==> c.Some? && c.value.version >= stored.value.version)
            && (forall k :: 0 <= k < |puts| && puts[k].domain == domain ==>
                  c.Some? && c.value.version >= puts[k].version)
            && (c == stored || exists k :: 0 <= k < |puts| && puts[k].domain == domain && c == Some(puts[k]))
  {
    if puts != [] {
      ChampionFrom(stored, puts[..|puts| - 1], domain);
    }
  }

  /** With distinct versions the outcome does not depend on the order of arrival. */
  lemma OrderIndependent(routes: seq<Route>, a: seq<Route>, b: seq<Route>, domain: string, stored: Option<Route>)
    returns (final: Option<Route>)
    requires KeysDistinct(routes) && IsApi(routes, domain, stored) && NoFallback(domain)
    requires forall k :: 0 <= k < |a| ==> Admissible(a[k])
    requires DistinctVersions(stored, a, domain) && DistinctVersions(stored, b, domain)
    requires multiset(a) == multiset(b)
    ensures IsApi(PutAll(routes, a), domain, final) && IsApi(PutAll(routes, b), domain, final)
    ensures forall p :: p in a && p.domain == domain ==> final.Some? && final.value.version >= p.version
  {
    forall k | 0 <= k < |b|
      ensures Admissible(b[k])
    {
      assert b[k] in multiset(a);
    }
    final := LastVersionWins(routes, a, domain, stored);
    var other := LastVersionWins(routes, b, domain, stored);
    ChampionFrom(stored, a, domain);
    ChampionFrom(stored, b, domain);
    ChampionUnique(stored, a, b, domain);
  }

  lemma ChampionUnique(stored: Option<Route>, a: seq<Route>, b: seq<Route>, domain: string)
    requires DistinctVersions(stored, a, domain) && DistinctVersions(stored, b, domain)
    requires multiset(a) == multiset(b)
    ensures Champion(stored, a, domain) == Champion(stored, b, domain)
  {
    var ca, cb := Champion(stored, a, domain), Champion(stored, b, domain);
    ChampionFrom(stored, a, domain);
    ChampionFrom(stored, b, domain);
    assert forall p :: p in a <==> p in multiset(a);
    assert forall p :: p in b <==> p in multiset(b);
    if ca != stored {
      var i :| 0 <= i < |a| && a[i].domain == domain && ca == Some(a[i]);
      assert a[i] in b;
    }
    if cb != stored {
      var j :| 0 <= j < |b| && b[j].domain == domain && cb == Some(b[j]);
      assert b[j] in a;
    }
  }

  // ----- Where the order does matter -----

  /** A www host without a route of its own is gated by its apex: the same two updates end differently. */
  lemma WwwOrderMatters(apex: Route, www: Route)
    requires Admissible(apex) && Admissible(www)
    requires WwwAliasBase(www.domain) == Some(apex.domain) && AllowsWwwAlias(apex)
    requires apex.version > www.version
    ensures !HasApi(PutAll([], [apex, www]), www.domain, www)
    ensures HasApi(PutAll([], [www, apex]), www.domain, www)
  {
    TwoPuts(apex, www);
    TwoPuts(www, apex);
    assert OfDomain([apex], www.domain) == [];
    assert ApexApi([apex], www.domain, apex);
    GateIff([apex], www);
    PutEffect([apex], www, www.domain, www);
    PutEffect([www], apex, www.domain, www);
  }

  lemma TwoPuts(p: Route, q: Route)
    requires Admissible(p)
    ensures PutAll([], [p, q]) == Put([p], q)
  {
    GateIff([], p);
    UpsertContents([], p);
    assert Put([], p) == [p];
    assert [p, q][..1] == [p] && [p][..0] == [];
    assert PutAll([], [p]) == [p];
  }

  /** Two orders of the same updates of a host, all versions distinct. */
  ghost predicate Rivals(routes: seq<Route>, a: seq<Route>, b: seq<Route>, domain: string) {
    && KeysDistinct(routes) && multiset(a) == multiset(b)
    && (forall k :: 0 <= k < |a| ==> Admissible(a[k]))
    && exists stored :: IsApi(routes, domain, stored) && DistinctVersions(stored, a, domain) && DistinctVersions(stored, b, domain)
  }

  ghost predicate SameApi(x: seq<Route>, y: seq<Route>, domain: string) {
    forall r :: HasApi(x, domain, r) <==> HasApi(y, domain, r)
  }

  /** The outcome for the host never depends on the order. */
  ghost predicate OrderFree(domain: string) {
    forall routes, a, b :: Rivals(routes, a, b, domain) ==> SameApi(PutAll(routes, a), PutAll(routes, b), domain)
  }

  /** It is so exactly when no apex route can stand in for the host. */
  lemma OrderFreeIff(domain: string)
    requires domain != [] && NormalizeDomain(domain) == domain
    requires WwwAliasBase(domain).Some? ==> NormalizeDomain(WwwAliasBase(domain).value) == WwwAliasBase(domain).value
    ensures OrderFree(domain) <==> NoFallback(domain)
  {
    if NoFallback(domain) {
      forall routes, a, b | Rivals(routes, a, b, domain)
        ensures SameApi(PutAll(routes, a), PutAll(routes, b), domain)
      {
        RivalsAgree(routes, a, b, domain);
      }
    } else {
      OrderBound(domain, WwwAliasBase(domain).value);
    }
  }

  lemma RivalsAgree(routes: seq<Route>, a: seq<Route>, b: seq<Route>, domain: string)
    requires NoFallback(domain) && Rivals(routes, a, b, domain)
    ensures SameApi(PutAll(routes, a), PutAll(routes, b), domain)
  {
    var stored :| IsApi(routes, domain, stored) && DistinctVersions(stored, a, domain) && DistinctVersions(stored, b, domain);
    var final := OrderIndependent(routes, a, b, domain, stored);
  }

  lemma OrderBound(domain: string, base: string)
    requires domain != [] && NormalizeDomain(domain) == domain && NormalizeDomain(base) == base
    requires WwwAliasBase(domain) == Some(base) && Labels(base, false) == 2
    ensures !OrderFree(domain)
  {
    PairBreaks(Plain(base, 1), Plain(domain, 0));
  }

  lemma PairBreaks(apex: Route, www: Route)
    requires Admissible(apex) && Admissible(www)
    requires WwwAliasBase(www.domain) == Some(apex.domain) && AllowsWwwAlias(apex) && apex.version > www.version
    ensures !OrderFree(www.domain)
  {
    WwwOrderMatters(apex, www);
    TwoRivals(apex, www);
    NotFree([], [apex, www], [www, apex], www.domain, www);
  }

  lemma NotFree(routes: seq<Route>, a: seq<Route>, b: seq<Route>, domain: string, r: Route)
    requires Rivals(routes, a, b, domain)
    requires HasApi(PutAll(routes, a), domain, r) != HasApi(PutAll(routes, b), domain, r)
    ensures !OrderFree(domain)
  {
    Differ(PutAll(routes, a), PutAll(routes, b), domain, r);
  }

  lemma Differ(x: seq<Route>, y: seq<Route>, domain: string, r: Route)
    requires HasApi(x, domain, r) != HasApi(y, domain, r)
    ensures !SameApi(x, y, domain)
  {
  }

  lemma TwoRivals(apex: Route, www: Route)
    requires Admissible(apex) && Admissible(www) && apex.domain != www.domain
    ensures Rivals([], [apex, www], [www, apex], www.domain)
  {
    assert IsApi([], www.domain, None);
    assert DistinctVersions(None, [apex, www], www.domain) && DistinctVersions(None, [www, apex], www.domain);
  }

  /** A route the control plane could send for a host. */
  function Plain(domain: string, version: nat): Route {
    var path := PathRoute([SLASH], [Upstream("http://10.0.0.1:80", 1, true, false, 0)], []);
    Route("runtime-" + domain, domain, [path], true, RoundRobin, Rules(true, [], [], 0), Api, version, 0, 0)
  }

  /** Hosts over the validated alphabet meet the assumption on their base. */
  lemma PlainBaseNormal(domain: string)
    requires PlainDomain(domain) && NormalizeDomain(domain) == domain && WwwAliasBase(domain).Some?
    ensures NormalizeDomain(WwwAliasBase(domain).value) == WwwAliasBase(domain).value
  {
    var base := WwwAliasBase(domain).value;
    NormalizedForm(domain);
    PlainIsStable(base);
    assert forall k :: 0 <= k < |base| ==> base[k] == domain[k + 4];
    assert Lower(base) == base;
    SkipTrailingEnd(domain, '.');
    assert base[|base| - 1] == domain[|domain| - 1];
    StableNormal(base);
  }
}
