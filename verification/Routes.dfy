// Routes, hosts and path choice (edge/crates/common/src/lib.rs, edge/crates/core/src/lib.rs).
module Routes {
  import opened Text
  import opened Paths
  import opened Prefixes

  datatype RouteSource = Static | Docker | Podman | Api

  datatype Algorithm =
    RoundRobin | LeastConnections | IpHash | WeightedRoundRobin | EwmaLatency | P2c | Hrw | LatencyAware

  datatype Upstream = Upstream(url: string, weight: nat, healthy: bool, backup: bool, transport: int)

  datatype PathRoute = PathRoute(prefix: Bytes, upstreams: seq<Upstream>, middlewares: seq<string>)

  /** A traffic split or a location rule; `selector` stands for its name, weight and places. */
  datatype Pool = Pool(selector: int, upstreams: seq<Upstream>)

  /** `rest` stands for every rule the registry only copies and compares. */
  datatype Rules = Rules(wwwAlias: bool, trafficSplits: seq<Pool>, locationRoutes: seq<Pool>, rest: int)

  datatype Route = Route(
    id: string, domain: string, paths: seq<PathRoute>, tls: bool, algorithm: Algorithm,
    rules: Rules, source: RouteSource, version: nat, createdAt: int, updatedAt: int)

  datatype RouteMatch = RouteMatch(route: Route, path: PathRoute)

  function SourcePriority(source: RouteSource): nat {
    match source
    case Static => 1
    case Docker => 2
    case Podman => 2
    case Api => 3
  }

  // ----- Host names -----

  function HostWithoutPort(host: string): Option<string> {
    var trimmed := TrimText(host);
    if trimmed == [] then None
    else if trimmed[0] == '[' then Some(SkipLeading(Until(trimmed, ']'), '['))
    else Some(Until(trimmed, ':'))
  }

  function NormalizeDomain(domain: string): string {
    var host := HostWithoutPort(domain);
    Lower(SkipTrailing(if host.Some? then host.value else domain, '.'))
  }

  /** The alphabet `validate_domain_name` admits. */
  predicate DomainChar(c: char) {
    'a' <= c <= 'z' || 'A' <= c <= 'Z' || '0' <= c <= '9' || c == '-' || c == '_' || c == '.'
  }

  predicate PlainDomain(d: string) {
    d != [] && forall k :: 0 <= k < |d| ==> DomainChar(d[k])
  }

  lemma {:induction false} UntilAbsent(s: string, c: char)
    ensures |Until(s, c)| <= |s|
    ensures if c in s then |Until(s, c)| < |s| else Until(s, c) == s
  {
    if s != [] {
      UntilAbsent(s[1..], c);
      assert s == [s[0]] + s[1..];
    }
  }

  lemma {:induction false} SkipTrailingEnd(s: string, c: char)
    ensures var r := SkipTrailing(s, c); r <= s && (r == [] || r[|r| - 1] != c)
  {
    if s != [] && s[|s| - 1] == c {
      SkipTrailingEnd(s[..|s| - 1], c);
    }
  }

  lemma {:induction false} SkipLeadingShortens(s: string, c: char)
    ensures |SkipLeading(s, c)| <= |s|
    ensures s != [] && s[0] == c ==> |SkipLeading(s, c)| < |s|
  {
    if s != [] && s[0] == c {
      SkipLeadingShortens(s[1..], c);
    }
  }

  lemma {:induction false} TrimShortens(s: string)
    ensures |TrimRight(s)| < |s| || TrimRight(s) == s
    ensures |TrimLeft(s)| < |s| || TrimLeft(s) == s
    decreases |s|
  {
    if s != [] {
      TrimShortens(s[1..]);
      TrimShortens(s[..|s| - 1]);
    }
  }

  lemma TrimTextShortens(s: string)
    ensures |TrimText(s)| < |s| || TrimText(s) == s
  {
    TrimShortens(s);
    TrimShortens(TrimLeft(s));
  }

  /** What the branches of `host_without_port` leave alone. */
  predicate Stable(d: string) {
    TrimText(d) == [] || (TrimText(d) == d && d[0] != '[' && ':' !in d)
  }

  lemma NormalizedForm(raw: string)
    ensures var d := NormalizeDomain(raw); Lower(d) == d && SkipTrailing(d, '.') == d
  {
    var host := HostWithoutPort(raw);
    var base := SkipTrailing(if host.Some? then host.value else raw, '.');
    SkipTrailingEnd(if host.Some? then host.value else raw, '.');
    var d := Lower(base);
    if d != [] {
      assert d[|d| - 1] == LowerChar(base[|base| - 1]);
    }
    assert Lower(d) == d;
  }

  lemma HostShrinks(d: string)
    requires !Stable(d)
    ensures HostWithoutPort(d).Some? && |HostWithoutPort(d).value| < |d|
  {
    var trimmed := TrimText(d);
    TrimTextShortens(d);
    UntilAbsent(trimmed, ':');
    UntilAbsent(trimmed, ']');
    var inner := Until(trimmed, ']');
    SkipLeadingShortens(inner, '[');
    if trimmed[0] == '[' {
      assert inner[0] == '[';
    }
  }

  /** Normalising a host twice is normalising it once exactly when the result is stable. */
  lemma NormalizeIdempotentIff(raw: string)
    ensures var d := NormalizeDomain(raw); NormalizeDomain(d) == d <==> Stable(d)
  {
    var d := NormalizeDomain(raw);
    NormalizedForm(raw);
    if Stable(d) {
      StableNormal(d);
    } else {
      HostShrinks(d);
      SkipTrailingEnd(HostWithoutPort(d).value, '.');
    }
  }

  lemma StableNormal(d: string)
    requires Stable(d) && Lower(d) == d && SkipTrailing(d, '.') == d
    ensures NormalizeDomain(d) == d
  {
    UntilAbsent(d, ':');
  }

  /** In particular a name over the admitted alphabet is stable. */
  lemma PlainIsStable(d: string)
    requires PlainDomain(d)
    ensures Stable(d)
  {
    assert !IsSpace(d[0]) && !IsSpace(d[|d| - 1]);
  }

  /** The bracketed form is not stable: normalising `[::1]` twice empties it. */
  lemma NormalizeLosesBrackets()
    ensures NormalizeDomain("[::1]") == "::1" && NormalizeDomain("::1") == ""
  {
    var s := "[::1]";
    assert TrimText(s) == s;
    assert Until("]", ']') == "";
    assert Until("1]", ']') == "1" by { assert "1]"[1..] == "]"; }
    assert Until(":1]", ']') == ":1" by { assert ":1]"[1..] == "1]"; }
    assert Until("::1]", ']') == "::1" by { assert "::1]"[1..] == ":1]"; }
    assert Until(s, ']') == "[::1" by { assert s[1..] == "::1]"; }
    assert SkipLeading("[::1", '[') == "::1" by { assert "[::1"[1..] == "::1"; }
    assert SkipTrailing("::1", '.') == "::1";
    assert Lower("::1") == "::1";
    assert TrimText("::1") == "::1";
    assert Until("::1", ':') == "";
  }

  // ----- The www alias -----

  const WWW: string := "www."

  function WwwAliasBase(domain: string): Option<string> {
    if WWW <= domain && domain[4..] != [] && !(WWW <= domain[4..]) then Some(domain[4..]) else None
  }

  /** How many non-empty labels `s` adds, given whether a label is already open. */
  function Labels(s: string, open: bool): nat {
    if s == [] then 0
    else if s[0] == '.' then Labels(s[1..], false)
    else (if open then 0 else 1) + Labels(s[1..], true)
  }

  predicate AllowsWwwAlias(route: Route) {
    route.rules.wwwAlias && !(WWW <= route.domain) && Labels(route.domain, false) == 2
  }

  /** An alias names exactly the host behind one `www.`. */
  lemma AliasBaseIff(domain: string, base: string)
    ensures WwwAliasBase(domain) == Some(base) <==> domain == "www." + base && base != [] && !("www." <= base)
  {
    if domain == "www." + base {
      assert domain[4..] == base;
    }
    if WWW <= domain {
      assert domain == WWW + domain[4..];
    }
  }

  lemma {:induction false} LabelThenDot(a: string, rest: string, open: bool)
    requires a != [] && '.' !in a && (rest == [] || rest[0] == '.')
    ensures Labels(a + rest, open) == (if open then 0 else 1) + Labels(rest, false)
  {
    var s := a + rest;
    assert s[1..] == a[1..] + rest;
    if |a| == 1 {
      assert a[1..] + rest == rest;
    } else {
      LabelThenDot(a[1..], rest, true);
    }
  }

  /** Labels are the non-empty stretches between dots. */
  lemma LabelsMean(a: string, rest: string)
    requires '.' !in a
    ensures Labels(a, false) == if a == [] then 0 else 1
    ensures Labels(a + "." + rest, false) == (if a == [] then 0 else 1) + Labels(rest, false)
  {
    var dotted := "." + rest;
    assert dotted[1..] == rest;
    assert a + "." + rest == a + dotted;
    if a == [] {
      assert a + dotted == dotted;
    } else {
      LabelThenDot(a, dotted, false);
      LabelThenDot(a, [], false);
      assert a + [] == a;
    }
  }

  /** A name of two labels may be reached by its alias exactly when its route asks for it and it is not one itself. */
  lemma ApexAllowsIff(route: Route, a: string, b: string)
    requires a != [] && '.' !in a && b != [] && '.' !in b && route.domain == a + "." + b
    ensures AllowsWwwAlias(route) <==> route.rules.wwwAlias && a != "www"
  {
    LabelsMean(a, b);
    LabelsMean(b, []);
    var d := route.domain;
    if WWW <= d {
      assert d[3] == '.' && forall k :: 0 <= k < 3 ==> d[k] != '.';
      assert d[|a|] == '.';
      assert a == d[..|a|];
      assert WWW[..3] == "www";
    }
    if a == "www" {
      assert d == WWW + b;
    }
  }

  /** A longer or a shorter name may not. */
  lemma OtherNamesRefuse(route: Route, a: string, b: string, c: string)
    requires a != [] && '.' !in a && b != [] && '.' !in b && c != [] && '.' !in c
    ensures route.domain == a ==> !AllowsWwwAlias(route)
    ensures route.domain == a + "." + (b + "." + c) ==> !AllowsWwwAlias(route)
  {
    LabelsMean(a, b + "." + c);
    LabelsMean(b, c);
    LabelsMean(c, []);
  }

  /** The API outranks the container engines, which rank alike, and they outrank static routes. */
  lemma SourcesRank()
    ensures SourcePriority(Static) < SourcePriority(Docker) == SourcePriority(Podman) < SourcePriority(Api)
  {
  }

  // ----- Choice of a path within one route -----

  /** Longest matching prefix; the last of equally long ones, as `max_by_key` returns it. */
  function BestPath(paths: seq<PathRoute>, path: Bytes): (r: Option<PathRoute>)
    ensures r.Some? <==> exists k :: 0 <= k < |paths| && Matches(paths[k].prefix, path)
    ensures r.Some? ==> r.value in paths && Matches(r.value.prefix, path)
    ensures r.Some? ==>
              forall k :: 0 <= k < |paths| && Matches(paths[k].prefix, path) ==>
                            |paths[k].prefix| <= |r.value.prefix|
  {
    if paths == [] then None
    else
      var before, last := BestPath(paths[..|paths| - 1], path), paths[|paths| - 1];
      assert forall k :: 0 <= k < |paths| - 1 ==> paths[..|paths| - 1][k] == paths[k];
      if !Matches(last.prefix, path) then before
      else if before.Some? && |before.value.prefix| > |last.prefix| then before
      else Some(last)
  }

  predicate AcceptedPrefix(p: PathRoute) {
    ValidUtf8(p.prefix) && ValidatePathPrefix(p.prefix).Ok?
  }

  predicate AcceptedPaths(route: Route) {
    forall k :: 0 <= k < |route.paths| ==> AcceptedPrefix(route.paths[k])
  }

  /** With accepted prefixes the chosen one is the most specific segment-wise match. */
  lemma BestPathMostSpecific(route: Route, path: Bytes, p: PathRoute)
    requires AcceptedPaths(route) && CanonicalShape(path)
    requires p in route.paths && Matches(p.prefix, path)
    ensures BestPath(route.paths, path).Some?
    ensures var best := BestPath(route.paths, path).value.prefix;
            && p.prefix != [] && best != []
            && Segments(best) <= Segments(path)
            && |Segments(p.prefix)| <= |Segments(best)|
            && (|Segments(p.prefix)| == |Segments(best)| ==> p.prefix == best)
  {
    var best := BestPath(route.paths, path).value;
    AcceptedMember(route, p);
    AcceptedMember(route, best);
    LongerIsMoreSpecific(p, best, path);
  }

  lemma AcceptedMember(route: Route, p: PathRoute)
    requires AcceptedPaths(route) && p in route.paths
    ensures AcceptedPrefix(p)
  {
  }

  lemma LongerIsMoreSpecific(p: PathRoute, best: PathRoute, path: Bytes)
    requires AcceptedPrefix(p) && AcceptedPrefix(best) && CanonicalShape(path)
    requires Matches(p.prefix, path) && Matches(best.prefix, path) && |p.prefix| <= |best.prefix|
    ensures p.prefix != [] && best.prefix != []
    ensures Segments(best.prefix) <= Segments(path)
    ensures |Segments(p.prefix)| <= |Segments(best.prefix)|
    ensures |Segments(p.prefix)| == |Segments(best.prefix)| ==> p.prefix == best.prefix
  {
    MatchesIffSegmentPrefix(best.prefix, path);
    LongestIsMostSpecific(p.prefix, best.prefix, path);
    LongestIsMostSpecific(best.prefix, p.prefix, path);
    if |p.prefix| == |best.prefix| {
      TiedPrefixesEqual(p.prefix, best.prefix, path);
    }
  }
}
