// Middleware chains: depth-capped expansion and the settings it yields (edge/crates/http-proxy/src/lib.rs).
module Middleware {
  import opened Text

  /** The value of one setting; only copied. */
  type Value = string

  datatype Setting =
    | BasicAuth | ForwardAuth | DigestAuth | RequestBuffering | ResponseBuffering | Compression
    | ContentTypeAutodetect | Retry | CircuitBreaking | InFlightLimit | ClientCertForwarding
    | StickySessions | PassiveHealth | TrafficMirroring

  datatype Definition = Definition(
    chain: seq<string>,
    basicAuth: Option<Value>, digestAuth: Option<Value>, forwardAuth: Option<Value>,
    requestBuffering: Option<Value>, responseBuffering: Option<Value>, compression: Option<Value>,
    contentTypeAutodetect: Option<Value>, retry: Option<Value>, circuitBreaker: Option<Value>,
    inFlightLimit: Option<Value>, passTlsClientCert: Option<Value>)

  datatype Rules = Rules(
    middlewares: map<string, Definition>, chains: map<string, seq<string>>,
    requestBuffering: Value, responseBuffering: Value, compression: Value, contentTypeAutodetect: Value,
    retry: Value, circuitBreaker: Value, inFlightLimit: Value, stickySessions: Value, passiveHealth: Value,
    trafficMirroring: Value, clientCertForwarding: Value)

  // ----- Expansion -----

  const MAX_DEPTH: nat := 8

  function Expand(rules: Rules, names: seq<string>, depth: nat): seq<string>
    decreases MAX_DEPTH + 1 - depth, |names|, 0
  {
    if depth > MAX_DEPTH || names == [] then []
    else ExpandOne(rules, names[0], depth) + Expand(rules, names[1..], depth)
  }

  function ExpandOne(rules: Rules, name: string, depth: nat): seq<string>
    requires depth <= MAX_DEPTH
    decreases MAX_DEPTH + 1 - depth, 0, 1
  {
    if name in rules.chains then Expand(rules, rules.chains[name], depth + 1)
    else [name] + if name in rules.middlewares then Expand(rules, rules.middlewares[name].chain, depth + 1) else []
  }

  /** Terminates on every chain graph, cyclic ones included. */
  method ExpandMiddlewareNames(names: seq<string>, rules: Rules, output: seq<string>, depth: nat) returns (r: seq<string>)
    ensures r == output + Expand(rules, names, depth)
    decreases if depth > MAX_DEPTH then 0 else MAX_DEPTH + 1 - depth, 1
  {
    r := output;
    if depth > MAX_DEPTH {
      return;
    }
    for i := 0 to |names|
      invariant r + Expand(rules, names[i..], depth) == output + Expand(rules, names, depth)
    {
      ExpandHead(rules, names, i, depth, r);
      r := ExpandName(names[i], rules, r, depth);
    }
  }

  method ExpandName(name: string, rules: Rules, output: seq<string>, depth: nat) returns (r: seq<string>)
    requires depth <= MAX_DEPTH
    ensures r == output + ExpandOne(rules, name, depth)
    decreases MAX_DEPTH + 1 - depth, 0
  {
    if name in rules.chains {
      r := ExpandMiddlewareNames(rules.chains[name], rules, output, depth + 1);
    } else {
      r := output + [name];
      ghost var more := Expand(rules, Children(rules, name), depth + 1);
      Joined(output, [name], more);
      if name in rules.middlewares {
        r := ExpandMiddlewareNames(rules.middlewares[name].chain, rules, r, depth + 1);
      }
      ExpandOneIsOwnThenChildren(rules, name, depth);
    }
  }

  lemma Joined(a: seq<string>, b: seq<string>, c: seq<string>)
    ensures a + b + c == a + (b + c) && a + b + [] == a + b
  {
  }

  lemma ExpandHead(rules: Rules, names: seq<string>, i: nat, depth: nat, before: seq<string>)
    requires i < |names| && depth <= MAX_DEPTH
    ensures before + ExpandOne(rules, names[i], depth) + Expand(rules, names[i + 1..], depth) ==
            before + Expand(rules, names[i..], depth)
  {
    assert names[i..][1..] == names[i + 1..];
  }

  // ----- The uncapped meaning: preorders of the unfolding, level by level -----

  datatype Tree = Tree(name: string, kids: seq<Tree>)

  function Children(rules: Rules, name: string): seq<string> {
    if name in rules.chains then rules.chains[name]
    else if name in rules.middlewares then rules.middlewares[name].chain
    else []
  }

  /** The first `levels` levels of the unfolding of any chain graph, cyclic ones included. */
  function Unfold(rules: Rules, names: seq<string>, levels: nat): seq<Tree>
    decreases levels, |names|
  {
    if levels == 0 || names == [] then []
    else
      [Tree(names[0], Unfold(rules, Children(rules, names[0]), levels - 1))] + Unfold(rules, names[1..], levels)
  }

  /** A chain name stands for its members only; any other name stands for itself, then its members. */
  function Own(rules: Rules, name: string): seq<string> {
    if name in rules.chains then [] else [name]
  }

  function Preorder(rules: Rules, forest: seq<Tree>): seq<string>
    decreases forest
  {
    if forest == [] then []
    else Own(rules, forest[0].name) + Preorder(rules, forest[0].kids) + Preorder(rules, forest[1..])
  }

  /** The names that the members of one level, counted from zero, stand for. */
  function OwnAt(rules: Rules, names: seq<string>, level: nat): seq<string>
    decreases level, |names|
  {
    if names == [] then []
    else
      (if level == 0 then Own(rules, names[0]) else OwnAt(rules, Children(rules, names[0]), level - 1)) +
      OwnAt(rules, names[1..], level)
  }

  lemma ExpandOneIsOwnThenChildren(rules: Rules, name: string, depth: nat)
    requires depth <= MAX_DEPTH
    ensures ExpandOne(rules, name, depth) == Own(rules, name) + Expand(rules, Children(rules, name), depth + 1)
  {
  }

  lemma PreorderCons(rules: Rules, t: Tree, forest: seq<Tree>)
    ensures Preorder(rules, [t] + forest) == Own(rules, t.name) + Preorder(rules, t.kids) + Preorder(rules, forest)
  {
    assert ([t] + forest)[1..] == forest;
  }

  lemma PreorderUnfold(rules: Rules, names: seq<string>, levels: nat)
    requires names != [] && levels > 0
    ensures Preorder(rules, Unfold(rules, names, levels)) ==
            Own(rules, names[0]) + Preorder(rules, Unfold(rules, Children(rules, names[0]), levels - 1)) +
            Preorder(rules, Unfold(rules, names[1..], levels))
  {
    PreorderCons(rules, Tree(names[0], Unfold(rules, Children(rules, names[0]), levels - 1)), Unfold(rules, names[1..], levels));
  }

  /** On every chain graph the expansion is the preorder of the unfolding down to the cap. */
  lemma {:induction false} ExpandIsCutPreorder(rules: Rules, names: seq<string>, depth: nat)
    requires depth <= MAX_DEPTH + 1
    ensures Expand(rules, names, depth) == Preorder(rules, Unfold(rules, names, MAX_DEPTH + 1 - depth))
    decreases MAX_DEPTH + 1 - depth, |names|
  {
    if names != [] && depth <= MAX_DEPTH {
      var kids := Children(rules, names[0]);
      ExpandIsCutPreorder(rules, kids, depth + 1);
      ExpandIsCutPreorder(rules, names[1..], depth);
      ExpandOneIsOwnThenChildren(rules, names[0], depth);
      PreorderUnfold(rules, names, MAX_DEPTH + 1 - depth);
    }
  }

  /** The same preorder, read off the chain graph. */
  function Spelled(rules: Rules, names: seq<string>, levels: nat): seq<string>
    decreases levels, |names|
  {
    if levels == 0 || names == [] then []
    else
      Own(rules, names[0]) + Spelled(rules, Children(rules, names[0]), levels - 1) + Spelled(rules, names[1..], levels)
  }

  lemma {:induction false} SpelledIsPreorder(rules: Rules, names: seq<string>, levels: nat)
    ensures Preorder(rules, Unfold(rules, names, levels)) == Spelled(rules, names, levels)
    decreases levels, |names|
  {
    if names != [] && levels > 0 {
      SpelledIsPreorder(rules, Children(rules, names[0]), levels - 1);
      SpelledIsPreorder(rules, names[1..], levels);
      PreorderUnfold(rules, names, levels);
    }
  }

  /** One level more adds exactly what that level stands for. */
  lemma {:induction false} NextLevel(rules: Rules, names: seq<string>, levels: nat)
    ensures |Spelled(rules, names, levels + 1)| == |Spelled(rules, names, levels)| + |OwnAt(rules, names, levels)|
    ensures OwnAt(rules, names, levels) == [] ==> Spelled(rules, names, levels + 1) == Spelled(rules, names, levels)
    decreases levels, |names|
  {
    if names != [] {
      var kids, rest := Children(rules, names[0]), names[1..];
      NextLevel(rules, rest, levels);
      if levels > 0 {
        NextLevel(rules, kids, levels - 1);
        Grows(Own(rules, names[0]), Spelled(rules, kids, levels - 1), Spelled(rules, kids, levels),
              Spelled(rules, rest, levels), Spelled(rules, rest, levels + 1),
              OwnAt(rules, kids, levels - 1), OwnAt(rules, rest, levels));
      }
    }
  }

  lemma Grows(
    own: seq<string>, a: seq<string>, more: seq<string>, b: seq<string>, rest: seq<string>, x: seq<string>, y: seq<string>)
    requires |more| == |a| + |x| && (x == [] ==> more == a)
    requires |rest| == |b| + |y| && (y == [] ==> rest == b)
    ensures |own + more + rest| == |own + a + b| + |x + y|
    ensures x + y == [] ==> own + more + rest == own + a + b
  {
    if x + y == [] {
      assert x == [] && y == [];
    }
  }

  predicate NothingBetween(rules: Rules, names: seq<string>, from: nat, until: nat) {
    forall level: nat :: from <= level < until ==> OwnAt(rules, names, level) == []
  }

  /** Between two depths the preorders agree exactly when the levels between stand for nothing. */
  lemma {:induction false} LevelsBetween(rules: Rules, names: seq<string>, from: nat, until: nat)
    requires from <= until
    ensures var shorter, longer := Spelled(rules, names, from), Spelled(rules, names, until);
            |shorter| <= |longer| && (longer == shorter <==> NothingBetween(rules, names, from, until))
    decreases until
  {
    if from < until {
      LevelsBetween(rules, names, from, until - 1);
      NextLevel(rules, names, until - 1);
      assert NothingBetween(rules, names, from, until) <==>
             NothingBetween(rules, names, from, until - 1) && OwnAt(rules, names, until - 1) == [];
    }
  }

  /** The cap changes nothing: however much deeper one expands, the result is the same. */
  ghost predicate CapHarmless(rules: Rules, names: seq<string>) {
    forall levels: nat :: levels > MAX_DEPTH ==> Preorder(rules, Unfold(rules, names, levels)) == Expand(rules, names, 0)
  }

  /** No member of that level or a deeper one stands for a name. */
  ghost predicate NothingFrom(rules: Rules, names: seq<string>, from: nat) {
    forall level: nat :: level >= from ==> OwnAt(rules, names, level) == []
  }

  /** On every chain graph that is so exactly when nothing deeper than eight levels down stands for a name. */
  lemma CapHarmlessIff(rules: Rules, names: seq<string>)
    ensures CapHarmless(rules, names) <==> NothingFrom(rules, names, MAX_DEPTH + 1)
  {
    ExpandIsCutPreorder(rules, names, 0);
    SpelledIsPreorder(rules, names, MAX_DEPTH + 1);
    if CapHarmless(rules, names) {
      forall level: nat | level >= MAX_DEPTH + 1
        ensures OwnAt(rules, names, level) == []
      {
        assert Preorder(rules, Unfold(rules, names, level + 1)) == Expand(rules, names, 0);
        SpelledIsPreorder(rules, names, level + 1);
        LevelsBetween(rules, names, MAX_DEPTH + 1, level + 1);
      }
    }
    if NothingFrom(rules, names, MAX_DEPTH + 1) {
      forall levels: nat | levels > MAX_DEPTH
        ensures Preorder(rules, Unfold(rules, names, levels)) == Expand(rules, names, 0)
      {
        SpelledIsPreorder(rules, names, levels);
        LevelsBetween(rules, names, MAX_DEPTH + 1, levels);
      }
    }
  }

  // ----- Finitely many levels decide it -----

  /** A walk down the chain graph from one of the names to a name that stands for itself. */
  predicate Leads(rules: Rules, names: seq<string>, path: seq<string>) {
    && path != [] && path[0] in names && path[|path| - 1] !in rules.chains
    && forall k :: 0 <= k < |path| - 1 ==> Follows(rules, path[k], path[k + 1])
  }

  predicate Follows(rules: Rules, name: string, next: string) {
    next in Children(rules, name)
  }

  /** A level that stands for something is the end of a walk. */
  lemma {:induction false} LevelHasPath(rules: Rules, names: seq<string>, level: nat) returns (path: seq<string>)
    requires OwnAt(rules, names, level) != []
    ensures |path| == level + 1 && Leads(rules, names, path)
    decreases level, |names|
  {
    var first, rest := names[0], names[1..];
    if OwnAt(rules, rest, level) != [] {
      path := LevelHasPath(rules, rest, level);
    } else if level == 0 {
      path := [first];
    } else {
      var below := LevelHasPath(rules, Children(rules, first), level - 1);
      path := [first] + below;
      forall k | 0 <= k < |path| - 1
        ensures Follows(rules, path[k], path[k + 1])
      {
        if k > 0 { assert Follows(rules, below[k - 1], below[k]); }
      }
    }
  }

  lemma {:induction false} PathHasLevel(rules: Rules, names: seq<string>, path: seq<string>)
    requires Leads(rules, names, path)
    ensures OwnAt(rules, names, |path| - 1) != []
    decreases |path|, |names|
  {
    var level := |path| - 1;
    if path[0] != names[0] {
      PathHasLevel(rules, names[1..], path);
    } else if level > 0 {
      assert Follows(rules, path[0], path[1]);
      var below := path[1..];
      forall k | 0 <= k < |below| - 1
        ensures Follows(rules, below[k], below[k + 1])
      {
        assert Follows(rules, path[k + 1], path[k + 1 + 1]);
      }
      PathHasLevel(rules, Children(rules, path[0]), below);
    }
  }

  /** The names that have children at all. */
  function Inner(rules: Rules): set<string> {
    rules.chains.Keys + rules.middlewares.Keys
  }

  /** More names than a set has members: one of them repeats. */
  lemma {:induction false} Pigeonhole(xs: seq<string>, pool: set<string>) returns (i: nat, j: nat)
    requires |xs| > |pool| && forall k :: 0 <= k < |xs| ==> xs[k] in pool
    ensures i < j < |xs| && xs[i] == xs[j]
    decreases |xs|
  {
    var init, last := xs[..|xs| - 1], xs[|xs| - 1];
    if last in init {
      i, j :| 0 <= i < |init| && init[i] == last && j == |xs| - 1;
    } else {
      i, j := Pigeonhole(init, pool - {last});
    }
  }

  /** A long walk can be shortened by a loop, of at most as many steps as there are names with children. */
  lemma Shortened(rules: Rules, names: seq<string>, path: seq<string>) returns (shorter: seq<string>)
    requires Leads(rules, names, path) && |path| > |Inner(rules)| + 1
    ensures Leads(rules, names, shorter) && |path| - |Inner(rules)| <= |shorter| < |path|
  {
    var n := |Inner(rules)| + 1;
    forall k | 0 <= k < n
      ensures path[k] in Inner(rules)
    {
      assert Follows(rules, path[k], path[k + 1]);
    }
    var i, j := Pigeonhole(path[..n], Inner(rules));
    shorter := path[..i] + path[j..];
    CutLoop(rules, names, path, i, j);
  }

  lemma CutLoop(rules: Rules, names: seq<string>, path: seq<string>, i: nat, j: nat)
    requires Leads(rules, names, path) && i < j < |path| && path[i] == path[j]
    ensures Leads(rules, names, path[..i] + path[j..])
  {
    var shorter := path[..i] + path[j..];
    forall k | 0 <= k < |shorter| - 1
      ensures Follows(rules, shorter[k], shorter[k + 1])
    {
      var at := if k < i then k else k + (j - i);
      assert Follows(rules, path[at], path[at + 1]);
    }
  }

  /** As many levels as there are names with children decide about all deeper ones. */
  lemma {:induction false} EarlyLevel(rules: Rules, names: seq<string>, from: nat, level: nat)
    requires level >= from > 0 && OwnAt(rules, names, level) != []
    ensures !NothingBetween(rules, names, from, from + |Inner(rules)|)
    decreases level
  {
    if level >= from + |Inner(rules)| {
      var path := LevelHasPath(rules, names, level);
      var shorter := Shortened(rules, names, path);
      PathHasLevel(rules, names, shorter);
      EarlyLevel(rules, names, from, |shorter| - 1);
    }
  }

  /**
   * On every chain graph, cyclic ones included, the cap changes nothing exactly when, below it, the first
   * levels stand for nothing, as many of them as there are chains and middlewares.
   */
  lemma CapHarmlessFinitely(rules: Rules, names: seq<string>)
    ensures CapHarmless(rules, names) <==>
            NothingBetween(rules, names, MAX_DEPTH + 1, MAX_DEPTH + 1 + |rules.chains.Keys + rules.middlewares.Keys|)
  {
    CapHarmlessIff(rules, names);
    forall level: nat | level >= MAX_DEPTH + 1 && OwnAt(rules, names, level) != []
      ensures !NothingBetween(rules, names, MAX_DEPTH + 1, MAX_DEPTH + 1 + |Inner(rules)|)
    {
      EarlyLevel(rules, names, MAX_DEPTH + 1, level);
    }
  }

  /** A middleware that chains to itself is cut by the cap. */
  lemma SelfChainIsCut(rules: Rules, m: string)
    requires m !in rules.chains && m in rules.middlewares && rules.middlewares[m].chain == [m]
    ensures !CapHarmless(rules, [m])
  {
    SelfChainLevel(rules, m, MAX_DEPTH + 1);
    CapHarmlessIff(rules, [m]);
  }

  lemma {:induction false} SelfChainLevel(rules: Rules, m: string, level: nat)
    requires m !in rules.chains && m in rules.middlewares && rules.middlewares[m].chain == [m]
    ensures OwnAt(rules, [m], level) == [m]
  {
    assert [m][1..] == [];
    if level > 0 {
      SelfChainLevel(rules, m, level - 1);
    }
  }

  // ----- Finite unfoldings -----

  function Names(forest: seq<Tree>): (names: seq<string>)
    ensures |names| == |forest|
  {
    if forest == [] then [] else [forest[0].name] + Names(forest[1..])
  }

  /** The forest follows the chain graph all the way down. */
  predicate Unfolds(rules: Rules, forest: seq<Tree>)
    decreases forest
  {
    forest == [] ||
    (&& Names(forest[0].kids) == Children(rules, forest[0].name)
     && Unfolds(rules, forest[0].kids) && Unfolds(rules, forest[1..]))
  }

  function Height(forest: seq<Tree>): nat
    decreases forest
  {
    if forest == [] then 0
    else
      var here, rest := 1 + Height(forest[0].kids), Height(forest[1..]);
      if here > rest then here else rest
  }

  /** The members of one level. */
  function Level(rules: Rules, names: seq<string>, level: nat): seq<string>
    decreases level, |names|
  {
    if names == [] then []
    else
      (if level == 0 then [names[0]] else Level(rules, Children(rules, names[0]), level - 1)) + Level(rules, names[1..], level)
  }

  /** A finite unfolding is the one all levels of unfolding arrive at; in particular it is unique. */
  lemma {:induction false} FiniteIsUnfold(rules: Rules, forest: seq<Tree>, levels: nat)
    requires Unfolds(rules, forest) && Height(forest) <= levels
    ensures Unfold(rules, Names(forest), levels) == forest && Level(rules, Names(forest), levels) == []
    decreases forest
  {
    if forest != [] {
      var t, rest := forest[0], forest[1..];
      assert Names(forest)[0] == t.name && Names(forest)[1..] == Names(rest);
      FiniteIsUnfold(rules, t.kids, levels - 1);
      FiniteIsUnfold(rules, rest, levels);
      assert forest == [t] + rest;
    }
  }

  lemma {:induction false} FiniteWhenLevelEmpty(rules: Rules, names: seq<string>, levels: nat)
    requires Level(rules, names, levels) == []
    ensures var forest := Unfold(rules, names, levels);
            Names(forest) == names && Unfolds(rules, forest) && Height(forest) <= levels
    decreases levels, |names|
  {
    if names != [] {
      FiniteWhenLevelEmpty(rules, Children(rules, names[0]), levels - 1);
      FiniteWhenLevelEmpty(rules, names[1..], levels);
      var t := Tree(names[0], Unfold(rules, Children(rules, names[0]), levels - 1));
      var rest := Unfold(rules, names[1..], levels);
      assert ([t] + rest)[1..] == rest;
    }
  }

  /** A chain graph has a finite unfolding of at most `levels` levels exactly when the next level has no members. */
  lemma FiniteIff(rules: Rules, names: seq<string>, levels: nat)
    ensures (exists forest :: Unfolds(rules, forest) && Names(forest) == names && Height(forest) <= levels) <==>
            Level(rules, names, levels) == []
  {
    if forest :| Unfolds(rules, forest) && Names(forest) == names && Height(forest) <= levels {
      FiniteIsUnfold(rules, forest, levels);
    }
    if Level(rules, names, levels) == [] {
      FiniteWhenLevelEmpty(rules, names, levels);
    }
  }

  /** Nesting of at most nine levels, the ones from zero to the cap: the expansion is the whole preorder. */
  lemma ShallowIsWhole(rules: Rules, forest: seq<Tree>)
    requires Unfolds(rules, forest) && Height(forest) <= MAX_DEPTH + 1
    ensures Expand(rules, Names(forest), 0) == Preorder(rules, forest)
  {
    ExpandIsCutPreorder(rules, Names(forest), 0);
    FiniteIsUnfold(rules, forest, MAX_DEPTH + 1);
  }

  // ----- Effective settings -----

  function Defined(d: Definition, s: Setting): Option<Value> {
    match s
    case BasicAuth => d.basicAuth
    case ForwardAuth => d.forwardAuth
    case DigestAuth => d.digestAuth
    case RequestBuffering => d.requestBuffering
    case ResponseBuffering => d.responseBuffering
    case Compression => d.compression
    case ContentTypeAutodetect => d.contentTypeAutodetect
    case Retry => d.retry
    case CircuitBreaking => d.circuitBreaker
    case InFlightLimit => d.inFlightLimit
    case ClientCertForwarding => d.passTlsClientCert
    case StickySessions => None
    case PassiveHealth => None
    case TrafficMirroring => None
  }

  /** What the domain rules say before any middleware; the authentications start unset. */
  function Initial(rules: Rules, s: Setting): Option<Value> {
    match s
    case BasicAuth => None
    case ForwardAuth => None
    case DigestAuth => None
    case RequestBuffering => Some(rules.requestBuffering)
    case ResponseBuffering => Some(rules.responseBuffering)
    case Compression => Some(rules.compression)
    case ContentTypeAutodetect => Some(rules.contentTypeAutodetect)
    case Retry => Some(rules.retry)
    case CircuitBreaking => Some(rules.circuitBreaker)
    case InFlightLimit => Some(rules.inFlightLimit)
    case ClientCertForwarding => Some(rules.clientCertForwarding)
    case StickySessions => Some(rules.stickySessions)
    case PassiveHealth => Some(rules.passiveHealth)
    case TrafficMirroring => Some(rules.trafficMirroring)
  }

  predicate Defines(rules: Rules, name: string, s: Setting) {
    name in rules.middlewares && Defined(rules.middlewares[name], s).Some?
  }

  datatype Settings = Settings(
    requestBuffering: Value, responseBuffering: Value, compression: Value, contentTypeAutodetect: Value,
    retry: Value, circuitBreaker: Value, inFlightLimit: Value, stickySessions: Value, passiveHealth: Value,
    trafficMirroring: Value, clientCertForwarding: Value,
    basicAuth: Option<Value>, digestAuth: Option<Value>, forwardAuth: Option<Value>)

  function Get(e: Settings, s: Setting): Option<Value> {
    match s
    case BasicAuth => e.basicAuth
    case ForwardAuth => e.forwardAuth
    case DigestAuth => e.digestAuth
    case RequestBuffering => Some(e.requestBuffering)
    case ResponseBuffering => Some(e.responseBuffering)
    case Compression => Some(e.compression)
    case ContentTypeAutodetect => Some(e.contentTypeAutodetect)
    case Retry => Some(e.retry)
    case CircuitBreaking => Some(e.circuitBreaker)
    case InFlightLimit => Some(e.inFlightLimit)
    case ClientCertForwarding => Some(e.clientCertForwarding)
    case StickySessions => Some(e.stickySessions)
    case PassiveHealth => Some(e.passiveHealth)
    case TrafficMirroring => Some(e.trafficMirroring)
  }

  function Over(definition: Option<Value>, current: Value): Value {
    if definition.Some? then definition.value else current
  }

  function Applied(e: Settings, d: Definition): Settings {
    Settings(
      Over(d.requestBuffering, e.requestBuffering), Over(d.responseBuffering, e.responseBuffering),
      Over(d.compression, e.compression), Over(d.contentTypeAutodetect, e.contentTypeAutodetect),
      Over(d.retry, e.retry), Over(d.circuitBreaker, e.circuitBreaker), Over(d.inFlightLimit, e.inFlightLimit),
      e.stickySessions, e.passiveHealth, e.trafficMirroring, Over(d.passTlsClientCert, e.clientCertForwarding),
      if d.basicAuth.Some? then d.basicAuth else e.basicAuth,
      if d.digestAuth.Some? then d.digestAuth else e.digestAuth,
      if d.forwardAuth.Some? then d.forwardAuth else e.forwardAuth)
  }

  /** Every setting the middleware defines is taken over; every other one stays. */
  lemma AppliedOverrides(e: Settings, d: Definition, s: Setting)
    ensures Get(Applied(e, d), s) == if Defined(d, s).Some? then Defined(d, s) else Get(e, s)
  {
  }

  class EffectiveMiddleware {
    var requestBuffering: Value
    var responseBuffering: Value
    var compression: Value
    var contentTypeAutodetect: Value
    var retry: Value
    var circuitBreaker: Value
    var inFlightLimit: Value
    var stickySessions: Value
    var passiveHealth: Value
    var trafficMirroring: Value
    var clientCertForwarding: Value
    var basicAuth: Option<Value>
    var digestAuth: Option<Value>
    var forwardAuth: Option<Value>

    function Current(): Settings
      reads this
    {
      Settings(requestBuffering, responseBuffering, compression, contentTypeAutodetect, retry, circuitBreaker,
               inFlightLimit, stickySessions, passiveHealth, trafficMirroring, clientCertForwarding,
               basicAuth, digestAuth, forwardAuth)
    }

    constructor FromDomain(rules: Rules)
      ensures forall s :: Get(Current(), s) == Initial(rules, s)
    {
      requestBuffering := rules.requestBuffering;
      responseBuffering := rules.responseBuffering;
      compression := rules.compression;
      contentTypeAutodetect := rules.contentTypeAutodetect;
      retry := rules.retry;
      circuitBreaker := rules.circuitBreaker;
      inFlightLimit := rules.inFlightLimit;
      stickySessions := rules.stickySessions;
      passiveHealth := rules.passiveHealth;
      trafficMirroring := rules.trafficMirroring;
      clientCertForwarding := rules.clientCertForwarding;
      basicAuth := None;
      digestAuth := None;
      forwardAuth := None;
    }

    method ApplyAuth(d: Definition)
      modifies this`basicAuth, this`forwardAuth, this`digestAuth
      ensures basicAuth == if d.basicAuth.Some? then d.basicAuth else old(basicAuth)
      ensures forwardAuth == if d.forwardAuth.Some? then d.forwardAuth else old(forwardAuth)
      ensures digestAuth == if d.digestAuth.Some? then d.digestAuth else old(digestAuth)
    {
      if d.basicAuth.Some? { basicAuth := d.basicAuth; }
      if d.forwardAuth.Some? { forwardAuth := d.forwardAuth; }
      if d.digestAuth.Some? { digestAuth := d.digestAuth; }
    }

    method ApplyBody(d: Definition)
      modifies this`requestBuffering, this`responseBuffering, this`compression, this`contentTypeAutodetect
      ensures requestBuffering == Over(d.requestBuffering, old(requestBuffering))
      ensures responseBuffering == Over(d.responseBuffering, old(responseBuffering))
      ensures compression == Over(d.compression, old(compression))
      ensures contentTypeAutodetect == Over(d.contentTypeAutodetect, old(contentTypeAutodetect))
    {
      if d.requestBuffering.Some? { requestBuffering := d.requestBuffering.value; }
      if d.responseBuffering.Some? { responseBuffering := d.responseBuffering.value; }
      if d.compression.Some? { compression := d.compression.value; }
      if d.contentTypeAutodetect.Some? { contentTypeAutodetect := d.contentTypeAutodetect.value; }
    }

    method ApplyTraffic(d: Definition)
      modifies this`retry, this`circuitBreaker, this`inFlightLimit, this`clientCertForwarding
      ensures retry == Over(d.retry, old(retry)) && circuitBreaker == Over(d.circuitBreaker, old(circuitBreaker))
      ensures inFlightLimit == Over(d.inFlightLimit, old(inFlightLimit))
      ensures clientCertForwarding == Over(d.passTlsClientCert, old(clientCertForwarding))
    {
      if d.retry.Some? { retry := d.retry.value; }
      if d.circuitBreaker.Some? { circuitBreaker := d.circuitBreaker.value; }
      if d.inFlightLimit.Some? { inFlightLimit := d.inFlightLimit.value; }
      if d.passTlsClientCert.Some? { clientCertForwarding := d.passTlsClientCert.value; }
    }

    method Apply(d: Definition)
      modifies this
      ensures Current() == Applied(old(Current()), d)
    {
      ApplyAuth(d);
      ApplyBody(d);
      ApplyTraffic(d);
    }
  }

  /** The settings in force for the middlewares a route names. */
  method FromRules(rules: Rules, names: seq<string>) returns (e: EffectiveMiddleware)
    ensures fresh(e)
    ensures Tracks(e.Current(), rules, Expand(rules, names, 0))
  {
    e := new EffectiveMiddleware.FromDomain(rules);
    var expanded := ExpandMiddlewareNames(names, rules, [], 0);
    assert expanded == Expand(rules, names, 0);
    ApplyAll(e, rules, expanded);
  }

  method ApplyAll(e: EffectiveMiddleware, rules: Rules, expanded: seq<string>)
    requires Tracks(e.Current(), rules, [])
    modifies e
    ensures Tracks(e.Current(), rules, expanded)
  {
    for i := 0 to |expanded|
      invariant Tracks(e.Current(), rules, expanded[..i])
    {
      TrackStep(e.Current(), rules, expanded[..i], expanded[i]);
      assert expanded[..i + 1] == expanded[..i] + [expanded[i]];
      if expanded[i] in rules.middlewares {
        e.Apply(rules.middlewares[expanded[i]]);
      }
    }
    assert expanded[..|expanded|] == expanded;
  }

  function InForce(rules: Rules, expanded: seq<string>, s: Setting): Option<Value> {
    if expanded == [] then Initial(rules, s)
    else
      var last := expanded[|expanded| - 1];
      if Defines(rules, last, s) then Defined(rules.middlewares[last], s)
      else InForce(rules, expanded[..|expanded| - 1], s)
  }

  /** Every setting is the one in force after the given middlewares. */
  ghost predicate Tracks(settings: Settings, rules: Rules, expanded: seq<string>) {
    forall s :: Get(settings, s) == InForce(rules, expanded, s)
  }

  lemma TrackStep(settings: Settings, rules: Rules, expanded: seq<string>, name: string)
    requires Tracks(settings, rules, expanded)
    ensures Tracks(if name in rules.middlewares then Applied(settings, rules.middlewares[name]) else settings,
                   rules, expanded + [name])
  {
    assert (expanded + [name])[..|expanded|] == expanded;
    forall s
      ensures Get(if name in rules.middlewares then Applied(settings, rules.middlewares[name]) else settings, s) ==
              InForce(rules, expanded + [name], s)
    {
      if name in rules.middlewares {
        AppliedOverrides(settings, rules.middlewares[name], s);
      }
    }
  }

  /** The setting in force is the one of the last expanded middleware that defines it, else the domain's own. */
  lemma {:induction false} LastDefinitionWins(rules: Rules, expanded: seq<string>, s: Setting) returns (k: int)
    ensures -1 <= k < |expanded|
    ensures forall j :: k < j < |expanded| ==> !Defines(rules, expanded[j], s)
    ensures k >= 0 ==> Defines(rules, expanded[k], s) && InForce(rules, expanded, s) == Defined(rules.middlewares[expanded[k]], s)
    ensures k == -1 ==> InForce(rules, expanded, s) == Initial(rules, s)
  {
    k := |expanded| - 1;
    if k >= 0 && !Defines(rules, expanded[k], s) {
      k := LastDefinitionWins(rules, expanded[..k], s);
    }
  }
}
