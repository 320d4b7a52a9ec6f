// The circuit breakers and their lazily cleared state (edge/crates/http-proxy/src/lib.rs).
module CircuitBreaker {
  import opened Text

  type U32 = n: int | 0 <= n <= 0xffff_ffff

  datatype Config = Config(enabled: bool, threshold: U32, openSeconds: nat)
  datatype Breaker = Breaker(failures: U32, openUntil: Option<real>)

  type Breakers = map<string, Breaker>

  function CircuitKey(routeId: string, prefix: string, upstream: string): string {
    routeId + ":" + prefix + ":" + upstream
  }

  function Threshold(config: Config): nat {
    if config.threshold < 1 then 1 else config.threshold
  }

  function OpenTime(config: Config): (s: real)
    ensures s >= 1.0
  {
    (if config.openSeconds < 1 then 1 else config.openSeconds) as real
  }

  predicate OpenAt(states: Breakers, key: string, now: real) {
    key in states && states[key].openUntil.Some? && now < states[key].openUntil.value
  }

  /** A query that finds the breaker closed forgets its deadline. */
  function Queried(states: Breakers, key: string, now: real): Breakers {
    if key !in states || OpenAt(states, key, now) then states
    else states[key := states[key].(openUntil := None)]
  }

  function Recorded(config: Config, states: Breakers, key: string, failed: bool, now: real): Breakers {
    if !config.enabled then states
    else
      var b := if key in states then states[key] else Breaker(0, None);
      if !failed then states[key := Breaker(0, None)]
      else
        var failures: U32 := if b.failures == 0xffff_ffff then b.failures else b.failures + 1;
        states[key := Breaker(failures, if failures >= Threshold(config) then Some(now + OpenTime(config))
                                        else b.openUntil)]
  }

  class CircuitBreakers {
    var states: Breakers

    constructor ()
      ensures states == map[]
    {
      states := map[];
    }

    method IsOpen(key: string, now: real) returns (open: bool)
      modifies this
      ensures open == OpenAt(old(states), key, now) && states == Queried(old(states), key, now)
      ensures forall k, t :: now <= t ==> OpenAt(states, k, t) == OpenAt(old(states), k, t)
    {
      if key !in states {
        return false;
      }
      var state := states[key];
      if state.openUntil.Some? && now < state.openUntil.value {
        return true;
      }
      states := states[key := state.(openUntil := None)];
      return false;
    }

    method RecordResult(config: Config, key: string, failed: bool, now: real)
      modifies this
      ensures states == Recorded(config, old(states), key, failed, now)
    {
      if !config.enabled {
        return;
      }
      var breaker := if key in states then states[key] else Breaker(0, None);
      if failed {
        breaker := breaker.(failures := if breaker.failures == 0xffff_ffff then breaker.failures else breaker.failures + 1);
        if breaker.failures >= Threshold(config) {
          breaker := breaker.(openUntil := Some(now + OpenTime(config)));
        }
      } else {
        breaker := Breaker(0, None);
      }
      states := states[key := breaker];
    }
  }

  // ----- Histories -----

  datatype Event = Result(key: string, failed: bool, at: real) | Query(key: string, at: real)

  predicate Ordered(history: seq<Event>) {
    forall i, j :: 0 <= i < j < |history| ==> history[i].at <= history[j].at
  }

  function After(config: Config, history: seq<Event>): Breakers {
    if history == [] then map[]
    else
      var before, last := After(config, history[..|history| - 1]), history[|history| - 1];
      match last
      case Result(key, failed, at) => Recorded(config, before, key, failed, at)
      case Query(key, at) => Queried(before, key, at)
  }

  /** The results of one breaker, in order. */
  function ResultsOf(history: seq<Event>, key: string): seq<Event> {
    if history == [] then []
    else
      var init, last := history[..|history| - 1], history[|history| - 1];
      ResultsOf(init, key) + if last.Result? && last.key == key then [last] else []
  }

  /** How many failures in a row end the list. */
  function FailureRun(results: seq<Event>): nat {
    if results == [] || !results[|results| - 1].Result? || !results[|results| - 1].failed then 0
    else FailureRun(results[..|results| - 1]) + 1
  }

  /** What openness means, read off the results alone. */
  predicate ShouldBeOpen(config: Config, results: seq<Event>, now: real) {
    && results != [] && FailureRun(results) >= 1 && FailureRun(results) >= config.threshold
    && var seconds := if config.openSeconds == 0 then 1 else config.openSeconds;
       now < results[|results| - 1].at + seconds as real
  }

  /** What the stored state of a breaker still knows at a time no earlier than its last event. */
  ghost predicate Tracks(config: Config, states: Breakers, key: string, results: seq<Event>, now: real) {
    && (key in states <==> results != [])
    && (key in states ==>
          var b := states[key];
          var run := FailureRun(results);
          var deadline := results[|results| - 1].at + OpenTime(config);
          && b.failures == (if run <= 0xffff_ffff then run else 0xffff_ffff)
          && (b.openUntil.Some? ==> b.openUntil.value == deadline && run >= Threshold(config))
          && (b.openUntil.None? ==> run < Threshold(config) || now >= deadline))
  }

  lemma TracksQuery(config: Config, states: Breakers, key: string, results: seq<Event>, at: real, asked: string)
    requires Tracks(config, states, key, results, at)
    ensures Tracks(config, Queried(states, asked, at), key, results, at)
  {
  }

  lemma TracksResult(config: Config, states: Breakers, key: string, results: seq<Event>, at: real, e: Event)
    requires config.enabled && Tracks(config, states, key, results, at) && e.Result? && e.at == at
    ensures Tracks(config, Recorded(config, states, e.key, e.failed, at), key,
                   results + if e.key == key then [e] else [], at)
  {
    if e.key == key {
      assert (results + [e])[..|results|] == results;
    } else {
      assert results + [] == results;
    }
  }

  lemma {:induction false} HistoryTracked(config: Config, history: seq<Event>, key: string, now: real)
    requires config.enabled && Ordered(history)
    requires history != [] ==> history[|history| - 1].at <= now
    ensures Tracks(config, After(config, history), key, ResultsOf(history, key), now)
  {
    if history != [] {
      var init, last := history[..|history| - 1], history[|history| - 1];
      HistoryTracked(config, init, key, last.at);
      var before, results := After(config, init), ResultsOf(init, key);
      match last
      case Result(k, failed, at) => TracksResult(config, before, key, results, at, last);
      case Query(k, at) => TracksQuery(config, before, key, results, at, k); assert results + [] == results;
    }
  }

  /** A breaker is open exactly when enough failures in a row end its results and the last is recent enough. */
  lemma OpenIffHistory(config: Config, history: seq<Event>, key: string, now: real)
    requires config.enabled && Ordered(history)
    requires history != [] ==> history[|history| - 1].at <= now
    ensures OpenAt(After(config, history), key, now) <==> ShouldBeOpen(config, ResultsOf(history, key), now)
  {
    HistoryTracked(config, history, key, now);
  }

  lemma ResultsOfDisabled(config: Config, history: seq<Event>)
    requires !config.enabled
    ensures After(config, history) == map[]
  {
  }

  /** A disabled breaker is never open, whatever is reported. */
  lemma DisabledNeverOpen(config: Config, history: seq<Event>, key: string, now: real)
    requires !config.enabled
    ensures !OpenAt(After(config, history), key, now)
  {
    ResultsOfDisabled(config, history);
  }

  // ----- Keys -----

  /** Where route ids and prefixes have no colon, one breaker serves one upstream of one path of one route. */
  lemma KeysApart(r: string, p: string, u: string, s: string, q: string, v: string)
    requires ':' !in r && ':' !in s && ':' !in p && ':' !in q
    ensures CircuitKey(r, p, u) == CircuitKey(s, q, v) <==> r == s && p == q && u == v
  {
    assert CircuitKey(r, p, u) == r + ":" + (p + ":" + u);
    assert CircuitKey(s, q, v) == s + ":" + (q + ":" + v);
    if CircuitKey(r, p, u) == CircuitKey(s, q, v) {
      ColonSplitUnique(r, p + ":" + u, s, q + ":" + v);
      ColonSplitUnique(p, u, q, v);
    }
  }

  /** On one path of one route, colons or not, the result of one upstream leaves every other's breaker alone. */
  lemma UpstreamsApart(config: Config, states: Breakers, r: string, p: string, u: string, v: string,
                       failed: bool, at: real, now: real)
    requires u != v
    ensures var key, other := CircuitKey(r, p, u), CircuitKey(r, p, v);
            OpenAt(Recorded(config, states, key, failed, at), other, now) == OpenAt(states, other, now)
  {
    var head := r + ":" + p + ":";
    assert u == CircuitKey(r, p, u)[|head|..] && v == CircuitKey(r, p, v)[|head|..];
  }

  /** Another route, prefix or upstream shares a breaker's key exactly when one of its three parts has a colon. */
  lemma KeySharedIff(r: string, p: string, u: string)
    ensures (exists s, q, v :: CircuitKey(s, q, v) == CircuitKey(r, p, u) && (s, q, v) != (r, p, u)) <==>
            ':' in r || ':' in p || ':' in u
  {
    if ':' in r {
      var i :| 0 <= i < |r| && r[i] == ':';
      Shares(r[..i], r[i + 1..], p + ":" + u, r, p, u);
    } else if ':' in p {
      var i :| 0 <= i < |p| && p[i] == ':';
      Shares(r, p[..i], p[i + 1..] + ":" + u, r, p, u);
    } else if ':' in u {
      var i :| 0 <= i < |u| && u[i] == ':';
      Shares(r, p + ":" + u[..i], u[i + 1..], r, p, u);
    } else {
      forall s, q, v | CircuitKey(s, q, v) == CircuitKey(r, p, u)
        ensures (s, q, v) == (r, p, u)
      {
        TwoColons(r, p, u, s, q, v);
      }
    }
  }

  lemma Shares(s: string, q: string, v: string, r: string, p: string, u: string)
    requires s + ":" + q + ":" + v == r + ":" + p + ":" + u && (|s| != |r| || |q| != |p|)
    ensures CircuitKey(s, q, v) == CircuitKey(r, p, u) && (s, q, v) != (r, p, u)
  {
  }

  lemma TwoColons(r: string, p: string, u: string, s: string, q: string, v: string)
    requires ':' !in r && ':' !in p && ':' !in u && CircuitKey(s, q, v) == CircuitKey(r, p, u)
    ensures s == r && q == p && v == u
  {
    var k := CircuitKey(r, p, u);
    assert forall i :: 0 <= i < |k| && k[i] == ':' ==> i == |r| || i == |r| + 1 + |p|;
    assert CircuitKey(s, q, v)[|s|] == ':' && CircuitKey(s, q, v)[|s| + 1 + |q|] == ':';
    assert s == k[..|s|] && r == k[..|r|];
    assert q == k[|s| + 1..|s| + 1 + |q|] && p == k[|r| + 1..|r| + 1 + |p|];
    assert v == k[|s| + |q| + 2..] && u == k[|r| + |p| + 2..];
  }

  function WithoutQueries(history: seq<Event>): seq<Event> {
    if history == [] then []
    else
      var init, last := history[..|history| - 1], history[|history| - 1];
      WithoutQueries(init) + if last.Query? then [] else [last]
  }

  lemma {:induction false} WithoutQueriesKeeps(history: seq<Event>, key: string)
    ensures ResultsOf(WithoutQueries(history), key) == ResultsOf(history, key)
  {
    if history != [] {
      var init, last := history[..|history| - 1], history[|history| - 1];
      WithoutQueriesKeeps(init, key);
      var kept := WithoutQueries(init);
      if !last.Query? {
        assert (kept + [last])[..|kept|] == kept;
      } else {
        assert WithoutQueries(history) == kept;
      }
    }
  }

  lemma {:induction false} WithoutQueriesMembers(history: seq<Event>)
    ensures forall e :: e in WithoutQueries(history) ==> e in history
  {
    if history != [] {
      WithoutQueriesMembers(history[..|history| - 1]);
    }
  }

  lemma {:induction false} WithoutQueriesOrdered(history: seq<Event>)
    requires Ordered(history)
    ensures Ordered(WithoutQueries(history))
  {
    if history != [] {
      var init, last := history[..|history| - 1], history[|history| - 1];
      WithoutQueriesOrdered(init);
      WithoutQueriesMembers(init);
      var kept := WithoutQueries(init);
      forall i | 0 <= i < |kept|
        ensures kept[i].at <= last.at
      {
        assert kept[i] in init;
      }
    }
  }

  /** Queries, and the clearing they do, never change what a later query sees. */
  lemma QueriesUnobservable(config: Config, history: seq<Event>, key: string, now: real)
    requires config.enabled && Ordered(history)
    requires history != [] ==> history[|history| - 1].at <= now
    ensures OpenAt(After(config, history), key, now) == OpenAt(After(config, WithoutQueries(history)), key, now)
  {
    WithoutQueriesKeeps(history, key);
    WithoutQueriesMembers(history);
    WithoutQueriesOrdered(history);
    var kept := WithoutQueries(history);
    if kept != [] {
      assert kept[|kept| - 1] in history;
    }
    OpenIffHistory(config, history, key, now);
    OpenIffHistory(config, kept, key, now);
  }
}
