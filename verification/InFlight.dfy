// In-flight permits taken by compare-and-exchange (edge/crates/http-proxy/src/lib.rs).
module InFlight {
  import opened Text

  /**
   * One request's progress: between its load and its exchange other requests may move the counter.
   * `Holding` is a permit not yet released.
   */
  datatype Worker = Idle | Loaded(key: string, seen: nat) | Holding(key: string) | Refused(key: string) | Finished(key: string)

  /** `limits` is the fixed maximum of each key; `counters` is the map of atomics, empty at first. */
  datatype State = State(limits: map<string, nat>, counters: map<string, nat>, workers: seq<Worker>)

  function Counter(s: State, key: string): nat {
    if key in s.counters then s.counters[key] else 0
  }

  function Limit(s: State, key: string): nat {
    if key in s.limits then s.limits[key] else 0
  }

  datatype Action =
    | Load(worker: nat, key: string)      // read the counter, creating it at zero
    | Reload(worker: nat)                 // the exchange failed: read again
    | Refuse(worker: nat)                 // the value read has reached the maximum
    | Exchange(worker: nat)               // the counter still has the value read: add one
    | Release(worker: nat)                // give the permit back, never below zero

  predicate Enabled(s: State, a: Action) {
    && a.worker < |s.workers|
    && var w := s.workers[a.worker];
       match a
       case Load(_, key) => w.Idle?
       case Reload(_) => w.Loaded? && w.seen < Limit(s, w.key)
       case Refuse(_) => w.Loaded? && w.seen >= Limit(s, w.key)
       case Exchange(_) => w.Loaded? && w.seen < Limit(s, w.key) && Counter(s, w.key) == w.seen
       case Release(_) => w.Holding?
  }

  function Perform(s: State, a: Action): State
    requires Enabled(s, a)
  {
    var w := s.workers[a.worker];
    match a
    case Load(i, key) =>
      s.(counters := s.counters[key := Counter(s, key)], workers := s.workers[i := Loaded(key, Counter(s, key))])
    case Reload(i) => s.(workers := s.workers[i := Loaded(w.key, Counter(s, w.key))])
    case Refuse(i) => s.(workers := s.workers[i := Refused(w.key)])
    case Exchange(i) =>
      s.(counters := s.counters[w.key := w.seen + 1], workers := s.workers[i := Holding(w.key)])
    case Release(i) =>
      var c := Counter(s, w.key);
      s.(counters := s.counters[w.key := if c == 0 then 0 else c - 1], workers := s.workers[i := Finished(w.key)])
  }

  function Start(limits: map<string, nat>, requests: nat): State {
    State(limits, map[], seq(requests, i => Idle))
  }

  /** An interleaving of any number of requests; None when some action was not possible in its turn. */
  function Run(limits: map<string, nat>, requests: nat, trace: seq<Action>): Option<State> {
    if trace == [] then Some(Start(limits, requests))
    else
      var before, last := Run(limits, requests, trace[..|trace| - 1]), trace[|trace| - 1];
      if before.Some? && Enabled(before.value, last) then Some(Perform(before.value, last)) else None
  }

  /** How many permits of a key are out. */
  function Permits(workers: seq<Worker>, key: string): nat {
    if workers == [] then 0
    else Permits(workers[..|workers| - 1], key) + if workers[|workers| - 1] == Holding(key) then 1 else 0
  }

  lemma {:induction false} PermitsUpdate(workers: seq<Worker>, i: nat, w: Worker, key: string)
    requires i < |workers|
    ensures Permits(workers[i := w], key) ==
            Permits(workers, key) - (if workers[i] == Holding(key) then 1 else 0) + if w == Holding(key) then 1 else 0
  {
    var n := |workers| - 1;
    if i == n {
      assert workers[i := w][..n] == workers[..n];
    } else {
      assert workers[i := w][..n] == workers[..n][i := w];
      PermitsUpdate(workers[..n], i, w, key);
    }
  }

  lemma {:induction false} PermitsNone(n: nat, key: string)
    ensures Permits(seq(n, i => Idle), key) == 0
  {
    if n > 0 {
      var workers := seq(n, i => Idle);
      assert workers[..n - 1] == seq(n - 1, i => Idle);
      PermitsNone(n - 1, key);
    }
  }

  ghost predicate Inv(s: State) {
    forall key :: Counter(s, key) == Permits(s.workers, key) <= Limit(s, key)
  }

  lemma StepKeepsInv(s: State, a: Action)
    requires Inv(s) && Enabled(s, a)
    ensures Inv(Perform(s, a)) && Perform(s, a).limits == s.limits
    ensures a.Release? ==> Counter(s, s.workers[a.worker].key) > 0
  {
    var s' := Perform(s, a);
    var w := s.workers[a.worker];
    if a.Release? {
      HoldingCounts(s.workers, a.worker, w.key);
    }
    forall key
      ensures Counter(s', key) == Permits(s'.workers, key) <= Limit(s', key)
    {
      PermitsUpdate(s.workers, a.worker, s'.workers[a.worker], key);
      assert s'.workers == s.workers[a.worker := s'.workers[a.worker]];
      assert Counter(s, key) == Permits(s.workers, key) <= Limit(s, key);
    }
  }

  lemma {:induction false} HoldingCounts(workers: seq<Worker>, i: nat, key: string)
    requires i < |workers| && workers[i] == Holding(key)
    ensures Permits(workers, key) > 0
  {
    if i < |workers| - 1 {
      HoldingCounts(workers[..|workers| - 1], i, key);
    }
  }

  /**
   * In every reachable state of every interleaving the counter of a key is the number of permits out,
   * which never exceeds its limit; and a release never meets a counter at zero.
   */
  lemma CountersAreExact(limits: map<string, nat>, requests: nat, trace: seq<Action>)
    requires Run(limits, requests, trace).Some?
    ensures var s := Run(limits, requests, trace).value;
            && s.limits == limits
            && (forall key :: Counter(s, key) == Permits(s.workers, key) <= if key in limits then limits[key] else 0)
            && (forall i :: 0 <= i < |s.workers| && s.workers[i].Holding? ==> Counter(s, s.workers[i].key) > 0)
  {
    RunKeepsInv(limits, requests, trace);
    var s := Run(limits, requests, trace).value;
    forall i | 0 <= i < |s.workers| && s.workers[i].Holding?
      ensures Counter(s, s.workers[i].key) > 0
    {
      HoldingCounts(s.workers, i, s.workers[i].key);
    }
  }

  lemma {:induction false} RunKeepsInv(limits: map<string, nat>, requests: nat, trace: seq<Action>)
    requires Run(limits, requests, trace).Some?
    ensures Inv(Run(limits, requests, trace).value) && Run(limits, requests, trace).value.limits == limits
  {
    if trace == [] {
      forall key: string
        ensures Permits(Start(limits, requests).workers, key) == 0
      {
        PermitsNone(requests, key);
      }
    } else {
      RunKeepsInv(limits, requests, trace[..|trace| - 1]);
      StepKeepsInv(Run(limits, requests, trace[..|trace| - 1]).value, trace[|trace| - 1]);
    }
  }

  /** A request is turned away only for a counter value it read at the limit, and with free permits some exchange can succeed. */
  lemma RefusedOnlyWhenFull(s: State, i: nat, key: string)
    requires Inv(s) && i < |s.workers| && s.workers[i].Idle?
    ensures var s' := Perform(s, Load(i, key));
            var limit := if key in s.limits then s.limits[key] else 0;
            && (Enabled(s', Refuse(i)) <==> Permits(s.workers, key) == limit)
            && (Enabled(s', Exchange(i)) <==> Permits(s.workers, key) < limit)
  {
    assert Counter(s, key) == Permits(s.workers, key) <= Limit(s, key);
  }
}
