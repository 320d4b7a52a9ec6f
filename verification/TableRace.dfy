// Interleaved registry operations: the table is loaded, rebuilt and stored without a lock
// (edge/crates/core/src/lib.rs, edge/crates/api/src/lib.rs).
module TableRace {
  import opened Routes
  import opened Registry
  import opened Health
  import opened RouteRegistry
  import opened VersionedPut

  /** An operation on the registry; a gated one is a versioned update that first passes its gate. */
  datatype Job = Job(op: Operation, gated: bool)

  /** A job checks its gate, loads the table, and stores what it made of it; or it ends without effect. */
  datatype Act = Check(job: nat) | Load(job: nat) | Store(job: nat) | Quit(job: nat)

  datatype Phase = Waiting | Cleared | Held(snapshot: seq<Route>) | Over

  datatype Race = Race(routes: seq<Route>, phases: seq<Phase>)

  predicate Passes(routes: seq<Route>, op: Operation) {
    op.UpsertApi? ==> Gate(routes, op.route).None?
  }

  /** Operations that return before they touch the table. */
  predicate Idle(op: Operation) {
    match op
    case SetHealth(health) => health == map[]
    case SetOne(u) => Skipped(u)
    case SetMany(us) => us == []
    case _ => false
  }

  /** They would change no table. */
  lemma IdleChangesNothing(routes: seq<Route>, op: Operation)
    requires Idle(op)
    ensures Apply(routes, op) == routes
  {
  }

  /** What a job stores, given the table it loaded. */
  function Written(snapshot: seq<Route>, op: Operation): seq<Route> {
    match op
    case UpsertApi(route) => Dedupe(WithoutApi(snapshot, route.domain) + [route])
    case _ => Apply(snapshot, op)
  }

  predicate Enabled(jobs: seq<Job>, s: Race, a: Act) {
    && a.job < |jobs| == |s.phases|
    && var p := s.phases[a.job];
       match a
       case Check(i) => jobs[i].gated && p.Waiting?
       case Load(i) => if jobs[i].gated then p.Cleared? else p.Waiting?
       case Store(i) => p.Held? && !Idle(jobs[i].op)
       case Quit(i) => !p.Over?
  }

  function Perform(jobs: seq<Job>, s: Race, a: Act): Race
    requires Enabled(jobs, s, a)
  {
    match a
    case Check(i) => s.(phases := s.phases[i := if Passes(s.routes, jobs[i].op) then Cleared else Over])
    case Load(i) => s.(phases := s.phases[i := Held(s.routes)])
    case Store(i) => Race(Written(s.phases[i].snapshot, jobs[i].op), s.phases[i := Over])
    case Quit(i) => s.(phases := s.phases[i := Over])
  }

  predicate Moves(jobs: seq<Job>, s: Race, a: Act, s': Race) {
    Enabled(jobs, s, a) && s' == Perform(jobs, s, a)
  }

  /** A trace of steps with the states between them, from a table in which nothing is in progress. */
  ghost predicate Execution(jobs: seq<Job>, trace: seq<Act>, states: seq<Race>) {
    && |states| == |trace| + 1
    && KeysDistinct(states[0].routes) && |states[0].phases| == |jobs|
    && (forall i :: 0 <= i < |jobs| ==> states[0].phases[i] == Waiting)
    && forall k :: 0 <= k < |trace| ==> Moves(jobs, states[k], trace[k], states[k + 1])
  }

  // ----- What a step keeps -----

  /** The table and all tables in hand have distinct keys. */
  ghost predicate Sane(s: Race) {
    KeysDistinct(s.routes) && forall i :: 0 <= i < |s.phases| && s.phases[i].Held? ==> KeysDistinct(s.phases[i].snapshot)
  }

  lemma WrittenDistinct(snapshot: seq<Route>, op: Operation)
    requires KeysDistinct(snapshot)
    ensures KeysDistinct(Written(snapshot, op))
  {
    ApplyKeepsKeysDistinct(snapshot, op);
  }

  lemma StepKeepsSane(jobs: seq<Job>, s: Race, a: Act)
    requires Enabled(jobs, s, a) && Sane(s)
    ensures Sane(Perform(jobs, s, a))
  {
    if a.Store? {
      WrittenDistinct(s.phases[a.job].snapshot, jobs[a.job].op);
    }
  }

  /** In every interleaving the keys of the table are distinct, lost updates or not. */
  lemma {:induction false} KeysStayDistinct(jobs: seq<Job>, trace: seq<Act>, states: seq<Race>, k: nat)
    requires Execution(jobs, trace, states) && k <= |trace|
    ensures Sane(states[k]) && |states[k].phases| == |jobs|
  {
    if k > 0 {
      KeysStayDistinct(jobs, trace, states, k - 1);
      assert Moves(jobs, states[k - 1], trace[k - 1], states[k - 1 + 1]);
      StepKeepsSane(jobs, states[k - 1], trace[k - 1]);
    }
  }

  // ----- Where a table comes from -----

  /** The last store before the t-th step, or -1. */
  function LastStore(trace: seq<Act>, t: nat): (w: int)
    requires t <= |trace|
    ensures -1 <= w < t && (w >= 0 ==> trace[w].Store?)
    ensures forall k :: w < k < t ==> !trace[k].Store?
  {
    if t == 0 then -1 else if trace[t - 1].Store? then t - 1 else LastStore(trace, t - 1)
  }

  /** The last load of a job before the t-th step, or -1. */
  function LastLoad(trace: seq<Act>, job: nat, t: nat): (l: int)
    requires t <= |trace|
    ensures -1 <= l < t && (l >= 0 ==> trace[l] == Load(job))
  {
    if t == 0 then -1 else if trace[t - 1] == Load(job) then t - 1 else LastLoad(trace, job, t - 1)
  }

  /** When the table was loaded that the w-th step stores anew. */
  function LoadOf(trace: seq<Act>, w: nat): (l: int)
    requires w < |trace|
    ensures -1 <= l < w
  {
    LastLoad(trace, trace[w].job, w)
  }

  /** The stores a table is made of: the last one, the last one before its load, and so on, oldest first. */
  function Lineage(trace: seq<Act>, t: nat): (stores: seq<nat>)
    requires t <= |trace|
    ensures forall k :: 0 <= k < |stores| ==> stores[k] < t && trace[stores[k]].Store?
    decreases t
  {
    var w := LastStore(trace, t);
    if w < 0 then []
    else
      var l := LoadOf(trace, w);
      (if l < 0 then [] else Lineage(trace, l)) + [w]
  }

  predicate Known(jobs: seq<Job>, trace: seq<Act>, stores: seq<nat>) {
    forall k :: 0 <= k < |stores| ==> stores[k] < |trace| && trace[stores[k]].job < |jobs|
  }

  /** The operations of the stores, one after another. */
  function Replayed(routes: seq<Route>, jobs: seq<Job>, trace: seq<Act>, stores: seq<nat>): seq<Route>
    requires Known(jobs, trace, stores)
  {
    if stores == [] then routes
    else
      var n := |stores| - 1;
      Written(Replayed(routes, jobs, trace, stores[..n]), jobs[trace[stores[n]].job].op)
  }

  lemma LineageKnown(jobs: seq<Job>, trace: seq<Act>, states: seq<Race>, t: nat)
    requires Execution(jobs, trace, states) && t <= |trace|
    ensures Known(jobs, trace, Lineage(trace, t))
  {
    var stores := Lineage(trace, t);
    forall k | 0 <= k < |stores|
      ensures trace[stores[k]].job < |jobs|
    {
      assert Moves(jobs, states[stores[k]], trace[stores[k]], states[stores[k] + 1]);
    }
  }

  lemma {:induction false} NoStoreSince(jobs: seq<Job>, trace: seq<Act>, states: seq<Race>, from: nat, until: nat)
    requires Execution(jobs, trace, states) && from <= until <= |trace|
    requires forall k :: from <= k < until ==> !trace[k].Store?
    ensures states[until].routes == states[from].routes
    decreases until
  {
    if from < until {
      NoStoreSince(jobs, trace, states, from, until - 1);
      assert Moves(jobs, states[until - 1], trace[until - 1], states[until - 1 + 1]);
    }
  }

  /** A job in hand of a table holds the one there was at its last load. */
  lemma {:induction false} HeldSince(jobs: seq<Job>, trace: seq<Act>, states: seq<Race>, k: nat, i: nat)
    requires Execution(jobs, trace, states) && k <= |trace| && i < |jobs|
    ensures |states[k].phases| == |jobs|
    ensures states[k].phases[i].Held? ==>
              var l := LastLoad(trace, i, k); l >= 0 && states[k].phases[i].snapshot == states[l].routes
  {
    if k > 0 {
      HeldSince(jobs, trace, states, k - 1, i);
      assert Moves(jobs, states[k - 1], trace[k - 1], states[k - 1 + 1]);
    }
  }

  /** What the t-th step stores is made of the table at its load. */
  lemma StoredFromLoad(jobs: seq<Job>, trace: seq<Act>, states: seq<Race>, w: nat)
    requires Execution(jobs, trace, states) && w < |trace| && trace[w].Store?
    ensures trace[w].job < |jobs| && LoadOf(trace, w) >= 0
    ensures states[w + 1].routes == Written(states[LoadOf(trace, w)].routes, jobs[trace[w].job].op)
  {
    assert Moves(jobs, states[w], trace[w], states[w + 1]);
    HeldSince(jobs, trace, states, w, trace[w].job);
  }

  /** Every table of every interleaving is what its lineage makes of the first one, one operation after another. */
  lemma {:induction false} TableIsLineage(jobs: seq<Job>, trace: seq<Act>, states: seq<Race>, t: nat)
    requires Execution(jobs, trace, states) && t <= |trace|
    ensures Known(jobs, trace, Lineage(trace, t))
    ensures states[t].routes == Replayed(states[0].routes, jobs, trace, Lineage(trace, t))
    decreases t
  {
    LineageKnown(jobs, trace, states, t);
    var w := LastStore(trace, t);
    NoStoreSince(jobs, trace, states, w + 1, t);
    if w >= 0 {
      var l := LoadOf(trace, w);
      StoredFromLoad(jobs, trace, states, w);
      TableIsLineage(jobs, trace, states, l);
      assert (Lineage(trace, l) + [w])[..|Lineage(trace, l)|] == Lineage(trace, l);
    }
  }

  // ----- Lost effects -----

  /** A store after `u` that the table at `t` is made of, and that was made of a table from before `u`. */
  predicate Skips(trace: seq<Act>, t: nat, u: nat, w: nat)
    requires t <= |trace|
  {
    w in Lineage(trace, t) && u < w && LoadOf(trace, w) < u
  }

  /**
   * The effect of a store is missing from a later table exactly when some store in that table's lineage
   * follows it but was loaded before it.
   */
  lemma {:induction false} LostIff(trace: seq<Act>, t: nat, u: nat)
    requires u < t <= |trace| && trace[u].Store?
    ensures u !in Lineage(trace, t) <==> exists w :: Skips(trace, t, u, w)
    decreases t
  {
    var w0 := LastStore(trace, t);
    var l := LoadOf(trace, w0);
    var before := if l < 0 then [] else Lineage(trace, l);
    assert Lineage(trace, t) == before + [w0];
    if u < w0 {
      if l < u {
        assert Skips(trace, t, u, w0);
      } else {
        assert l != u by { LoadNotStore(trace, w0); }
        LostIff(trace, l, u);
        forall w
          ensures Skips(trace, t, u, w) <==> Skips(trace, l, u, w)
        {
        }
      }
    }
  }

  lemma LoadNotStore(trace: seq<Act>, w: nat)
    requires w < |trace|
    ensures LoadOf(trace, w) >= 0 ==> !trace[LoadOf(trace, w)].Store?
  {
  }

  /** A store that overlaps another: loaded before it, stored after it. */
  predicate Overlaps(trace: seq<Act>, u: nat, w: nat)
    requires w < |trace|
  {
    u < w && trace[u].Store? && trace[w].Store? && LoadOf(trace, w) < u
  }

  /** Nothing is missing exactly when no store overlaps an earlier one. */
  lemma NothingLostIff(trace: seq<Act>, t: nat)
    requires t <= |trace|
    ensures (forall u :: 0 <= u < t && trace[u].Store? ==> u in Lineage(trace, t)) <==>
            (forall u, w :: 0 <= u < w < t ==> !Overlaps(trace, u, w))
  {
    if forall u :: 0 <= u < t && trace[u].Store? ==> u in Lineage(trace, t) {
      forall u, w | 0 <= u < w < t
        ensures !Overlaps(trace, u, w)
      {
        if trace[u].Store? {
          LostIff(trace, t, u);
          assert !Skips(trace, t, u, w);
        }
      }
    }
    if forall u, w :: 0 <= u < w < t ==> !Overlaps(trace, u, w) {
      forall u | 0 <= u < t && trace[u].Store?
        ensures u in Lineage(trace, t)
      {
        LostIff(trace, t, u);
        forall w
          ensures !Skips(trace, t, u, w)
        {
          if Skips(trace, t, u, w) {
            assert Overlaps(trace, u, w);
          }
        }
      }
    }
  }

  // ----- Versioned updates only -----

  ghost predicate Puts(jobs: seq<Job>) {
    forall i :: 0 <= i < |jobs| ==> jobs[i].gated && jobs[i].op.UpsertApi? && Admissible(jobs[i].op.route)
  }

  /** What storing an update does to the API route of any host. */
  lemma WrittenHost(snapshot: seq<Route>, route: Route, domain: string, r: Route)
    requires KeysDistinct(snapshot) && Admissible(route)
    ensures HasApi(Written(snapshot, UpsertApi(route)), domain, r) <==>
            if domain == route.domain then r == route else HasApi(snapshot, domain, r)
  {
    AppendApi(snapshot, route);
    WithoutApiKeeps(snapshot, route.domain);
  }

  function RouteAt(jobs: seq<Job>, trace: seq<Act>, w: nat): Route
    requires w < |trace| && trace[w].job < |jobs| && jobs[trace[w].job].op.UpsertApi?
  {
    jobs[trace[w].job].op.route
  }

  /** The last of the stores that updates the host, or -1. */
  ghost function Winner(jobs: seq<Job>, trace: seq<Act>, stores: seq<nat>, domain: string): (w: int)
    requires Puts(jobs) && Known(jobs, trace, stores)
    ensures w == -1 || (w in stores && RouteAt(jobs, trace, w).domain == domain)
  {
    if stores == [] then -1
    else
      var n := |stores| - 1;
      if RouteAt(jobs, trace, stores[n]).domain == domain then stores[n] else Winner(jobs, trace, stores[..n], domain)
  }

  lemma {:induction false} ReplayedHost(
    routes: seq<Route>, jobs: seq<Job>, trace: seq<Act>, stores: seq<nat>, domain: string, r: Route)
    requires KeysDistinct(routes) && Puts(jobs) && Known(jobs, trace, stores)
    ensures KeysDistinct(Replayed(routes, jobs, trace, stores))
    ensures HasApi(Replayed(routes, jobs, trace, stores), domain, r) <==>
            var w := Winner(jobs, trace, stores, domain);
            if w < 0 then HasApi(routes, domain, r) else r == RouteAt(jobs, trace, w)
  {
    if stores != [] {
      var n := |stores| - 1;
      var before, route := Replayed(routes, jobs, trace, stores[..n]), RouteAt(jobs, trace, stores[n]);
      ReplayedHost(routes, jobs, trace, stores[..n], domain, r);
      WrittenHost(before, route, domain, r);
      WrittenDistinct(before, UpsertApi(route));
    }
  }

  /** The host's API route in any table is that of the last update of the host in its lineage. */
  lemma TableHost(jobs: seq<Job>, trace: seq<Act>, states: seq<Race>, t: nat, domain: string, r: Route)
    requires Execution(jobs, trace, states) && Puts(jobs) && t <= |trace|
    ensures Known(jobs, trace, Lineage(trace, t))
    ensures HasApi(states[t].routes, domain, r) <==>
            var w := Winner(jobs, trace, Lineage(trace, t), domain);
            if w < 0 then HasApi(states[0].routes, domain, r) else r == RouteAt(jobs, trace, w)
  {
    TableIsLineage(jobs, trace, states, t);
    ReplayedHost(states[0].routes, jobs, trace, Lineage(trace, t), domain, r);
  }

  /** A gated job that holds a table, or may load one, has passed its gate. */
  lemma {:induction false} PassedGate(jobs: seq<Job>, trace: seq<Act>, states: seq<Race>, k: nat, i: nat) returns (g: nat)
    requires Execution(jobs, trace, states) && k <= |trace| && i < |jobs| && jobs[i].gated
    requires |states[k].phases| == |jobs| && (states[k].phases[i].Cleared? || states[k].phases[i].Held?)
    ensures g < k && trace[g] == Check(i) && Passes(states[g].routes, jobs[i].op)
    decreases k
  {
    assert k > 0;
    assert Moves(jobs, states[k - 1], trace[k - 1], states[k - 1 + 1]);
    if trace[k - 1] == Check(i) {
      g := k - 1;
    } else {
      g := PassedGate(jobs, trace, states, k - 1, i);
    }
  }

  /** A stored update met no newer API route of its host at its gate. */
  lemma GateLetPass(jobs: seq<Job>, trace: seq<Act>, states: seq<Race>, w: nat) returns (g: nat)
    requires Execution(jobs, trace, states) && Puts(jobs) && w < |trace| && trace[w].Store?
    ensures trace[w].job < |jobs| && g < w && trace[g] == Check(trace[w].job)
    ensures forall r :: HasApi(states[g].routes, RouteAt(jobs, trace, w).domain, r) ==>
                          r.version <= RouteAt(jobs, trace, w).version
  {
    assert Moves(jobs, states[w], trace[w], states[w + 1]);
    g := PassedGate(jobs, trace, states, w, trace[w].job);
    KeysStayDistinct(jobs, trace, states, g);
    GateIff(states[g].routes, RouteAt(jobs, trace, w));
  }

  /** No table of an interleaving has the host below its first version, or without an API route. */
  lemma {:induction false} FloorHolds(
    jobs: seq<Job>, trace: seq<Act>, states: seq<Race>, t: nat, domain: string, first: Route) returns (r: Route)
    requires Execution(jobs, trace, states) && Puts(jobs) && t <= |trace| && HasApi(states[0].routes, domain, first)
    ensures HasApi(states[t].routes, domain, r) && r.version >= first.version
    decreases t
  {
    LineageKnown(jobs, trace, states, t);
    var w := Winner(jobs, trace, Lineage(trace, t), domain);
    if w < 0 {
      r := first;
    } else {
      r := RouteAt(jobs, trace, w);
      var g := GateLetPass(jobs, trace, states, w);
      var x := FloorHolds(jobs, trace, states, g, domain, first);
    }
    TableHost(jobs, trace, states, t, domain, r);
  }

  /** The host's stored version goes down. */
  ghost predicate Lowers(before: seq<Route>, after: seq<Route>, domain: string) {
    exists r, r' :: HasApi(before, domain, r) && HasApi(after, domain, r') && r'.version < r.version
  }

  /** The last update of the host in the lineage of the table there is carries a greater version. */
  ghost predicate Overtaken(jobs: seq<Job>, trace: seq<Act>, t: nat)
    requires Puts(jobs) && t < |trace| && trace[t].job < |jobs| && Known(jobs, trace, Lineage(trace, t))
  {
    var p := RouteAt(jobs, trace, t);
    var w := Winner(jobs, trace, Lineage(trace, t), p.domain);
    w >= 0 && RouteAt(jobs, trace, w).version > p.version
  }

  /**
   * In every interleaving of gates, loads and stores, storing an update lowers its host's version exactly
   * when the last update of the host in the lineage of the table it replaces is a newer one.
   */
  lemma LoweredIff(jobs: seq<Job>, trace: seq<Act>, states: seq<Race>, t: nat)
    requires Execution(jobs, trace, states) && Puts(jobs) && t < |trace| && trace[t].Store?
    ensures trace[t].job < |jobs| && Known(jobs, trace, Lineage(trace, t))
    ensures Lowers(states[t].routes, states[t + 1].routes, RouteAt(jobs, trace, t).domain) <==> Overtaken(jobs, trace, t)
  {
    LineageKnown(jobs, trace, states, t);
    StoredFromLoad(jobs, trace, states, t);
    var p, l := RouteAt(jobs, trace, t), LoadOf(trace, t);
    KeysStayDistinct(jobs, trace, states, l);
    var w := Winner(jobs, trace, Lineage(trace, t), p.domain);
    if Lowers(states[t].routes, states[t + 1].routes, p.domain) {
      var r, r' :| HasApi(states[t].routes, p.domain, r) && HasApi(states[t + 1].routes, p.domain, r') && r'.version < r.version;
      WrittenHost(states[l].routes, p, p.domain, r');
      TableHost(jobs, trace, states, t, p.domain, r);
      if w < 0 {
        FirstNotAbove(jobs, trace, states, t, r);
      }
    }
    if w >= 0 {
      TableHost(jobs, trace, states, t, p.domain, RouteAt(jobs, trace, w));
      WrittenHost(states[l].routes, p, p.domain, p);
    }
  }

  lemma FirstNotAbove(jobs: seq<Job>, trace: seq<Act>, states: seq<Race>, t: nat, first: Route)
    requires Execution(jobs, trace, states) && Puts(jobs) && t < |trace| && trace[t].Store?
    requires trace[t].job < |jobs| && HasApi(states[0].routes, RouteAt(jobs, trace, t).domain, first)
    ensures first.version <= RouteAt(jobs, trace, t).version
  {
    var g := GateLetPass(jobs, trace, states, t);
    var x := FloorHolds(jobs, trace, states, g, RouteAt(jobs, trace, t).domain, first);
  }

  /** Storing an update takes every other host back to where it was at the load. */
  lemma OthersReverted(jobs: seq<Job>, trace: seq<Act>, states: seq<Race>, t: nat, domain: string, r: Route)
    requires Execution(jobs, trace, states) && Puts(jobs) && t < |trace| && trace[t].Store?
    ensures trace[t].job < |jobs| && LoadOf(trace, t) >= 0
    ensures domain != RouteAt(jobs, trace, t).domain ==>
              (HasApi(states[t + 1].routes, domain, r) <==> HasApi(states[LoadOf(trace, t)].routes, domain, r))
  {
    StoredFromLoad(jobs, trace, states, t);
    KeysStayDistinct(jobs, trace, states, LoadOf(trace, t));
    WrittenHost(states[LoadOf(trace, t)].routes, RouteAt(jobs, trace, t), domain, r);
  }

  // ----- Such interleavings exist -----

  lemma ExecutionSnoc(jobs: seq<Job>, trace: seq<Act>, states: seq<Race>, a: Act)
    requires Execution(jobs, trace, states) && Enabled(jobs, states[|trace|], a)
    ensures Execution(jobs, trace + [a], states + [Perform(jobs, states[|trace|], a)])
  {
    var longer, more := trace + [a], states + [Perform(jobs, states[|trace|], a)];
    forall k | 0 <= k < |longer|
      ensures Moves(jobs, more[k], longer[k], more[k + 1])
    {
      if k < |trace| {
        assert Moves(jobs, states[k], trace[k], states[k + 1]);
      }
    }
  }

  /** An execution from an empty table that has come to a state. */
  ghost predicate Begins(jobs: seq<Job>, trace: seq<Act>, states: seq<Race>, s: Race) {
    Execution(jobs, trace, states) && states[0].routes == [] && states[|trace|] == s
  }

  lemma Next(jobs: seq<Job>, trace: seq<Act>, states: seq<Race>, s: Race, a: Act, s': Race)
    requires Begins(jobs, trace, states, s) && Moves(jobs, s, a, s')
    ensures Begins(jobs, trace + [a], states + [s'], s')
  {
    ExecutionSnoc(jobs, trace, states, a);
  }

  /** Two updates have passed their gates on an empty table. */
  lemma BothCleared(p: Route, q: Route) returns (states: seq<Race>)
    requires Admissible(p) && Admissible(q)
    ensures var jobs := [Job(UpsertApi(p), true), Job(UpsertApi(q), true)];
            Begins(jobs, [Check(0), Check(1)], states, Race([], [Cleared, Cleared]))
  {
    var jobs := [Job(UpsertApi(p), true), Job(UpsertApi(q), true)];
    GateIff([], p);
    GateIff([], q);
    var s0, s1, s2 := Race([], [Waiting, Waiting]), Race([], [Cleared, Waiting]), Race([], [Cleared, Cleared]);
    assert s0.phases[0 := Cleared] == s1.phases && s1.phases[1 := Cleared] == s2.phases;
    assert Begins(jobs, [], [s0], s0);
    Next(jobs, [], [s0], s0, Check(0), s1);
    Next(jobs, [] + [Check(0)], [s0] + [s1], s1, Check(1), s2);
    assert [] + [Check(0)] + [Check(1)] == [Check(0), Check(1)];
    states := [s0] + [s1] + [s2];
  }

  /** Four more steps. */
  lemma FourMore(
    jobs: seq<Job>, states: seq<Race>, s2: Race, a: Act, s3: Race, b: Act, s4: Race, c: Act, s5: Race, d: Act, s6: Race)
    returns (trace: seq<Act>, all: seq<Race>)
    requires Begins(jobs, [Check(0), Check(1)], states, s2)
    requires Moves(jobs, s2, a, s3) && Moves(jobs, s3, b, s4) && Moves(jobs, s4, c, s5) && Moves(jobs, s5, d, s6)
    ensures |trace| == 6 && Execution(jobs, trace, all) && all[5] == s5 && all[6] == s6
  {
    trace, all := [Check(0), Check(1)], states;
    Next(jobs, trace, all, s2, a, s3);
    trace, all := trace + [a], all + [s3];
    Next(jobs, trace, all, s3, b, s4);
    trace, all := trace + [b], all + [s4];
    Next(jobs, trace, all, s4, c, s5);
    trace, all := trace + [c], all + [s5];
    Next(jobs, trace, all, s5, d, s6);
    trace, all := trace + [d], all + [s6];
  }

  /** Two updates of one host, the newer stored before the older one loads: the version goes down. */
  lemma RaceLowers(older: Route, newer: Route) returns (trace: seq<Act>, states: seq<Race>)
    requires Admissible(older) && Admissible(newer) && older.domain == newer.domain && older.version < newer.version
    ensures |trace| == 6 && Execution([Job(UpsertApi(older), true), Job(UpsertApi(newer), true)], trace, states)
    ensures Lowers(states[5].routes, states[6].routes, older.domain)
  {
    var jobs := [Job(UpsertApi(older), true), Job(UpsertApi(newer), true)];
    var one := Written([], UpsertApi(newer));
    var two := Written(one, UpsertApi(older));
    LoweringMoves(older, newer, one, two);
    states := BothCleared(older, newer);
    trace, states := FourMore(
      jobs, states, Race([], [Cleared, Cleared]), Load(1), Race([], [Cleared, Held([])]), Store(1), Race(one, [Cleared, Over]),
      Load(0), Race(one, [Held(one), Over]), Store(0), Race(two, [Over, Over]));
    WrittenLowers(older, newer, one, two);
  }

  lemma LoweringMoves(older: Route, newer: Route, one: seq<Route>, two: seq<Route>)
    requires one == Written([], UpsertApi(newer)) && two == Written(one, UpsertApi(older))
    ensures var jobs := [Job(UpsertApi(older), true), Job(UpsertApi(newer), true)];
            && Moves(jobs, Race([], [Cleared, Cleared]), Load(1), Race([], [Cleared, Held([])]))
            && Moves(jobs, Race([], [Cleared, Held([])]), Store(1), Race(one, [Cleared, Over]))
            && Moves(jobs, Race(one, [Cleared, Over]), Load(0), Race(one, [Held(one), Over]))
            && Moves(jobs, Race(one, [Held(one), Over]), Store(0), Race(two, [Over, Over]))
  {
    var jobs := [Job(UpsertApi(older), true), Job(UpsertApi(newer), true)];
    Loads(jobs, [], [Cleared, Cleared], 1, [Cleared, Held([])]);
    Stores(jobs, [], [Cleared, Held([])], 1, one, [Cleared, Over]);
    Loads(jobs, one, [Cleared, Over], 0, [Held(one), Over]);
    Stores(jobs, one, [Held(one), Over], 0, two, [Over, Over]);
  }

  lemma Loads(jobs: seq<Job>, routes: seq<Route>, phases: seq<Phase>, i: nat, next: seq<Phase>)
    requires i < |jobs| == |phases| && jobs[i].gated && phases[i].Cleared? && next == phases[i := Held(routes)]
    ensures Moves(jobs, Race(routes, phases), Load(i), Race(routes, next))
  {
  }

  lemma Stores(jobs: seq<Job>, routes: seq<Route>, phases: seq<Phase>, i: nat, written: seq<Route>, next: seq<Phase>)
    requires i < |jobs| == |phases| && phases[i].Held? && !Idle(jobs[i].op) && next == phases[i := Over]
    requires written == Written(phases[i].snapshot, jobs[i].op)
    ensures Moves(jobs, Race(routes, phases), Store(i), Race(written, next))
  {
  }

  lemma WrittenLowers(older: Route, newer: Route, one: seq<Route>, two: seq<Route>)
    requires Admissible(older) && Admissible(newer) && older.domain == newer.domain && older.version < newer.version
    requires one == Written([], UpsertApi(newer)) && two == Written(one, UpsertApi(older))
    ensures Lowers(one, two, older.domain)
  {
    WrittenHost([], newer, newer.domain, newer);
    WrittenDistinct([], UpsertApi(newer));
    WrittenHost(one, older, older.domain, older);
  }

  /** Updates of two hosts that load one table: the first to be stored is lost. */
  lemma RaceLoses(p: Route, q: Route) returns (trace: seq<Act>, states: seq<Race>)
    requires Admissible(p) && Admissible(q) && p.domain != q.domain
    ensures |trace| == 6 && Execution([Job(UpsertApi(p), true), Job(UpsertApi(q), true)], trace, states)
    ensures HasApi(states[5].routes, p.domain, p) && !HasApi(states[6].routes, p.domain, p)
  {
    var jobs := [Job(UpsertApi(p), true), Job(UpsertApi(q), true)];
    var one, two := Written([], UpsertApi(p)), Written([], UpsertApi(q));
    LosingMoves(p, q, one, two);
    states := BothCleared(p, q);
    trace, states := FourMore(
      jobs, states, Race([], [Cleared, Cleared]), Load(0), Race([], [Held([]), Cleared]), Load(1), Race([], [Held([]), Held([])]),
      Store(0), Race(one, [Over, Held([])]), Store(1), Race(two, [Over, Over]));
    WrittenHost([], p, p.domain, p);
    WrittenHost([], q, p.domain, p);
  }

  lemma BothLoad(jobs: seq<Job>)
    requires |jobs| == 2 && jobs[0].gated && jobs[1].gated
    ensures Moves(jobs, Race([], [Cleared, Cleared]), Load(0), Race([], [Held([]), Cleared]))
    ensures Moves(jobs, Race([], [Held([]), Cleared]), Load(1), Race([], [Held([]), Held([])]))
  {
    Loads(jobs, [], [Cleared, Cleared], 0, [Held([]), Cleared]);
    Loads(jobs, [], [Held([]), Cleared], 1, [Held([]), Held([])]);
  }

  lemma LosingMoves(p: Route, q: Route, one: seq<Route>, two: seq<Route>)
    requires one == Written([], UpsertApi(p)) && two == Written([], UpsertApi(q))
    ensures var jobs := [Job(UpsertApi(p), true), Job(UpsertApi(q), true)];
            && Moves(jobs, Race([], [Cleared, Cleared]), Load(0), Race([], [Held([]), Cleared]))
            && Moves(jobs, Race([], [Held([]), Cleared]), Load(1), Race([], [Held([]), Held([])]))
            && Moves(jobs, Race([], [Held([]), Held([])]), Store(0), Race(one, [Over, Held([])]))
            && Moves(jobs, Race(one, [Over, Held([])]), Store(1), Race(two, [Over, Over]))
  {
    var jobs := [Job(UpsertApi(p), true), Job(UpsertApi(q), true)];
    BothLoad(jobs);
    Stores(jobs, [], [Held([]), Held([])], 0, one, [Over, Held([])]);
    Stores(jobs, one, [Over, Held([])], 1, two, [Over, Over]);
  }
}
