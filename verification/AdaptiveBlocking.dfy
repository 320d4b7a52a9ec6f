// The adaptive blocker: windows, thresholds and timed blocks (edge/crates/ddos/src/lib.rs).
module AdaptiveBlocking {
  import opened Text
  import opened SlidingWindow

  type Ip = int

  datatype Reason = CrossDomainRequestVolume | HighRequestVolume | SuspiciousPathScanner | CrossDomainFailures
  datatype Block = Block(reason: Reason, blockedAt: nat, expiresAt: nat, totals: Totals)
  datatype State = State(windows: map<Ip, IpWindow>, blocks: map<Ip, Block>)

  function TriggerReason(c: Config, t: Totals): Option<Reason> {
    if t.requests >= c.requestThreshold && t.domains >= c.domainThreshold then Some(CrossDomainRequestVolume)
    else if t.requests >= c.highRequestThreshold && t.domains >= c.highRequestDomainThreshold then Some(HighRequestVolume)
    else if t.suspicious >= c.suspiciousThreshold && t.suspiciousDomains >= c.suspiciousDomainThreshold
      then Some(SuspiciousPathScanner)
    else if t.failures >= c.failureThreshold && t.failureDomains >= c.failureDomainThreshold then Some(CrossDomainFailures)
    else None
  }

  /** Each reason is given exactly when its two thresholds are met and those of no earlier reason are. */
  lemma TriggerMeans(c: Config, t: Totals)
    ensures var volume := c.requestThreshold <= t.requests && c.domainThreshold <= t.domains;
            var high := c.highRequestThreshold <= t.requests && c.highRequestDomainThreshold <= t.domains;
            var probes := c.suspiciousThreshold <= t.suspicious && c.suspiciousDomainThreshold <= t.suspiciousDomains;
            var failures := c.failureThreshold <= t.failures && c.failureDomainThreshold <= t.failureDomains;
            var reason := TriggerReason(c, t);
            && (reason == Some(CrossDomainRequestVolume) <==> volume)
            && (reason == Some(HighRequestVolume) <==> high && !volume)
            && (reason == Some(SuspiciousPathScanner) <==> probes && !volume && !high)
            && (reason == Some(CrossDomainFailures) <==> failures && !volume && !high && !probes)
            && (reason.Some? <==> volume || high || probes || failures)
  {
  }

  function Swept(c: Config, windows: map<Ip, IpWindow>, now: nat): map<Ip, IpWindow> {
    map ip | ip in windows && !Stale(c, windows[ip], now) :: windows[ip]
  }

  function Live(blocks: map<Ip, Block>, now: nat): map<Ip, Block> {
    map ip | ip in blocks && blocks[ip].expiresAt > now :: blocks[ip]
  }

  function Slot(windows: map<Ip, IpWindow>, ip: Ip): Option<IpWindow> {
    if ip in windows then Some(windows[ip]) else None
  }

  /** A check forgets a block that has run out. */
  function Checked(c: Config, st: State, ip: Ip, exempt: bool, now: nat): (State, bool) {
    if !c.enabled || exempt || ip !in st.blocks then (st, false)
    else if st.blocks[ip].expiresAt > now then (st, true)
    else (st.(blocks := st.blocks - {ip}), false)
  }

  function BlockFor(c: Config, at: nat, totals: Totals): Option<Block> {
    match TriggerReason(c, totals)
    case None => None
    case Some(reason) => Some(Block(reason, at, at + Max(c.blockSeconds, 1) * 1000, totals))
  }

  /** Counts the event of a tracked or trackable address and blocks the address when a threshold is met. */
  function Counted(c: Config, st: State, ip: Ip, e: Event): (State, Option<Block>) {
    var w := Record(c, if ip in st.windows then st.windows[ip] else UNSEEN, e);
    var block := BlockFor(c, e.at, Sizes(SumUp(w.buckets)));
    (State(st.windows[ip := w], if block.Some? then st.blocks[ip := block.value] else st.blocks), block)
  }

  /** The state in which an event meets the window table, and whether it gets to be counted. */
  datatype Admission = Admission(state: State, swept: bool, full: bool, counted: bool)

  /** `due` says whether half a minute has passed since the last sweep; `now` is the clock of the block check. */
  function Admit(c: Config, st: State, ip: Ip, e: Event, due: bool, now: nat): Admission {
    var s1 := if due then State(Swept(c, st.windows, e.at), Live(st.blocks, e.at)) else st;
    var (s2, blocked) := Checked(c, s1, ip, false, now);
    if blocked then Admission(s2, due, false, false)
    else if |s2.windows| >= c.maxTrackedIps && ip !in s2.windows then
      var s3 := s2.(windows := Swept(c, s2.windows, e.at));
      Admission(s3, due, true, |s3.windows| < c.maxTrackedIps)
    else Admission(s2, due, false, true)
  }

  function Recorded(c: Config, st: State, ip: Ip, e: Event, exempt: bool, due: bool, now: nat): (State, Option<Block>) {
    if !c.enabled || exempt then (st, None)
    else
      var a := Admit(c, st, ip, e, due, now);
      if a.counted then Counted(c, a.state, ip, e) else (a.state, None)
  }

  class AdaptiveBlocker {
    const config: Config
    var windows: map<Ip, IpWindow>
    var blocks: map<Ip, Block>

    function Value(): State
      reads this
    {
      State(windows, blocks)
    }

    constructor (config: Config)
      ensures this.config == config && Value() == State(map[], map[])
    {
      this.config := config;
      windows := map[];
      blocks := map[];
    }

    method Check(ip: Ip, exempt: bool, now: nat) returns (blocked: bool)
      modifies this`blocks
      ensures (Value(), blocked) == Checked(config, old(Value()), ip, exempt, now)
    {
      if !config.enabled || exempt {
        return false;
      }
      if ip in blocks {
        if blocks[ip].expiresAt > now {
          return true;
        }
        blocks := blocks - {ip};
      }
      return false;
    }

    /** The operator lifts a block before its time. */
    method Unblock(ip: Ip) returns (removed: bool)
      modifies this`blocks
      ensures removed <==> ip in old(blocks)
      ensures blocks == old(blocks) - {ip}
      ensures forall now, exempt :: !Checked(config, Value(), ip, exempt, now).1
    {
      removed := ip in blocks;
      blocks := blocks - {ip};
    }

    method RecordRequest(ip: Ip, e: Event, exempt: bool, due: bool, now: nat) returns (r: Option<Block>)
      modifies this
      ensures (Value(), r) == Recorded(config, old(Value()), ip, e, exempt, due, now)
    {
      if !config.enabled || exempt {
        return None;
      }
      var counted := AdmitEvent(ip, e, due, now);
      if !counted {
        return None;
      }
      r := CountEvent(ip, e);
    }

    /** Sweeps when one is due or the table is full; says whether the event is to be counted. */
    method AdmitEvent(ip: Ip, e: Event, due: bool, now: nat) returns (counted: bool)
      modifies this
      ensures var a := Admit(config, old(Value()), ip, e, due, now); Value() == a.state && counted == a.counted
    {
      if due {
        windows := Swept(config, windows, e.at);
        blocks := Live(blocks, e.at);
      }
      var blocked := Check(ip, false, now);
      if blocked {
        return false;
      }
      if |windows| >= config.maxTrackedIps && ip !in windows {
        windows := Swept(config, windows, e.at);
        return |windows| < config.maxTrackedIps;
      }
      return true;
    }

    method CountEvent(ip: Ip, e: Event) returns (r: Option<Block>)
      modifies this
      ensures (Value(), r) == Counted(config, old(Value()), ip, e)
    {
      var w := if ip in windows then windows[ip] else UNSEEN;
      var trimmed := TrimBuckets(w.buckets, Oldest(config, e.at));
      var buckets := InsertEvent(trimmed, StartOf(config, e.at), e);
      windows := windows[ip := IpWindow(buckets, e.at)];
      var totals := WindowTotals(buckets);
      var reason := TriggerReason(config, totals);
      if reason.None? {
        return None;
      }
      var block := Block(reason.value, e.at, e.at + Max(config.blockSeconds, 1) * 1000, totals);
      blocks := blocks[ip := block];
      r := Some(block);
    }
  }

  // ----- When an event is counted, said over the maps and the clocks -----

  /** The addresses whose windows have not been idle longer than the window and five minutes. */
  function Awake(c: Config, windows: map<Ip, IpWindow>, at: nat): set<Ip> {
    set ip | ip in windows && at <= windows[ip].lastSeen + (Max(c.windowSeconds, 1) + 300) * 1000
  }

  /** A block the check meets: not run out by its clock, nor by the event's when a sweep is due. */
  predicate InForce(st: State, ip: Ip, at: nat, due: bool, now: nat) {
    ip in st.blocks && now < st.blocks[ip].expiresAt && (due ==> at < st.blocks[ip].expiresAt)
  }

  /** There is a window to count in: its own, still there, or a free one. */
  predicate HasRoom(c: Config, st: State, ip: Ip, at: nat, due: bool) {
    || (ip in st.windows && (due ==> ip in Awake(c, st.windows, at)))
    || |Awake(c, st.windows, at)| < c.maxTrackedIps
  }

  lemma SubsetSize<T>(a: set<T>, b: set<T>)
    requires a <= b
    ensures |a| <= |b|
  {
    assert b == a + (b - a);
  }

  lemma SweptIsAwake(c: Config, windows: map<Ip, IpWindow>, at: nat)
    ensures Swept(c, windows, at).Keys == Awake(c, windows, at) <= windows.Keys
    ensures |Swept(c, windows, at)| == |Awake(c, windows, at)| <= |windows|
    ensures Swept(c, Swept(c, windows, at), at) == Swept(c, windows, at)
  {
    var swept := Swept(c, windows, at);
    assert forall ip :: ip in swept <==> ip in windows && !Stale(c, windows[ip], at);
    assert forall ip :: ip in Awake(c, windows, at) <==> ip in windows && !Stale(c, windows[ip], at);
    assert swept.Keys == Awake(c, windows, at);
    SubsetSize(Awake(c, windows, at), windows.Keys);
    assert |swept| == |swept.Keys| && |windows| == |windows.Keys|;
  }

  /** An event is counted exactly when no block of its address is in force and there is a window for it. */
  lemma AdmitIff(c: Config, st: State, ip: Ip, e: Event, due: bool, now: nat)
    requires c.enabled
    ensures Admit(c, st, ip, e, due, now).counted <==> !InForce(st, ip, e.at, due, now) && HasRoom(c, st, ip, e.at, due)
  {
    SweptIsAwake(c, st.windows, e.at);
  }

  /** What a recorded request leaves in its address's window, and whether it can block. */
  lemma RecordedIff(c: Config, st: State, ip: Ip, e: Event, due: bool, now: nat)
    requires c.enabled
    ensures var (st', block) := Recorded(c, st, ip, e, false, due, now);
            var own := if due && ip !in Awake(c, st.windows, e.at) then None else Slot(st.windows, ip);
            if !InForce(st, ip, e.at, due, now) && HasRoom(c, st, ip, e.at, due)
            then Slot(st'.windows, ip) == Some(Record(c, if own.Some? then own.value else UNSEEN, e))
            else Slot(st'.windows, ip) == own && block.None?
  {
    AdmitIff(c, st, ip, e, due, now);
    SweptIsAwake(c, st.windows, e.at);
    AdmitSlot(c, st, ip, e, due, now, ip);
  }

  // ----- Every slot of the table lives by the steps of its own window -----

  /** The steps one recorded request means for the window of `other`. */
  function StepsFor(c: Config, st: State, ip: Ip, e: Event, exempt: bool, due: bool, now: nat, other: Ip): seq<Step> {
    if !c.enabled || exempt then []
    else
      var a := Admit(c, st, ip, e, due, now);
      Opt(a.swept, Sweep(e.at)) + Opt(a.full, Sweep(e.at)) + Opt(other == ip && a.counted, Seen(e))
  }

  function Opt(taken: bool, s: Step): seq<Step> {
    if taken then [s] else []
  }

  function AdvanceIf(c: Config, slot: Option<IpWindow>, taken: bool, s: Step): Option<IpWindow> {
    if taken then Advance(c, true, slot, s) else slot
  }

  function AdvanceAll(c: Config, slot: Option<IpWindow>, steps: seq<Step>): Option<IpWindow> {
    if steps == [] then slot
    else Advance(c, true, AdvanceAll(c, slot, steps[..|steps| - 1]), steps[|steps| - 1])
  }

  lemma {:induction false} AdvanceConcat(c: Config, slot: Option<IpWindow>, a: seq<Step>, b: seq<Step>)
    ensures AdvanceAll(c, slot, a + b) == AdvanceAll(c, AdvanceAll(c, slot, a), b)
  {
    if b == [] {
      assert a + b == a;
    } else {
      assert (a + b)[..|a + b| - 1] == a + b[..|b| - 1];
      AdvanceConcat(c, slot, a, b[..|b| - 1]);
    }
  }

  lemma AdvanceOpt(c: Config, slot: Option<IpWindow>, taken: bool, s: Step)
    ensures AdvanceAll(c, slot, Opt(taken, s)) == AdvanceIf(c, slot, taken, s)
  {
    assert [s][..0] == [];
  }

  lemma AdvanceThree(c: Config, slot: Option<IpWindow>, x: bool, s: Step, y: bool, t: Step, z: bool, u: Step)
    ensures AdvanceAll(c, slot, Opt(x, s) + Opt(y, t) + Opt(z, u)) ==
            AdvanceIf(c, AdvanceIf(c, AdvanceIf(c, slot, x, s), y, t), z, u)
  {
    AdvanceConcat(c, slot, Opt(x, s) + Opt(y, t), Opt(z, u));
    AdvanceConcat(c, slot, Opt(x, s), Opt(y, t));
    AdvanceOpt(c, slot, x, s);
    AdvanceOpt(c, AdvanceIf(c, slot, x, s), y, t);
    AdvanceOpt(c, AdvanceIf(c, AdvanceIf(c, slot, x, s), y, t), z, u);
  }

  lemma SweptSlot(c: Config, windows: map<Ip, IpWindow>, now: nat, ip: Ip)
    ensures Slot(Swept(c, windows, now), ip) == Advance(c, true, Slot(windows, ip), Sweep(now))
  {
  }

  lemma CountedSlot(c: Config, st: State, ip: Ip, e: Event, other: Ip)
    ensures Slot(Counted(c, st, ip, e).0.windows, other) ==
            AdvanceIf(c, Slot(st.windows, other), other == ip, Seen(e))
    ensures other != ip && other in st.blocks ==>
              other in Counted(c, st, ip, e).0.blocks && Counted(c, st, ip, e).0.blocks[other] == st.blocks[other]
  {
  }

  /** Recording a request moves every address's window by sweeps, and only its own by the event. */
  lemma RecordProjects(c: Config, st: State, ip: Ip, e: Event, exempt: bool, due: bool, now: nat, other: Ip)
    ensures Slot(Recorded(c, st, ip, e, exempt, due, now).0.windows, other) ==
            AdvanceAll(c, Slot(st.windows, other), StepsFor(c, st, ip, e, exempt, due, now, other))
  {
    if c.enabled && !exempt {
      var a := Admit(c, st, ip, e, due, now);
      AdmitSlot(c, st, ip, e, due, now, other);
      CountedSlot(c, a.state, ip, e, other);
      AdvanceThree(c, Slot(st.windows, other), a.swept, Sweep(e.at), a.full, Sweep(e.at), other == ip && a.counted, Seen(e));
    }
  }

  lemma AdmitSlot(c: Config, st: State, ip: Ip, e: Event, due: bool, now: nat, other: Ip)
    ensures var a := Admit(c, st, ip, e, due, now);
            Slot(a.state.windows, other) ==
            AdvanceIf(c, AdvanceIf(c, Slot(st.windows, other), a.swept, Sweep(e.at)), a.full, Sweep(e.at))
  {
    var s1 := if due then State(Swept(c, st.windows, e.at), Live(st.blocks, e.at)) else st;
    SweptSlot(c, st.windows, e.at, other);
    SweptSlot(c, s1.windows, e.at, other);
  }

  /** An address is blocked exactly when the events still in its window meet a threshold. */
  lemma BlocksOnCounts(c: Config, st: State, ip: Ip, es: seq<Event>, e: Event)
    requires Ordered(es + [e])
    requires Slot(st.windows, ip) == if es == [] then None else Some(RecordAll(c, es))
    ensures var kept := Kept(Starts(c), es + [e], Oldest(c, e.at));
            var (st', block) := Counted(c, st, ip, e);
            && ip in st'.windows && st'.windows[ip] == RecordAll(c, es + [e])
            && (block.Some? <==> TriggerReason(c, Sizes(CountUp(kept))).Some?)
            && (block.Some? ==> block.value.reason == TriggerReason(c, Sizes(CountUp(kept))).value
                                && block.value.expiresAt == e.at + Max(c.blockSeconds, 1) * 1000
                                && st'.blocks[ip] == block.value)
  {
    WindowAfter(c, st, ip, es, e);
    TotalsAreCounts(c, es + [e]);
    CountedBlock(c, st, ip, e, RecordAll(c, es + [e]));
  }

  lemma WindowAfter(c: Config, st: State, ip: Ip, es: seq<Event>, e: Event)
    requires Slot(st.windows, ip) == if es == [] then None else Some(RecordAll(c, es))
    ensures Record(c, if ip in st.windows then st.windows[ip] else UNSEEN, e) == RecordAll(c, es + [e])
  {
    assert (es + [e])[..|es|] == es;
  }

  lemma CountedBlock(c: Config, st: State, ip: Ip, e: Event, w: IpWindow)
    requires Record(c, if ip in st.windows then st.windows[ip] else UNSEEN, e) == w
    ensures var (st', block) := Counted(c, st, ip, e);
            && st'.windows == st.windows[ip := w]
            && block == BlockFor(c, e.at, Sizes(SumUp(w.buckets)))
            && (block.Some? ==> st'.blocks == st.blocks[ip := block.value])
  {
  }

  // ----- A block lasts exactly its time -----

  datatype Operation =
    | CheckOp(ip: Ip, exempt: bool, now: nat)
    | UnblockOp(ip: Ip)
    | RecordOp(ip: Ip, event: Event, exempt: bool, due: bool, now: nat)

  function Perform(c: Config, st: State, op: Operation): State {
    match op
    case CheckOp(ip, exempt, now) => Checked(c, st, ip, exempt, now).0
    case UnblockOp(ip) => st.(blocks := st.blocks - {ip})
    case RecordOp(ip, e, exempt, due, now) => Recorded(c, st, ip, e, exempt, due, now).0
  }

  function PerformAll(c: Config, st: State, ops: seq<Operation>): State {
    if ops == [] then st else Perform(c, PerformAll(c, st, ops[..|ops| - 1]), ops[|ops| - 1])
  }

  /** Both clocks an operation reads are before `limit`. */
  predicate Before(op: Operation, limit: nat) {
    match op
    case CheckOp(_, _, now) => now < limit
    case UnblockOp(_) => true
    case RecordOp(_, e, _, _, now) => now < limit && e.at < limit
  }

  lemma BlockKept(c: Config, st: State, op: Operation, ip: Ip)
    requires c.enabled && ip in st.blocks && Before(op, st.blocks[ip].expiresAt)
    requires op.RecordOp? && op.ip == ip ==> !op.exempt
    requires op != UnblockOp(ip)
    ensures ip in Perform(c, st, op).blocks && Perform(c, st, op).blocks[ip] == st.blocks[ip]
    ensures op.RecordOp? && op.ip == ip ==> Recorded(c, st, ip, op.event, op.exempt, op.due, op.now).1 == None
  {
    if op.RecordOp? && !op.exempt {
      AdmitKeepsBlock(c, st, op.ip, op.event, op.due, op.now, ip);
      CountedSlot(c, Admit(c, st, op.ip, op.event, op.due, op.now).state, op.ip, op.event, ip);
    }
  }

  lemma AdmitKeepsBlock(c: Config, st: State, ip: Ip, e: Event, due: bool, now: nat, other: Ip)
    requires c.enabled && other in st.blocks && now < st.blocks[other].expiresAt && e.at < st.blocks[other].expiresAt
    ensures var a := Admit(c, st, ip, e, due, now);
            && other in a.state.blocks && a.state.blocks[other] == st.blocks[other]
            && (other == ip ==> !a.counted)
  {
  }

  /** Until it runs out a block survives every run in which nobody lifts it, and a check sees it exactly until then. */
  lemma {:induction false} BlockLastsExactly(c: Config, st: State, ops: seq<Operation>, ip: Ip, now: nat)
    requires c.enabled && ip in st.blocks
    requires forall k :: 0 <= k < |ops| ==> Before(ops[k], st.blocks[ip].expiresAt)
    requires forall k :: 0 <= k < |ops| && ops[k].RecordOp? && ops[k].ip == ip ==> !ops[k].exempt
    requires UnblockOp(ip) !in ops
    ensures var st' := PerformAll(c, st, ops);
            && ip in st'.blocks && st'.blocks[ip] == st.blocks[ip]
            && (Checked(c, st', ip, false, now).1 <==> now < st.blocks[ip].expiresAt)
  {
    if ops != [] {
      BlockLastsExactly(c, st, ops[..|ops| - 1], ip, now);
      BlockKept(c, PerformAll(c, st, ops[..|ops| - 1]), ops[|ops| - 1], ip);
    }
  }

  // ----- Whole runs -----

  const NOTHING_SEEN: State := State(map[], map[])

  /** The clocks of recorded requests do not run backwards. */
  predicate RecordsOrdered(ops: seq<Operation>) {
    forall i, j :: 0 <= i < j < |ops| && ops[i].RecordOp? && ops[j].RecordOp? ==> ops[i].event.at <= ops[j].event.at
  }

  /** Whether the last operation of the run after `st` counts an event of `ip`. */
  predicate Counts(c: Config, st: State, op: Operation, ip: Ip) {
    op.RecordOp? && op.ip == ip && c.enabled && !op.exempt &&
    !InForce(st, ip, op.event.at, op.due, op.now) && HasRoom(c, st, ip, op.event.at, op.due)
  }

  /** The events of one address that a run counts. */
  function CountedOf(c: Config, ops: seq<Operation>, ip: Ip): seq<Event> {
    if ops == [] then []
    else
      var init, last := ops[..|ops| - 1], ops[|ops| - 1];
      CountedOf(c, init, ip) + if Counts(c, PerformAll(c, NOTHING_SEEN, init), last, ip) then [last.event] else []
  }

  function StepsOfOp(c: Config, st: State, op: Operation, ip: Ip): seq<Step> {
    match op
    case CheckOp(_, _, _) => []
    case UnblockOp(_) => []
    case RecordOp(from, e, exempt, due, now) => StepsFor(c, st, from, e, exempt, due, now, ip)
  }

  /** The steps of one address's window in a run. */
  function StepsOf(c: Config, ops: seq<Operation>, ip: Ip): seq<Step> {
    if ops == [] then []
    else
      var init, last := ops[..|ops| - 1], ops[|ops| - 1];
      StepsOf(c, init, ip) + StepsOfOp(c, PerformAll(c, NOTHING_SEEN, init), last, ip)
  }

  function EventsIn(steps: seq<Step>): seq<Event> {
    if steps == [] then []
    else EventsIn(steps[..|steps| - 1]) + if steps[|steps| - 1].Seen? then [steps[|steps| - 1].event] else []
  }

  lemma {:induction false} EventsInConcat(a: seq<Step>, b: seq<Step>)
    ensures EventsIn(a + b) == EventsIn(a) + EventsIn(b)
  {
    if b == [] {
      assert a + b == a;
    } else {
      assert (a + b)[..|a + b| - 1] == a + b[..|b| - 1];
      EventsInConcat(a, b[..|b| - 1]);
    }
  }

  lemma EventsOfOp(c: Config, st: State, op: Operation, ip: Ip)
    ensures EventsIn(StepsOfOp(c, st, op, ip)) == if Counts(c, st, op, ip) then [op.event] else []
  {
    if op.RecordOp? {
      if c.enabled {
        AdmitIff(c, st, op.ip, op.event, op.due, op.now);
      }
      EventsOfRecord(c, st, op.ip, op.event, op.exempt, op.due, op.now, ip);
    }
  }

  lemma EventsOfRecord(c: Config, st: State, from: Ip, e: Event, exempt: bool, due: bool, now: nat, ip: Ip)
    ensures EventsIn(StepsFor(c, st, from, e, exempt, due, now, ip)) ==
            if from == ip && c.enabled && !exempt && Admit(c, st, from, e, due, now).counted then [e] else []
  {
    if c.enabled && !exempt {
      var a := Admit(c, st, from, e, due, now);
      EventsOfThree(a.swept, a.full, ip == from && a.counted, e);
    }
  }

  lemma EventsOfThree(x: bool, y: bool, z: bool, e: Event)
    ensures EventsIn(Opt(x, Sweep(e.at)) + Opt(y, Sweep(e.at)) + Opt(z, Seen(e))) == if z then [e] else []
  {
    var sweep, seen := Sweep(e.at), Seen(e);
    EventsInConcat(Opt(x, sweep) + Opt(y, sweep), Opt(z, seen));
    EventsInConcat(Opt(x, sweep), Opt(y, sweep));
    assert EventsIn([sweep]) == [] && EventsIn([seen]) == [e];
  }

  lemma {:induction false} EventsOfRun(c: Config, ops: seq<Operation>, ip: Ip)
    ensures EventsIn(StepsOf(c, ops, ip)) == CountedOf(c, ops, ip)
  {
    if ops != [] {
      var init, last := ops[..|ops| - 1], ops[|ops| - 1];
      var st := PerformAll(c, NOTHING_SEEN, init);
      EventsOfRun(c, init, ip);
      EventsOfOp(c, st, last, ip);
      EventsInConcat(StepsOf(c, init, ip), StepsOfOp(c, st, last, ip));
    }
  }

  lemma OpProjects(c: Config, st: State, op: Operation, ip: Ip)
    ensures Slot(Perform(c, st, op).windows, ip) == AdvanceAll(c, Slot(st.windows, ip), StepsOfOp(c, st, op, ip))
  {
    if op.RecordOp? {
      RecordProjects(c, st, op.ip, op.event, op.exempt, op.due, op.now, ip);
    }
  }

  lemma {:induction false} RunProjects(c: Config, ops: seq<Operation>, ip: Ip)
    ensures Slot(PerformAll(c, NOTHING_SEEN, ops).windows, ip) == AdvanceAll(c, None, StepsOf(c, ops, ip))
  {
    if ops != [] {
      var init, last := ops[..|ops| - 1], ops[|ops| - 1];
      var st := PerformAll(c, NOTHING_SEEN, init);
      RunProjects(c, init, ip);
      OpProjects(c, st, last, ip);
      AdvanceConcat(c, None, StepsOf(c, init, ip), StepsOfOp(c, st, last, ip));
    }
  }

  lemma {:induction false} AdvanceAllIsAfter(c: Config, steps: seq<Step>)
    ensures AdvanceAll(c, None, steps) == After(c, true, steps)
  {
    if steps != [] {
      AdvanceAllIsAfter(c, steps[..|steps| - 1]);
    }
  }

  /** Without eviction a window is made of the events alone. */
  lemma {:induction false} PlainIsRecordAll(c: Config, steps: seq<Step>)
    ensures var es := EventsIn(steps); After(c, false, steps) == if es == [] then None else Some(RecordAll(c, es))
  {
    if steps != [] {
      var init, last := steps[..|steps| - 1], steps[|steps| - 1];
      PlainIsRecordAll(c, init);
      if last.Seen? {
        var es := EventsIn(init);
        assert (es + [last.event])[..|es|] == es;
      } else {
        assert EventsIn(steps) == EventsIn(init);
      }
    }
  }

  /** Right after an event, eviction has made no difference. */
  lemma SlotAfterEvent(c: Config, steps: seq<Step>)
    requires Max(c.bucketSeconds, 1) <= Max(c.windowSeconds, 1) + 300
    requires StepsOrdered(steps) && steps != [] && steps[|steps| - 1].Seen?
    ensures AdvanceAll(c, None, steps) == Some(RecordAll(c, EventsIn(steps)))
  {
    AdvanceAllIsAfter(c, steps);
    PlainIsRecordAll(c, steps);
    SweepRuns(c, steps);
  }

  predicate NotAfter(steps: seq<Step>, at: nat) {
    forall k :: 0 <= k < |steps| ==> TimeOf(steps[k]) <= at
  }

  predicate NotBefore(steps: seq<Step>, at: nat) {
    forall k :: 0 <= k < |steps| ==> TimeOf(steps[k]) >= at
  }

  lemma StepsJoin(a: seq<Step>, b: seq<Step>, at: nat)
    requires StepsOrdered(a) && StepsOrdered(b) && NotAfter(a, at) && NotBefore(b, at)
    ensures StepsOrdered(a + b)
  {
  }

  lemma OpStepsOrdered(c: Config, st: State, op: Operation, ip: Ip, at: nat)
    requires op.RecordOp? ==> op.event.at == at
    ensures var steps := StepsOfOp(c, st, op, ip); StepsOrdered(steps) && NotAfter(steps, at) && NotBefore(steps, at)
  {
    if op.RecordOp? && c.enabled && !op.exempt {
      var a := Admit(c, st, op.ip, op.event, op.due, op.now);
      StepsAtOnce(Opt(a.swept, Sweep(at)) + Opt(a.full, Sweep(at)) + Opt(ip == op.ip && a.counted, Seen(op.event)), at);
    }
  }

  lemma StepsAtOnce(steps: seq<Step>, at: nat)
    requires forall k :: 0 <= k < |steps| ==> TimeOf(steps[k]) == at
    ensures StepsOrdered(steps) && NotAfter(steps, at) && NotBefore(steps, at)
  {
  }

  lemma {:induction false} RunStepsOrdered(c: Config, ops: seq<Operation>, ip: Ip, at: nat)
    requires RecordsOrdered(ops)
    requires forall k :: 0 <= k < |ops| && ops[k].RecordOp? ==> ops[k].event.at <= at
    ensures StepsOrdered(StepsOf(c, ops, ip)) && NotAfter(StepsOf(c, ops, ip), at)
  {
    if ops != [] {
      var init, last := ops[..|ops| - 1], ops[|ops| - 1];
      var here := if last.RecordOp? then last.event.at else at;
      RunStepsOrdered(c, init, ip, here);
      OpStepsOrdered(c, PerformAll(c, NOTHING_SEEN, init), last, ip, here);
      StepsJoin(StepsOf(c, init, ip), StepsOfOp(c, PerformAll(c, NOTHING_SEEN, init), last, ip), here);
    }
  }

  lemma {:induction false} EventsOrdered(steps: seq<Step>, at: nat)
    requires StepsOrdered(steps) && NotAfter(steps, at)
    ensures Ordered(EventsIn(steps))
    ensures forall k :: 0 <= k < |EventsIn(steps)| ==> EventsIn(steps)[k].at <= at
  {
    if steps != [] {
      EventsOrdered(steps[..|steps| - 1], TimeOf(steps[|steps| - 1]));
    }
  }

  lemma WindowAtEvent(c: Config, ops: seq<Operation>, ip: Ip, at: nat)
    requires Max(c.bucketSeconds, 1) <= Max(c.windowSeconds, 1) + 300
    requires RecordsOrdered(ops)
    requires forall k :: 0 <= k < |ops| && ops[k].RecordOp? ==> ops[k].event.at <= at
    requires var steps := StepsOf(c, ops, ip); steps != [] && steps[|steps| - 1].Seen?
    ensures Ordered(CountedOf(c, ops, ip))
    ensures Slot(PerformAll(c, NOTHING_SEEN, ops).windows, ip) == Some(RecordAll(c, CountedOf(c, ops, ip)))
  {
    var steps := StepsOf(c, ops, ip);
    RunStepsOrdered(c, ops, ip, at);
    EventsOrdered(steps, at);
    EventsOfRun(c, ops, ip);
    RunProjects(c, ops, ip);
    SlotAfterEvent(c, steps);
  }

  lemma LastStepSeen(c: Config, st: State, op: Operation, ip: Ip)
    requires Counts(c, st, op, ip)
    ensures var steps := StepsOfOp(c, st, op, ip); steps != [] && steps[|steps| - 1] == Seen(op.event)
  {
    AdmitIff(c, st, ip, op.event, op.due, op.now);
  }

  /** After a counted request the window holds the counted events of its address and nothing else. */
  lemma WindowOfRun(c: Config, run: seq<Operation>)
    requires Max(c.bucketSeconds, 1) <= Max(c.windowSeconds, 1) + 300
    requires run != [] && RecordsOrdered(run) && run[|run| - 1].RecordOp?
    requires Counts(c, PerformAll(c, NOTHING_SEEN, run[..|run| - 1]), run[|run| - 1], run[|run| - 1].ip)
    ensures var ip := run[|run| - 1].ip;
            && Ordered(CountedOf(c, run, ip))
            && Slot(PerformAll(c, NOTHING_SEEN, run).windows, ip) == Some(RecordAll(c, CountedOf(c, run, ip)))
  {
    var op := run[|run| - 1];
    LastStepSeen(c, PerformAll(c, NOTHING_SEEN, run[..|run| - 1]), op, op.ip);
    WindowAtEvent(c, run, op.ip, op.event.at);
  }

  /**
   * Over every run: its last recorded request blocks the address exactly when it is counted and the counted
   * events of that address still inside the window meet a threshold; sweeps and other addresses play no part.
   */
  lemma RunBlocksOnCounts(c: Config, run: seq<Operation>)
    requires Max(c.bucketSeconds, 1) <= Max(c.windowSeconds, 1) + 300
    requires run != [] && RecordsOrdered(run) && run[|run| - 1].RecordOp?
    ensures var st, op := PerformAll(c, NOTHING_SEEN, run[..|run| - 1]), run[|run| - 1];
            var block := Recorded(c, st, op.ip, op.event, op.exempt, op.due, op.now).1;
            var kept := Kept(Starts(c), CountedOf(c, run, op.ip), Oldest(c, op.event.at));
            block == if Counts(c, st, op, op.ip) then BlockFor(c, op.event.at, Sizes(CountUp(kept))) else None
  {
    var st, op := PerformAll(c, NOTHING_SEEN, run[..|run| - 1]), run[|run| - 1];
    if c.enabled {
      AdmitIff(c, st, op.ip, op.event, op.due, op.now);
    }
    if Counts(c, st, op, op.ip) {
      var es := CountedOf(c, run, op.ip);
      WindowOfRun(c, run);
      assert es[|es| - 1] == op.event;
      TotalsAreCounts(c, es);
      CountedBlock(c, Admit(c, st, op.ip, op.event, op.due, op.now).state, op.ip, op.event, RecordAll(c, es));
    }
  }

  // ----- Runs told by their requests alone -----

  predicate RequestOf(op: Operation, ip: Ip) {
    op.RecordOp? && op.ip == ip && !op.exempt
  }

  /** The requests of one address in a run, counted or not. */
  function RequestsOf(ops: seq<Operation>, ip: Ip): seq<Event> {
    if ops == [] then []
    else
      RequestsOf(ops[..|ops| - 1], ip) + if RequestOf(ops[|ops| - 1], ip) then [ops[|ops| - 1].event] else []
  }

  /** The addresses that send requests in a run. */
  function Senders(ops: seq<Operation>): set<Ip> {
    set k | 0 <= k < |ops| && ops[k].RecordOp? :: ops[k].ip
  }

  lemma SendersSnoc(ops: seq<Operation>, op: Operation)
    ensures Senders(ops) <= Senders(ops + [op])
    ensures op.RecordOp? ==> op.ip in Senders(ops + [op])
  {
    var all := ops + [op];
    forall ip | ip in Senders(ops)
      ensures ip in Senders(all)
    {
      var k :| 0 <= k < |ops| && ops[k].RecordOp? && ops[k].ip == ip;
      assert all[k] == ops[k];
    }
    assert all[|ops|] == op;
  }

  lemma AdmitWindows(c: Config, st: State, ip: Ip, e: Event, due: bool, now: nat, other: Ip)
    requires other !in st.windows
    ensures other !in Admit(c, st, ip, e, due, now).state.windows
  {
  }

  lemma AdmitBlocks(c: Config, st: State, ip: Ip, e: Event, due: bool, now: nat, other: Ip)
    requires other !in st.blocks
    ensures other !in Admit(c, st, ip, e, due, now).state.blocks
  {
  }

  lemma PerformWindows(c: Config, st: State, op: Operation, other: Ip)
    requires other !in st.windows && (op.RecordOp? ==> op.ip != other)
    ensures other !in Perform(c, st, op).windows
  {
    if op.RecordOp? {
      AdmitWindows(c, st, op.ip, op.event, op.due, op.now, other);
    }
  }

  /** Only senders have windows. */
  lemma {:induction false} WindowsOfSenders(c: Config, ops: seq<Operation>)
    ensures PerformAll(c, NOTHING_SEEN, ops).windows.Keys <= Senders(ops)
  {
    if ops != [] {
      var init, last := ops[..|ops| - 1], ops[|ops| - 1];
      WindowsOfSenders(c, init);
      assert ops == init + [last];
      SendersSnoc(init, last);
      forall ip | ip !in Senders(ops)
        ensures ip !in PerformAll(c, NOTHING_SEEN, ops).windows
      {
        PerformWindows(c, PerformAll(c, NOTHING_SEEN, init), last, ip);
      }
    }
  }

  /** While no more addresses send than the table can track, every sender finds room. */
  lemma RoomForSender(c: Config, ops: seq<Operation>)
    requires ops != [] && ops[|ops| - 1].RecordOp? && |Senders(ops)| <= c.maxTrackedIps
    ensures var op := ops[|ops| - 1];
            HasRoom(c, PerformAll(c, NOTHING_SEEN, ops[..|ops| - 1]), op.ip, op.event.at, op.due)
  {
    var init, op := ops[..|ops| - 1], ops[|ops| - 1];
    var windows := PerformAll(c, NOTHING_SEEN, init).windows;
    WindowsOfSenders(c, init);
    assert ops == init + [op];
    SendersSnoc(init, op);
    var awake := Awake(c, windows, op.event.at);
    if op.ip !in awake {
      SubsetSize(awake + {op.ip}, Senders(ops));
    }
  }

  /** The check before a request of `ip` at place `k` meets no block of it. */
  predicate MeetsNoBlock(c: Config, ops: seq<Operation>, ip: Ip, k: nat)
    requires k < |ops|
  {
    RequestOf(ops[k], ip) ==>
      !InForce(PerformAll(c, NOTHING_SEEN, ops[..k]), ip, ops[k].event.at, ops[k].due, ops[k].now)
  }

  lemma SendersShrink(ops: seq<Operation>, c: Config)
    requires ops != [] && |Senders(ops)| <= c.maxTrackedIps
    ensures |Senders(ops[..|ops| - 1])| <= c.maxTrackedIps
  {
    var init, last := ops[..|ops| - 1], ops[|ops| - 1];
    assert ops == init + [last];
    SendersSnoc(init, last);
    SubsetSize(Senders(init), Senders(ops));
  }

  /** When the table never fills and no block is met, every request of the address is counted. */
  lemma {:induction false} AllCounted(c: Config, ops: seq<Operation>, ip: Ip)
    requires c.enabled && |Senders(ops)| <= c.maxTrackedIps
    requires forall k :: 0 <= k < |ops| ==> MeetsNoBlock(c, ops, ip, k)
    ensures CountedOf(c, ops, ip) == RequestsOf(ops, ip)
  {
    if ops != [] {
      var init, last := ops[..|ops| - 1], ops[|ops| - 1];
      SendersShrink(ops, c);
      forall k | 0 <= k < |init|
        ensures MeetsNoBlock(c, init, ip, k)
      {
        assert init[..k] == ops[..k];
        assert MeetsNoBlock(c, ops, ip, k);
      }
      AllCounted(c, init, ip);
      if RequestOf(last, ip) {
        RoomForSender(c, ops);
        assert MeetsNoBlock(c, ops, ip, |ops| - 1);
      }
    }
  }

  /** The block the events `es` of an address earn at a time. */
  function Earned(c: Config, es: seq<Event>, at: nat): Option<Block> {
    BlockFor(c, at, Sizes(CountUp(Kept(Starts(c), es, Oldest(c, at)))))
  }

  /**
   * Over every run with room for its senders and no block met: the last request blocks its address exactly when
   * all the requests of that address still inside the window meet a threshold.
   */
  lemma RunBlocksOnRequests(c: Config, run: seq<Operation>, ip: Ip)
    requires c.enabled && Max(c.bucketSeconds, 1) <= Max(c.windowSeconds, 1) + 300
    requires run != [] && RecordsOrdered(run) && RequestOf(run[|run| - 1], ip)
    requires |Senders(run)| <= c.maxTrackedIps
    requires forall k :: 0 <= k < |run| ==> MeetsNoBlock(c, run, ip, k)
    ensures var st, op := PerformAll(c, NOTHING_SEEN, run[..|run| - 1]), run[|run| - 1];
            Recorded(c, st, ip, op.event, op.exempt, op.due, op.now).1 == Earned(c, RequestsOf(run, ip), op.event.at)
  {
    AllCounted(c, run, ip);
    RunBlocksOnCounts(c, run);
    RoomForSender(c, run);
    assert MeetsNoBlock(c, run, ip, |run| - 1);
  }

  // ----- The first block -----

  /** The requests of `ip` up to place `k` meet no threshold there. */
  predicate Harmless(c: Config, ops: seq<Operation>, ip: Ip, k: nat)
    requires k < |ops|
  {
    RequestOf(ops[k], ip) ==> Earned(c, RequestsOf(ops[..k + 1], ip), ops[k].event.at).None?
  }

  lemma RecordedBlocks(c: Config, st: State, op: Operation, ip: Ip)
    requires op.RecordOp? && ip !in st.blocks
    requires op.ip == ip ==> Recorded(c, st, ip, op.event, op.exempt, op.due, op.now).1.None?
    ensures ip !in Perform(c, st, op).blocks
  {
    AdmitBlocks(c, st, op.ip, op.event, op.due, op.now, ip);
  }

  /** An address whose requests never meet a threshold is never blocked. */
  lemma {:induction false} HarmlessNeverBlocked(c: Config, ops: seq<Operation>, ip: Ip)
    requires c.enabled && Max(c.bucketSeconds, 1) <= Max(c.windowSeconds, 1) + 300
    requires RecordsOrdered(ops) && |Senders(ops)| <= c.maxTrackedIps
    requires forall k :: 0 <= k < |ops| ==> Harmless(c, ops, ip, k)
    ensures ip !in PerformAll(c, NOTHING_SEEN, ops).blocks
    ensures forall k :: 0 <= k < |ops| ==> MeetsNoBlock(c, ops, ip, k)
  {
    if ops != [] {
      var init, last := ops[..|ops| - 1], ops[|ops| - 1];
      SendersShrink(ops, c);
      forall k | 0 <= k < |init|
        ensures Harmless(c, init, ip, k)
      {
        assert init[..k + 1] == ops[..k + 1];
        assert Harmless(c, ops, ip, k);
      }
      HarmlessNeverBlocked(c, init, ip);
      forall k | 0 <= k < |ops|
        ensures MeetsNoBlock(c, ops, ip, k)
      {
        if k < |init| {
          assert init[..k] == ops[..k];
          assert MeetsNoBlock(c, init, ip, k);
        }
      }
      HarmlessLast(c, ops, ip);
    }
  }

  lemma HarmlessLast(c: Config, ops: seq<Operation>, ip: Ip)
    requires c.enabled && Max(c.bucketSeconds, 1) <= Max(c.windowSeconds, 1) + 300
    requires ops != [] && RecordsOrdered(ops) && |Senders(ops)| <= c.maxTrackedIps
    requires ip !in PerformAll(c, NOTHING_SEEN, ops[..|ops| - 1]).blocks
    requires forall k :: 0 <= k < |ops| ==> MeetsNoBlock(c, ops, ip, k)
    requires Harmless(c, ops, ip, |ops| - 1)
    ensures ip !in PerformAll(c, NOTHING_SEEN, ops).blocks
  {
    var st, last := PerformAll(c, NOTHING_SEEN, ops[..|ops| - 1]), ops[|ops| - 1];
    if last.RecordOp? {
      if RequestOf(last, ip) {
        RunBlocksOnRequests(c, ops, ip);
        assert ops[..|ops|] == ops;
      }
      RecordedBlocks(c, st, last, ip);
    }
  }

  /** The first request at which an address's requests inside the window meet a threshold blocks it, and none before. */
  lemma FirstBlock(c: Config, run: seq<Operation>, ip: Ip)
    requires c.enabled && Max(c.bucketSeconds, 1) <= Max(c.windowSeconds, 1) + 300
    requires run != [] && RecordsOrdered(run) && RequestOf(run[|run| - 1], ip)
    requires |Senders(run)| <= c.maxTrackedIps
    requires forall k :: 0 <= k < |run| - 1 ==> Harmless(c, run, ip, k)
    ensures var st, op := PerformAll(c, NOTHING_SEEN, run[..|run| - 1]), run[|run| - 1];
            && ip !in st.blocks
            && Recorded(c, st, ip, op.event, op.exempt, op.due, op.now).1 == Earned(c, RequestsOf(run, ip), op.event.at)
  {
    var init := run[..|run| - 1];
    SendersShrink(run, c);
    forall k | 0 <= k < |init|
      ensures Harmless(c, init, ip, k)
    {
      assert init[..k + 1] == run[..k + 1];
      assert Harmless(c, run, ip, k);
    }
    HarmlessNeverBlocked(c, init, ip);
    forall k | 0 <= k < |run|
      ensures MeetsNoBlock(c, run, ip, k)
    {
      if k < |init| {
        assert init[..k] == run[..k];
        assert MeetsNoBlock(c, init, ip, k);
      }
    }
    RunBlocksOnRequests(c, run, ip);
  }
}
