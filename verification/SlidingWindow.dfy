// The adaptive blocker's per-address sliding window (edge/crates/ddos/src/lib.rs).
module SlidingWindow {
  import opened Text

  datatype Config = Config(
    enabled: bool, windowSeconds: nat, bucketSeconds: nat, blockSeconds: nat, maxTrackedIps: nat,
    requestThreshold: nat, domainThreshold: nat,
    highRequestThreshold: nat, highRequestDomainThreshold: nat,
    suspiciousThreshold: nat, suspiciousDomainThreshold: nat,
    failureThreshold: nat, failureDomainThreshold: nat)

  /** One observed request of an address: time in milliseconds, host, and the two verdicts on it. */
  datatype Event = Event(at: nat, domain: string, failed: bool, suspicious: bool)

  datatype Bucket = Bucket(
    start: nat, requests: nat, failures: nat, suspicious: nat,
    domains: set<string>, failureDomains: set<string>, suspiciousDomains: set<string>)

  datatype IpWindow = IpWindow(buckets: seq<Bucket>, lastSeen: nat)

  datatype Totals = Totals(
    requests: nat, domains: nat, failures: nat, failureDomains: nat, suspicious: nat, suspiciousDomains: nat)

  function Max(a: nat, b: nat): (m: nat)
    ensures m >= a && m >= b && (m == a || m == b)
  {
    if a >= b then a else b
  }

  function BucketMs(c: Config): (n: nat)
    ensures n >= 1000
  {
    Max(c.bucketSeconds, 1) * 1000
  }

  function WindowMs(c: Config): nat {
    Max(c.windowSeconds, Max(c.bucketSeconds, 1)) * 1000
  }

  function StaleMs(c: Config): nat {
    (Max(c.windowSeconds, 1) + 300) * 1000
  }

  function StartOf(c: Config, at: nat): (s: nat)
    ensures s <= at < s + BucketMs(c)
  {
    DivMod(at, BucketMs(c));
    at / BucketMs(c) * BucketMs(c)
  }

  lemma DivMod(a: nat, b: nat)
    requires b > 0
    ensures 0 <= a / b * b <= a < a / b * b + b
  {
  }

  lemma StartMonotone(c: Config, a: nat, b: nat)
    requires a <= b
    ensures StartOf(c, a) <= StartOf(c, b)
  {
    DivMonotone(a, b, BucketMs(c));
  }

  lemma DivMonotone(a: nat, b: nat, m: nat)
    requires a <= b && m > 0
    ensures a / m * m <= b / m * m
  {
    DivMod(a, m);
    DivMod(b, m);
    if a / m > b / m {
      MulStep(b / m, a / m, m);
    } else {
      MulLe(a / m, b / m, m);
    }
  }

  lemma MulLe(x: nat, y: nat, m: nat)
    requires x <= y
    ensures x * m <= y * m
  {
  }

  lemma MulStep(x: nat, y: nat, m: nat)
    requires x < y
    ensures x * m + m <= y * m
  {
    MulLe(x + 1, y, m);
  }

  function Oldest(c: Config, at: nat): nat {
    if at >= WindowMs(c) then at - WindowMs(c) else 0
  }

  // ----- The window of one address -----

  function Trimmed(buckets: seq<Bucket>, oldest: nat): seq<Bucket> {
    if buckets != [] && buckets[0].start < oldest then Trimmed(buckets[1..], oldest) else buckets
  }

  method TrimBuckets(buckets: seq<Bucket>, oldest: nat) returns (r: seq<Bucket>)
    ensures r == Trimmed(buckets, oldest)
  {
    r := buckets;
    while r != [] && r[0].start < oldest
      invariant Trimmed(buckets, oldest) == Trimmed(r, oldest)
    {
      r := r[1..];
    }
  }

  function Add(b: Bucket, e: Event): Bucket {
    Bucket(b.start, b.requests + 1,
           b.failures + if e.failed then 1 else 0,
           b.suspicious + if e.suspicious then 1 else 0,
           b.domains + {e.domain},
           b.failureDomains + if e.failed then {e.domain} else {},
           b.suspiciousDomains + if e.suspicious then {e.domain} else {})
  }

  function Empty(start: nat): Bucket {
    Bucket(start, 0, 0, 0, {}, {}, {})
  }

  /** Counts an event in the bucket of its start, which is added at the back when missing. */
  function Insert(buckets: seq<Bucket>, start: nat, e: Event): seq<Bucket> {
    if buckets == [] then [Add(Empty(start), e)]
    else if buckets[0].start == start then [Add(buckets[0], e)] + buckets[1..]
    else [buckets[0]] + Insert(buckets[1..], start, e)
  }

  lemma {:induction false} InsertAt(buckets: seq<Bucket>, start: nat, e: Event, i: nat)
    requires i <= |buckets| && forall k :: 0 <= k < i ==> buckets[k].start != start
    ensures i == |buckets| ==> Insert(buckets, start, e) == buckets + [Add(Empty(start), e)]
    ensures i < |buckets| && buckets[i].start == start ==>
              Insert(buckets, start, e) == buckets[i := Add(buckets[i], e)]
  {
    if i > 0 {
      InsertAt(buckets[1..], start, e, i - 1);
      assert buckets == [buckets[0]] + buckets[1..];
    }
  }

  method InsertEvent(buckets: seq<Bucket>, start: nat, e: Event) returns (r: seq<Bucket>)
    ensures r == Insert(buckets, start, e)
  {
    var i := 0;
    while i < |buckets| && buckets[i].start != start
      invariant 0 <= i <= |buckets|
      invariant forall k :: 0 <= k < i ==> buckets[k].start != start
    {
      i := i + 1;
    }
    InsertAt(buckets, start, e, i);
    if i < |buckets| {
      r := buckets[i := Add(buckets[i], e)];
    } else {
      r := buckets + [Add(Empty(start), e)];
    }
  }

  /** All counts of some buckets, domain sets kept as sets. */
  datatype Sums = Sums(
    requests: nat, failures: nat, suspicious: nat,
    domains: set<string>, failureDomains: set<string>, suspiciousDomains: set<string>)

  const ZERO: Sums := Sums(0, 0, 0, {}, {}, {})

  function Plus(s: Sums, t: Sums): Sums {
    Sums(s.requests + t.requests, s.failures + t.failures, s.suspicious + t.suspicious,
         s.domains + t.domains, s.failureDomains + t.failureDomains, s.suspiciousDomains + t.suspiciousDomains)
  }

  function Of(b: Bucket): Sums {
    Sums(b.requests, b.failures, b.suspicious, b.domains, b.failureDomains, b.suspiciousDomains)
  }

  function SumUp(buckets: seq<Bucket>): Sums {
    if buckets == [] then ZERO else Plus(SumUp(buckets[..|buckets| - 1]), Of(buckets[|buckets| - 1]))
  }

  function Sizes(s: Sums): Totals {
    Totals(s.requests, |s.domains|, s.failures, |s.failureDomains|, s.suspicious, |s.suspiciousDomains|)
  }

  method WindowTotals(buckets: seq<Bucket>) returns (t: Totals)
    ensures t == Sizes(SumUp(buckets))
  {
    var requests: nat, failures: nat, suspicious: nat := 0, 0, 0;
    var domains: set<string>, failureDomains: set<string>, suspiciousDomains: set<string> := {}, {}, {};
    for i := 0 to |buckets|
      invariant SumUp(buckets[..i]) == Sums(requests, failures, suspicious, domains, failureDomains, suspiciousDomains)
    {
      assert buckets[..i + 1][..i] == buckets[..i];
      requests := requests + buckets[i].requests;
      failures := failures + buckets[i].failures;
      suspicious := suspicious + buckets[i].suspicious;
      domains := domains + buckets[i].domains;
      failureDomains := failureDomains + buckets[i].failureDomains;
      suspiciousDomains := suspiciousDomains + buckets[i].suspiciousDomains;
    }
    assert buckets[..|buckets|] == buckets;
    t := Totals(requests, |domains|, failures, |failureDomains|, suspicious, |suspiciousDomains|);
  }

  function Record(c: Config, w: IpWindow, e: Event): IpWindow {
    IpWindow(Insert(Trimmed(w.buckets, Oldest(c, e.at)), StartOf(c, e.at), e), e.at)
  }

  const UNSEEN: IpWindow := IpWindow([], 0)

  function RecordAll(c: Config, es: seq<Event>): IpWindow {
    if es == [] then UNSEEN else Record(c, RecordAll(c, es[..|es| - 1]), es[|es| - 1])
  }

  // ----- The reference: the events themselves -----

  predicate Ordered(es: seq<Event>) {
    forall i, j :: 0 <= i < j < |es| ==> es[i].at <= es[j].at
  }

  /** The events whose bucket starts at `oldest` or later. */
  function Kept(st: nat -> nat, es: seq<Event>, oldest: nat): seq<Event> {
    if es == [] then []
    else
      var init, last := es[..|es| - 1], es[|es| - 1];
      Kept(st, init, oldest) + if st(last.at) >= oldest then [last] else []
  }

  function Failed(es: seq<Event>): seq<Event> {
    if es == [] then []
    else Failed(es[..|es| - 1]) + if es[|es| - 1].failed then [es[|es| - 1]] else []
  }

  function Suspicious(es: seq<Event>): seq<Event> {
    if es == [] then []
    else Suspicious(es[..|es| - 1]) + if es[|es| - 1].suspicious then [es[|es| - 1]] else []
  }

  function Domains(es: seq<Event>): set<string> {
    set e | e in es :: e.domain
  }

  /** Counts taken from the events: their number, their distinct domains, and the same of failures and probes. */
  function CountUp(es: seq<Event>): Sums {
    Sums(|es|, |Failed(es)|, |Suspicious(es)|, Domains(es), Domains(Failed(es)), Domains(Suspicious(es)))
  }

  // ----- The window is the grouping of the kept events -----

  ghost predicate Monotone(st: nat -> nat) {
    forall a, b :: 0 <= a <= b ==> st(a) <= st(b)
  }

  function Group(st: nat -> nat, es: seq<Event>): seq<Bucket> {
    if es == [] then []
    else Insert(Group(st, es[..|es| - 1]), st(es[|es| - 1].at), es[|es| - 1])
  }

  lemma {:induction false} InsertTrim(buckets: seq<Bucket>, oldest: nat, start: nat, e: Event)
    requires oldest <= start
    ensures Trimmed(Insert(buckets, start, e), oldest) == Insert(Trimmed(buckets, oldest), start, e)
  {
    if buckets != [] && buckets[0].start < oldest {
      InsertTrim(buckets[1..], oldest, start, e);
      assert Insert(buckets, start, e)[1..] == Insert(buckets[1..], start, e);
    }
  }

  lemma {:induction false} TrimAll(buckets: seq<Bucket>, oldest: nat)
    requires forall k :: 0 <= k < |buckets| ==> buckets[k].start < oldest
    ensures Trimmed(buckets, oldest) == []
  {
    if buckets != [] {
      TrimAll(buckets[1..], oldest);
    }
  }

  lemma {:induction false} InsertStarts(buckets: seq<Bucket>, start: nat, e: Event, bound: nat)
    requires start <= bound && forall k :: 0 <= k < |buckets| ==> buckets[k].start <= bound
    ensures forall k :: 0 <= k < |Insert(buckets, start, e)| ==> Insert(buckets, start, e)[k].start <= bound
  {
    if buckets != [] && buckets[0].start != start {
      InsertStarts(buckets[1..], start, e, bound);
    }
  }

  lemma {:induction false} GroupStarts(st: nat -> nat, es: seq<Event>, bound: nat)
    requires forall k :: 0 <= k < |es| ==> st(es[k].at) <= bound
    ensures forall k :: 0 <= k < |Group(st, es)| ==> Group(st, es)[k].start <= bound
  {
    if es != [] {
      GroupStarts(st, es[..|es| - 1], bound);
      InsertStarts(Group(st, es[..|es| - 1]), st(es[|es| - 1].at), es[|es| - 1], bound);
    }
  }

  lemma {:induction false} KeptAre(st: nat -> nat, es: seq<Event>, oldest: nat)
    ensures forall e :: e in Kept(st, es, oldest) <==> e in es && st(e.at) >= oldest
  {
    if es != [] {
      var init, last := es[..|es| - 1], es[|es| - 1];
      KeptAre(st, init, oldest);
      assert es == init + [last];
      assert forall e :: e in es <==> e in init || e == last;
    }
  }

  lemma {:induction false} KeptOrdered(st: nat -> nat, es: seq<Event>, oldest: nat)
    requires Ordered(es)
    ensures Ordered(Kept(st, es, oldest))
  {
    if es != [] {
      var init, last := es[..|es| - 1], es[|es| - 1];
      KeptOrdered(st, init, oldest);
      KeptAre(st, init, oldest);
      var kept := Kept(st, init, oldest);
      forall i | 0 <= i < |kept|
        ensures kept[i].at <= last.at
      {
        assert kept[i] in init;
      }
    }
  }

  lemma {:induction false} KeptNone(st: nat -> nat, es: seq<Event>, oldest: nat)
    requires forall k :: 0 <= k < |es| ==> st(es[k].at) < oldest
    ensures Kept(st, es, oldest) == []
  {
    if es != [] {
      KeptNone(st, es[..|es| - 1], oldest);
    }
  }

  /** Popping old buckets off the front drops exactly the events that started before `oldest`. */
  lemma {:induction false} TrimGroup(st: nat -> nat, es: seq<Event>, oldest: nat)
    requires Ordered(es) && Monotone(st)
    ensures Trimmed(Group(st, es), oldest) == Group(st, Kept(st, es, oldest))
  {
    if es != [] {
      var init, last := es[..|es| - 1], es[|es| - 1];
      var start := st(last.at);
      TrimGroup(st, init, oldest);
      if start >= oldest {
        InsertTrim(Group(st, init), oldest, start, last);
        assert Kept(st, es, oldest)[..|Kept(st, init, oldest)|] == Kept(st, init, oldest);
      } else {
        forall k | 0 <= k < |es|
          ensures st(es[k].at) <= start
        {
          assert es[k].at <= last.at;
        }
        GroupStarts(st, es, start);
        TrimAll(Group(st, es), oldest);
        KeptNone(st, es, oldest);
      }
    }
  }

  lemma {:induction false} KeptAgain(st: nat -> nat, es: seq<Event>, older: nat, oldest: nat)
    requires older <= oldest
    ensures Kept(st, Kept(st, es, older), oldest) == Kept(st, es, oldest)
  {
    if es != [] {
      var init, last := es[..|es| - 1], es[|es| - 1];
      KeptAgain(st, init, older, oldest);
      var k := Kept(st, init, older);
      if st(last.at) >= older {
        assert Kept(st, es, older) == k + [last];
        assert (k + [last])[..|k|] == k;
      } else {
        assert Kept(st, es, older) == k;
      }
    }
  }

  /** The bucket start of a time, as a function of the time alone. */
  function Starts(c: Config): nat -> nat {
    at => StartOf(c, at)
  }

  lemma StartsMonotone(c: Config)
    ensures Monotone(Starts(c))
  {
    forall a: nat, b: nat | a <= b
      ensures Starts(c)(a) <= Starts(c)(b)
    {
      StartMonotone(c, a, b);
    }
  }

  /** After any ordered events, the window groups exactly those still inside it. */
  lemma {:induction false} WindowIsGroup(c: Config, es: seq<Event>)
    requires es != [] && Ordered(es)
    ensures RecordAll(c, es).buckets == Group(Starts(c), Kept(Starts(c), es, Oldest(c, es[|es| - 1].at)))
    ensures RecordAll(c, es).lastSeen == es[|es| - 1].at
  {
    var st := Starts(c);
    var init, last := es[..|es| - 1], es[|es| - 1];
    var oldest := Oldest(c, last.at);
    var kept := Kept(st, init, oldest);
    if init != [] {
      WindowIsGroup(c, init);
      StartsMonotone(c);
      var older := Oldest(c, init[|init| - 1].at);
      KeptOrdered(st, init, older);
      TrimGroup(st, Kept(st, init, older), oldest);
      KeptAgain(st, init, older, oldest);
    }
    assert Trimmed(RecordAll(c, init).buckets, oldest) == Group(st, kept);
    NewestKept(c, last.at);
    assert Kept(st, es, oldest) == kept + [last];
    assert (kept + [last])[..|kept|] == kept;
  }

  lemma NewestKept(c: Config, at: nat)
    ensures StartOf(c, at) >= Oldest(c, at)
  {
  }

  // ----- Totals of a grouping are counts of its events -----

  lemma PlusAssociative(a: Sums, b: Sums, c: Sums)
    ensures Plus(Plus(a, b), c) == Plus(a, Plus(b, c))
  {
  }

  lemma PlusCommutative(a: Sums, b: Sums)
    ensures Plus(a, b) == Plus(b, a) && Plus(a, ZERO) == a && Plus(ZERO, a) == a
  {
  }

  lemma {:induction false} SumCons(b: Bucket, bs: seq<Bucket>)
    ensures SumUp([b] + bs) == Plus(Of(b), SumUp(bs))
  {
    PlusCommutative(Of(b), ZERO);
    if bs == [] {
      assert [b] + bs == [b] && [b][..0] == [];
    } else {
      var init := bs[..|bs| - 1];
      assert ([b] + bs)[..|bs|] == [b] + init;
      SumCons(b, init);
      PlusAssociative(Of(b), SumUp(init), Of(bs[|bs| - 1]));
    }
  }

  function One(e: Event): Sums {
    Of(Add(Empty(0), e))
  }

  lemma AddIsPlusOne(b: Bucket, e: Event)
    ensures Of(Add(b, e)) == Plus(Of(b), One(e))
  {
  }

  lemma {:induction false} SumInsert(buckets: seq<Bucket>, start: nat, e: Event)
    ensures SumUp(Insert(buckets, start, e)) == Plus(SumUp(buckets), One(e))
  {
    if buckets == [] {
      AddIsPlusOne(Empty(start), e);
      SumCons(Add(Empty(start), e), []);
      assert [Add(Empty(start), e)] + [] == [Add(Empty(start), e)];
      PlusCommutative(Of(Add(Empty(start), e)), ZERO);
    } else {
      var b, rest := buckets[0], buckets[1..];
      assert buckets == [b] + rest;
      SumCons(b, rest);
      if b.start == start {
        SumCons(Add(b, e), rest);
        AddIsPlusOne(b, e);
        PlusAssociative(Of(b), One(e), SumUp(rest));
        PlusCommutative(One(e), SumUp(rest));
        PlusAssociative(Of(b), SumUp(rest), One(e));
      } else {
        SumInsert(rest, start, e);
        SumCons(b, Insert(rest, start, e));
        PlusAssociative(Of(b), SumUp(rest), One(e));
      }
    }
  }

  lemma CountSnoc(es: seq<Event>, e: Event)
    ensures CountUp(es + [e]) == Plus(CountUp(es), One(e))
  {
    var all := es + [e];
    assert all[..|es|] == es;
    DomainsSnoc(es, e);
    if e.failed { DomainsSnoc(Failed(es), e); }
    if e.suspicious { DomainsSnoc(Suspicious(es), e); }
  }

  lemma DomainsSnoc(es: seq<Event>, e: Event)
    ensures Domains(es + [e]) == Domains(es) + {e.domain}
  {
    forall d | d in Domains(es) + {e.domain}
      ensures d in Domains(es + [e])
    {
      if d == e.domain {
        assert e in es + [e];
      } else {
        var x :| x in es && x.domain == d;
        assert x in es + [e];
      }
    }
  }

  lemma {:induction false} SumGroup(st: nat -> nat, es: seq<Event>)
    ensures SumUp(Group(st, es)) == CountUp(es)
  {
    if es == [] {
      NothingCounted();
    } else {
      var init, last := es[..|es| - 1], es[|es| - 1];
      SumGroup(st, init);
      SumStep(Group(st, init), st(last.at), init, last);
      assert es == init + [last];
    }
  }

  lemma NothingCounted()
    ensures CountUp([]) == ZERO
  {
    assert Domains([]) == {};
  }

  lemma SumStep(buckets: seq<Bucket>, start: nat, es: seq<Event>, e: Event)
    requires SumUp(buckets) == CountUp(es)
    ensures SumUp(Insert(buckets, start, e)) == CountUp(es + [e])
  {
    SumInsert(buckets, start, e);
    CountSnoc(es, e);
  }

  /** The totals after any ordered events are the counts of the events whose bucket is still in the window. */
  lemma TotalsAreCounts(c: Config, es: seq<Event>)
    requires es != [] && Ordered(es)
    ensures SumUp(RecordAll(c, es).buckets) == CountUp(Kept(Starts(c), es, Oldest(c, es[|es| - 1].at)))
  {
    WindowIsGroup(c, es);
    SumGroup(Starts(c), Kept(Starts(c), es, Oldest(c, es[|es| - 1].at)));
  }

  /** The window is exact up to one bucket: nothing older than it, everything a bucket younger than its edge. */
  lemma WindowEdges(c: Config, es: seq<Event>, now: nat, e: Event)
    requires e in es
    ensures var bucket := Max(c.bucketSeconds, 1) * 1000;
            var window := Max(c.windowSeconds * 1000, bucket);
            && (e.at + window >= now + bucket ==> e in Kept(Starts(c), es, Oldest(c, now)))
            && (e.at + window < now ==> e !in Kept(Starts(c), es, Oldest(c, now)))
  {
    KeptAre(Starts(c), es, Oldest(c, now));
    assert Starts(c)(e.at) == StartOf(c, e.at);
  }

  // ----- Eviction of idle windows -----

  datatype Step = Seen(event: Event) | Sweep(now: nat)

  function TimeOf(s: Step): nat {
    match s
    case Seen(e) => e.at
    case Sweep(now) => now
  }

  predicate StepsOrdered(steps: seq<Step>) {
    forall i, j :: 0 <= i < j < |steps| ==> TimeOf(steps[i]) <= TimeOf(steps[j])
  }

  predicate Stale(c: Config, w: IpWindow, now: nat) {
    now > w.lastSeen + StaleMs(c)
  }

  /** The slot of one address in the table of windows; `sweeping` distinguishes the reference that never evicts. */
  function Advance(c: Config, sweeping: bool, slot: Option<IpWindow>, s: Step): Option<IpWindow> {
    match s
    case Seen(e) => Some(Record(c, if slot.Some? then slot.value else UNSEEN, e))
    case Sweep(now) => if sweeping && slot.Some? && Stale(c, slot.value, now) then None else slot
  }

  function After(c: Config, sweeping: bool, steps: seq<Step>): Option<IpWindow> {
    if steps == [] then None
    else Advance(c, sweeping, After(c, sweeping, steps[..|steps| - 1]), steps[|steps| - 1])
  }

  /** Evicting is unobservable when every window read, right after an event, is the same without it. */
  ghost predicate SweepUnobservable(c: Config) {
    forall steps: seq<Step> :: StepsOrdered(steps) && steps != [] && steps[|steps| - 1].Seen? ==>
      After(c, true, steps) == After(c, false, steps)
  }

  predicate Bounded(w: IpWindow) {
    forall k :: 0 <= k < |w.buckets| ==> w.buckets[k].start <= w.lastSeen
  }

  lemma {:induction false} TrimBounded(buckets: seq<Bucket>, oldest: nat, bound: nat)
    requires forall k :: 0 <= k < |buckets| ==> buckets[k].start <= bound
    ensures forall k :: 0 <= k < |Trimmed(buckets, oldest)| ==> Trimmed(buckets, oldest)[k].start <= bound
  {
    if buckets != [] && buckets[0].start < oldest {
      TrimBounded(buckets[1..], oldest, bound);
    }
  }

  lemma RecordBounded(c: Config, w: IpWindow, e: Event)
    requires Bounded(w) && w.lastSeen <= e.at
    ensures Bounded(Record(c, w, e))
  {
    TrimBounded(w.buckets, Oldest(c, e.at), e.at);
    InsertStarts(Trimmed(w.buckets, Oldest(c, e.at)), StartOf(c, e.at), e, e.at);
  }

  /** What an evicted slot stands for: a window that any later event would trim to nothing. */
  lemma {:induction false} SweepRuns(c: Config, steps: seq<Step>)
    requires Max(c.bucketSeconds, 1) <= Max(c.windowSeconds, 1) + 300
    requires StepsOrdered(steps)
    ensures var swept, plain := After(c, true, steps), After(c, false, steps);
            && (plain.Some? ==> Bounded(plain.value) && steps != [] &&
                                plain.value.lastSeen <= TimeOf(steps[|steps| - 1]))
            && (swept == plain ||
                (swept.None? && plain.Some? && Stale(c, plain.value, TimeOf(steps[|steps| - 1]))))
    ensures steps != [] && steps[|steps| - 1].Seen? ==> After(c, true, steps) == After(c, false, steps)
  {
    if steps != [] {
      var init, last := steps[..|steps| - 1], steps[|steps| - 1];
      SweepRuns(c, init);
      var swept, plain := After(c, true, init), After(c, false, init);
      if init != [] {
        assert TimeOf(init[|init| - 1]) <= TimeOf(last);
      }
      if last.Seen? {
        var e := last.event;
        RecordBounded(c, if plain.Some? then plain.value else UNSEEN, e);
        if swept != plain {
          TrimAll(plain.value.buckets, Oldest(c, e.at));
        }
      }
    }
  }

  /** Evicting idle windows is unobservable exactly when a bucket is no longer than the idle limit. */
  lemma SweepUnobservableIff(c: Config)
    ensures SweepUnobservable(c) <==> Max(c.bucketSeconds, 1) <= Max(c.windowSeconds, 1) + 300
  {
    if Max(c.bucketSeconds, 1) <= Max(c.windowSeconds, 1) + 300 {
      forall steps: seq<Step> | StepsOrdered(steps) && steps != [] && steps[|steps| - 1].Seen?
        ensures After(c, true, steps) == After(c, false, steps)
      {
        SweepRuns(c, steps);
      }
    } else {
      LongBucketLost(c);
    }
  }

  lemma SmallStart(c: Config, at: nat)
    requires at < BucketMs(c)
    ensures StartOf(c, at) == 0
  {
    if at / BucketMs(c) > 0 {
      MulLe(1, at / BucketMs(c), BucketMs(c));
    }
  }

  /** A bucket longer than the idle limit is still in the window when the sweep discards it. */
  lemma LongBucketLost(c: Config)
    requires Max(c.bucketSeconds, 1) > Max(c.windowSeconds, 1) + 300
    ensures !SweepUnobservable(c)
  {
    var late := StaleMs(c) + 1;
    SmallStart(c, 0);
    SmallStart(c, late);
    var a, b := Event(0, "", false, false), Event(late, "", false, false);
    var one := IpWindow([Add(Empty(0), a)], 0);
    assert Record(c, UNSEEN, a) == one;
    var steps := [Seen(a), Sweep(late), Seen(b)];
    var two := [Seen(a), Sweep(late)];
    assert two[..1] == [Seen(a)] && [Seen(a)][..0] == [];
    assert After(c, false, [Seen(a)]) == Advance(c, false, None, Seen(a)) == Some(one);
    assert After(c, true, [Seen(a)]) == Advance(c, true, None, Seen(a)) == Some(one);
    assert After(c, false, two) == Some(one) && After(c, true, two) == None;
    assert steps[..2] == two;
    assert Record(c, one, b).buckets == [Add(Add(Empty(0), a), b)];
    assert Record(c, UNSEEN, b).buckets == [Add(Empty(0), b)];
    assert After(c, false, steps) == Some(Record(c, one, b));
    assert After(c, true, steps) == Some(Record(c, UNSEEN, b));
  }
}
