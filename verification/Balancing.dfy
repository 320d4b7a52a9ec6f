// Load balancing: rotation, rendezvous hashing and the other choices (edge/crates/load-balancer/src/lib.rs).
module Balancing {
  import opened Text
  import opened Routes

  type Ip = int

  const MAX_KEYS: nat := 100_000
  const U64_SPAN: nat := 0x1_0000_0000_0000_0000

  /** The hash functions in use, of which nothing is assumed. */
  datatype Hashes = Hashes(ofIp: Ip -> nat, ipText: Ip -> string, second: (string, nat) -> nat, score: (string, string) -> nat)

  // ----- Counting -----

  function Count<T(==)>(xs: seq<T>, x: T): nat {
    if xs == [] then 0 else Count(xs[..|xs| - 1], x) + if xs[|xs| - 1] == x then 1 else 0
  }

  lemma {:induction false} CountConcat<T>(a: seq<T>, b: seq<T>, x: T)
    ensures Count(a + b, x) == Count(a, x) + Count(b, x)
  {
    if b == [] {
      assert a + b == a;
    } else {
      assert (a + b)[..|a + b| - 1] == a + b[..|b| - 1];
      CountConcat(a, b[..|b| - 1], x);
    }
  }

  lemma {:induction false} CountAbsent<T>(xs: seq<T>, x: T)
    requires x !in xs
    ensures Count(xs, x) == 0
  {
    if xs != [] {
      CountAbsent(xs[..|xs| - 1], x);
    }
  }

  function Repeat<T>(x: T, n: nat): (r: seq<T>)
    ensures |r| == n && forall k :: 0 <= k < n ==> r[k] == x
  {
    if n == 0 then [] else Repeat(x, n - 1) + [x]
  }

  lemma {:induction false} CountRepeat<T>(x: T, n: nat)
    ensures Count(Repeat(x, n), x) == n
  {
    if n > 0 {
      assert Repeat(x, n)[..n - 1] == Repeat(x, n - 1);
      CountRepeat(x, n - 1);
    }
  }

  // ----- Weights -----

  function Share(weight: nat): nat {
    if weight < 1 then 1 else weight
  }

  /** Every item as often as its share says, in order. */
  function Spread<T>(xs: seq<T>, ws: seq<nat>): (r: seq<T>)
    requires |xs| == |ws|
    ensures |r| >= |xs|
  {
    if xs == [] then []
    else
      var n := |xs| - 1;
      Spread(xs[..n], ws[..n]) + Repeat(xs[n], Share(ws[n]))
  }

  predicate Distinct<T(==)>(xs: seq<T>) {
    forall i, j :: 0 <= i < j < |xs| ==> xs[i] != xs[j]
  }

  lemma {:induction false} SpreadMembers<T>(xs: seq<T>, ws: seq<nat>)
    requires |xs| == |ws|
    ensures forall x :: x in Spread(xs, ws) <==> x in xs
  {
    if xs != [] {
      var n := |xs| - 1;
      SpreadMembers(xs[..n], ws[..n]);
      assert xs == xs[..n] + [xs[n]];
      assert Repeat(xs[n], Share(ws[n]))[0] == xs[n];
    }
  }

  lemma {:induction false} SpreadCount<T>(xs: seq<T>, ws: seq<nat>, i: nat)
    requires |xs| == |ws| && i < |xs| && Distinct(xs)
    ensures Count(Spread(xs, ws), xs[i]) == if ws[i] == 0 then 1 else ws[i]
  {
    var n := |xs| - 1;
    var front, back := Spread(xs[..n], ws[..n]), Repeat(xs[n], Share(ws[n]));
    CountConcat(front, back, xs[i]);
    if i == n {
      SpreadMembers(xs[..n], ws[..n]);
      CountAbsent(front, xs[n]);
      CountRepeat(xs[n], Share(ws[n]));
    } else {
      SpreadCount(xs[..n], ws[..n], i);
      CountAbsent(back, xs[i]);
    }
  }

  // ----- Rotation -----

  function CounterOf(counters: map<string, nat>, key: string): nat {
    if key in counters then counters[key] else 0
  }

  /** `fetch_add(1)` on the counter of a key, wrapping at 64 bits. */
  function Bumped(counters: map<string, nat>, key: string): map<string, nat> {
    counters[key := if CounterOf(counters, key) + 1 < U64_SPAN then CounterOf(counters, key) + 1 else 0]
  }

  /** The position a counter value points at in a list of length n. */
  function Position(c: nat, n: nat): (p: nat)
    requires n > 0
    ensures p < n
  {
    c % n
  }

  /** The picks of n successive turns that start at counter value c. */
  function Picks<T>(xs: seq<T>, c: nat, n: nat): (r: seq<T>)
    requires xs != []
    ensures |r| == n
  {
    seq(n, j requires 0 <= j < n => xs[Position(c + j, |xs|)])
  }

  lemma MulDifference(a: int, b: int, w: int)
    ensures (a - b) * w == a * w - b * w
  {
  }

  lemma MulAtLeast(d: int, w: int)
    requires d >= 1 && w > 0
    ensures d * w >= w
  {
  }

  lemma ModUnique(a: nat, q: int, r: int, w: nat)
    requires w > 0 && 0 <= r < w && a == q * w + r
    ensures Position(a, w) == r
  {
    var q', r' := a / w, a % w;
    assert a == q' * w + r';
    MulDifference(q, q', w);
    MulDifference(q', q, w);
    if q > q' {
      MulAtLeast(q - q', w);
    } else if q < q' {
      MulAtLeast(q' - q, w);
    }
  }

  lemma PositionStep(c: nat, j: nat, w: nat)
    requires 0 < w && j < w
    ensures Position(c + j, w) == if Position(c, w) + j < w then Position(c, w) + j else Position(c, w) + j - w
  {
    var q, r := c / w, Position(c, w);
    assert c == q * w + r;
    if r + j < w {
      ModUnique(c + j, q, r + j, w);
    } else {
      MulDifference(q, -1, w);
      ModUnique(c + j, q + 1, r + j - w, w);
    }
  }

  lemma TurnIsRotation<T>(xs: seq<T>, c: nat)
    requires xs != []
    ensures var r := Position(c, |xs|); Picks(xs, c, |xs|) == xs[r..] + xs[..r]
  {
    var w := |xs|;
    var r := Position(c, w);
    var rotated := xs[r..] + xs[..r];
    forall j | 0 <= j < w
      ensures Picks(xs, c, w)[j] == rotated[j]
    {
      PositionStep(c, j, w);
    }
  }

  /** One full turn is the list, rotated: every entry exactly once. */
  lemma FullTurn<T>(xs: seq<T>, c: nat, x: T)
    requires xs != []
    ensures Count(Picks(xs, c, |xs|), x) == Count(xs, x)
  {
    TurnIsRotation(xs, c);
    var r := Position(c, |xs|);
    CountConcat(xs[r..], xs[..r], x);
    CountConcat(xs[..r], xs[r..], x);
    assert xs[..r] + xs[r..] == xs;
  }

  // ----- Runs of turns on many keys -----

  /** A turn asks for one index below `length` on a key. */
  datatype Turn = Turn(key: string, length: nat)

  /** All counters are dropped when there are too many. */
  function Cleared(counters: map<string, nat>): map<string, nat> {
    if |counters| > MAX_KEYS then map[] else counters
  }

  function CountersAfter(counters: map<string, nat>, turns: seq<Turn>): map<string, nat> {
    if turns == [] then counters
    else Bumped(Cleared(CountersAfter(counters, turns[..|turns| - 1])), turns[|turns| - 1].key)
  }

  lemma BumpedSize(counters: map<string, nat>, key: string)
    ensures |Bumped(counters, key)| <= |counters| + 1
  {
    var next := Bumped(counters, key);
    assert next.Keys == counters.Keys + {key};
    KeysPlusOne(counters.Keys, key);
    assert |next| == |next.Keys| && |counters| == |counters.Keys|;
  }

  lemma KeysPlusOne<T>(s: set<T>, x: T)
    ensures |s + {x}| <= |s| + 1
  {
    if x in s {
      assert s + {x} == s;
    }
  }

  /** However many keys come by, the counters never number more than one above the limit; below it none is forgotten. */
  lemma {:induction false} CountersBounded(counters: map<string, nat>, turns: seq<Turn>)
    requires |counters| <= 100_001
    ensures |CountersAfter(counters, turns)| <= 100_001
    ensures |counters| <= 100_000 ==> Cleared(counters) == counters
  {
    if turns != [] {
      var init, last := turns[..|turns| - 1], turns[|turns| - 1];
      CountersBounded(counters, init);
      BumpedSize(Cleared(CountersAfter(counters, init)), last.key);
    }
  }

  /** The indices handed out on one key. */
  function IndicesOn(counters: map<string, nat>, turns: seq<Turn>, key: string): seq<nat>
    requires forall k :: 0 <= k < |turns| ==> turns[k].length > 0
  {
    if turns == [] then []
    else
      var init, last := turns[..|turns| - 1], turns[|turns| - 1];
      IndicesOn(counters, init, key) +
      if last.key == key then [Position(CounterOf(Cleared(CountersAfter(counters, init)), key), last.length)] else []
  }

  function TurnsOn(turns: seq<Turn>, key: string): nat {
    if turns == [] then 0
    else TurnsOn(turns[..|turns| - 1], key) + if turns[|turns| - 1].key == key then 1 else 0
  }

  predicate Fits(counters: map<string, nat>, turns: seq<Turn>, k: nat)
    requires k <= |turns|
  {
    |CountersAfter(counters, turns[..k])| <= MAX_KEYS
  }

  /** No clearing happens in the run, and the key's counter does not wrap in it. */
  ghost predicate Steady(counters: map<string, nat>, turns: seq<Turn>, key: string) {
    && (forall k :: 0 <= k < |turns| ==> Fits(counters, turns, k))
    && CounterOf(counters, key) + TurnsOn(turns, key) < U64_SPAN
  }

  /** Consecutive positions on a wheel of the given length. */
  predicate Rotates(indices: seq<nat>, start: nat, length: nat)
    requires length > 0
  {
    forall j :: 0 <= j < |indices| ==> indices[j] == Position(start + j, length)
  }

  lemma {:induction false} KeyAdvances(counters: map<string, nat>, turns: seq<Turn>, key: string, length: nat)
    requires length > 0 && Steady(counters, turns, key)
    requires forall k :: 0 <= k < |turns| ==> turns[k].length > 0
    requires forall k :: 0 <= k < |turns| && turns[k].key == key ==> turns[k].length == length
    ensures CounterOf(CountersAfter(counters, turns), key) == CounterOf(counters, key) + TurnsOn(turns, key)
    ensures var given := IndicesOn(counters, turns, key);
            |given| == TurnsOn(turns, key) && Rotates(given, CounterOf(counters, key), length)
  {
    if turns != [] {
      SteadyInit(counters, turns, key);
      KeyAdvances(counters, turns[..|turns| - 1], key, length);
    }
  }

  lemma SteadyInit(counters: map<string, nat>, turns: seq<Turn>, key: string)
    requires turns != [] && Steady(counters, turns, key)
    ensures Steady(counters, turns[..|turns| - 1], key)
    ensures |CountersAfter(counters, turns[..|turns| - 1])| <= MAX_KEYS
  {
    var init := turns[..|turns| - 1];
    forall k | 0 <= k < |init|
      ensures Fits(counters, init, k)
    {
      assert Fits(counters, turns, k) && init[..k] == turns[..k];
    }
    assert Fits(counters, turns, |init|);
  }

  /**
   * Exact fairness: in any stretch of one full turn of a key's selections, whatever other keys do in
   * between, every distinct item is chosen exactly as often as its share.
   */
  lemma RotationIsFair<T>(
    counters: map<string, nat>, turns: seq<Turn>, key: string, xs: seq<T>, ws: seq<nat>, wheel: seq<T>, from: nat, i: nat)
    requires |xs| == |ws| && i < |xs| && Distinct(xs) && wheel == Spread(xs, ws)
    requires Steady(counters, turns, key)
    requires forall k :: 0 <= k < |turns| ==> turns[k].length > 0
    requires forall k :: 0 <= k < |turns| && turns[k].key == key ==> turns[k].length == |wheel|
    requires from + |wheel| <= |IndicesOn(counters, turns, key)|
    ensures wheel != []
    ensures Count(Chosen(wheel, IndicesOn(counters, turns, key)[from..from + |wheel|]), xs[i]) == if ws[i] == 0 then 1 else ws[i]
  {
    SpreadCount(xs, ws, i);
    assert wheel != [];
    KeyAdvances(counters, turns, key, |wheel|);
    WindowTurn(CounterOf(counters, key), IndicesOn(counters, turns, key), wheel, from, xs[i]);
  }

  /** Plain round robin: in any full turn of a key over a list of distinct items, each is chosen exactly once. */
  lemma RoundRobinIsFair<T>(
    counters: map<string, nat>, turns: seq<Turn>, key: string, xs: seq<T>, from: nat, i: nat)
    requires i < |xs| && Distinct(xs) && Steady(counters, turns, key)
    requires forall k :: 0 <= k < |turns| ==> turns[k].length > 0
    requires forall k :: 0 <= k < |turns| && turns[k].key == key ==> turns[k].length == |xs|
    requires from + |xs| <= |IndicesOn(counters, turns, key)|
    ensures Count(Chosen(xs, IndicesOn(counters, turns, key)[from..from + |xs|]), xs[i]) == 1
  {
    KeyAdvances(counters, turns, key, |xs|);
    WindowTurn(CounterOf(counters, key), IndicesOn(counters, turns, key), xs, from, xs[i]);
    CountDistinct(xs, i);
  }

  lemma {:induction false} CountDistinct<T>(xs: seq<T>, i: nat)
    requires i < |xs| && Distinct(xs)
    ensures Count(xs, xs[i]) == 1
  {
    var n := |xs| - 1;
    if i == n {
      CountAbsent(xs[..n], xs[n]);
    } else {
      CountDistinct(xs[..n], i);
    }
  }

  lemma WindowTurn<T>(c: nat, indices: seq<nat>, wheel: seq<T>, from: nat, x: T)
    requires wheel != [] && from + |wheel| <= |indices| && Rotates(indices, c, |wheel|)
    ensures Count(Chosen(wheel, indices[from..from + |wheel|]), x) == Count(wheel, x)
  {
    var window := indices[from..from + |wheel|];
    assert forall j :: 0 <= j < |window| ==> window[j] == indices[from + j];
    ChosenArePicks(wheel, c + from, window);
    FullTurn(wheel, c + from, x);
  }

  lemma ChosenArePicks<T>(wheel: seq<T>, start: nat, window: seq<nat>)
    requires wheel != [] && Rotates(window, start, |wheel|)
    ensures Chosen(wheel, window) == Picks(wheel, start, |window|)
  {
    forall j | 0 <= j < |window|
      ensures Chosen(wheel, window)[j] == Picks(wheel, start, |window|)[j]
    {
      ModUnique(window[j], 0, window[j], |wheel|);
    }
  }

  function Chosen<T>(wheel: seq<T>, indices: seq<nat>): seq<T>
    requires wheel != []
  {
    seq(|indices|, j requires 0 <= j < |indices| => wheel[Position(indices[j], |wheel|)])
  }

  // ----- Largest and smallest keys -----

  /** Index of the last maximum, as `max_by_key` finds it. */
  function LastMax<T>(xs: seq<T>, score: T -> nat): (p: nat)
    requires xs != []
    ensures p < |xs| && IsLastMax(xs, score, p)
  {
    var n := |xs| - 1;
    if n == 0 then 0
    else
      var before := LastMax(xs[..n], score);
      assert forall k :: 0 <= k < n ==> xs[..n][k] == xs[k];
      if score(xs[n]) >= score(xs[before]) then n else before
  }

  predicate IsLastMax<T>(xs: seq<T>, score: T -> nat, p: nat)
    requires p < |xs|
  {
    && (forall k :: 0 <= k < p ==> score(xs[k]) <= score(xs[p]))
    && (forall k :: p < k < |xs| ==> score(xs[k]) < score(xs[p]))
  }

  /** Index of the first minimum, as `min_by_key` finds it. */
  function FirstMin<T>(xs: seq<T>, cost: T -> nat): (p: nat)
    requires xs != []
    ensures p < |xs|
    ensures forall k :: 0 <= k < p ==> cost(xs[k]) > cost(xs[p])
    ensures forall k :: p < k < |xs| ==> cost(xs[k]) >= cost(xs[p])
  {
    var n := |xs| - 1;
    if n == 0 then 0
    else
      var before := FirstMin(xs[..n], cost);
      assert forall k :: 0 <= k < n ==> xs[..n][k] == xs[k];
      if cost(xs[n]) < cost(xs[before]) then n else before
  }

  lemma LastMaxUnique<T>(xs: seq<T>, score: T -> nat, p: nat)
    requires p < |xs| && IsLastMax(xs, score, p)
    ensures LastMax(xs, score) == p
  {
    var q := LastMax(xs, score);
    assert IsLastMax(xs, score, q);
  }

  function Without<T>(xs: seq<T>, j: nat): seq<T>
    requires j < |xs|
  {
    xs[..j] + xs[j + 1..]
  }

  function With<T>(xs: seq<T>, j: nat, y: T): seq<T>
    requires j <= |xs|
  {
    xs[..j] + [y] + xs[j..]
  }

  /** Removing an item that was not selected leaves the selection alone, ties included. */
  lemma RemovalKeepsSelection<T>(xs: seq<T>, score: T -> nat, j: nat)
    requires j < |xs| && xs != [] && j != LastMax(xs, score)
    ensures Without(xs, j) != []
    ensures Without(xs, j)[LastMax(Without(xs, j), score)] == xs[LastMax(xs, score)]
  {
    var p := LastMax(xs, score);
    RemovalKeepsMax(xs, score, j, p);
    LastMaxUnique(Without(xs, j), score, if p < j then p else p - 1);
  }

  lemma RemovalKeepsMax<T>(xs: seq<T>, score: T -> nat, j: nat, p: nat)
    requires j < |xs| && p < |xs| && j != p && IsLastMax(xs, score, p)
    ensures var q := if p < j then p else p - 1;
            q < |Without(xs, j)| && Without(xs, j)[q] == xs[p] && IsLastMax(Without(xs, j), score, q)
  {
    var ys := Without(xs, j);
    assert forall k :: 0 <= k < |ys| ==> ys[k] == xs[if k < j then k else k + 1];
  }

  /** Adding an item anywhere yields the old selection or the new item. */
  lemma InsertionKeepsOrTakes<T>(xs: seq<T>, score: T -> nat, j: nat, y: T)
    requires xs != [] && j <= |xs|
    ensures var ys := With(xs, j, y);
            var chosen := ys[LastMax(ys, score)];
            chosen == xs[LastMax(xs, score)] || (chosen == y && LastMax(ys, score) == j)
  {
    WithoutWith(xs, j, y);
    if LastMax(With(xs, j, y), score) != j {
      RemovalKeepsSelection(With(xs, j, y), score, j);
    }
  }

  lemma WithoutWith<T>(xs: seq<T>, j: nat, y: T)
    requires j <= |xs|
    ensures With(xs, j, y)[j] == y && Without(With(xs, j, y), j) == xs
  {
  }

  // ----- Rendezvous hashing over a pool -----

  function Healthy(ups: seq<Upstream>): seq<Upstream> {
    if ups == [] then []
    else Healthy(ups[..|ups| - 1]) + if ups[|ups| - 1].healthy then [ups[|ups| - 1]] else []
  }

  function SaturatingMul(a: nat, b: nat): nat {
    if a * b >= U64_SPAN then U64_SPAN - 1 else a * b
  }

  function Score(h: Hashes, identity: string): Upstream -> nat {
    (u: Upstream) => SaturatingMul(h.score(identity, u.url) % U64_SPAN, Share(u.weight))
  }

  /** The score is the hash times the weight, held at the largest 64-bit number; a weight of zero counts as one. */
  lemma ScoreMeans(h: Hashes, identity: string, u: Upstream)
    ensures var product := h.score(identity, u.url) % U64_SPAN * if u.weight == 0 then 1 else u.weight;
            && Score(h, identity)(u) < U64_SPAN
            && (product < U64_SPAN ==> Score(h, identity)(u) == product)
            && (product >= U64_SPAN ==> Score(h, identity)(u) == U64_SPAN - 1)
  {
  }

  lemma SaturatingMonotone(a: nat, b: nat, c: nat)
    requires b <= c
    ensures SaturatingMul(a, b) <= SaturatingMul(a, c)
  {
    assert a * b <= a * c;
  }

  /** Raising the weight of the upstream that was selected keeps it selected. */
  lemma HeavierStays(h: Hashes, identity: string, ups: seq<Upstream>, w: nat)
    requires ups != []
    requires ups[LastMax(ups, Score(h, identity))].weight <= w
    ensures var p := LastMax(ups, Score(h, identity));
            LastMax(ups[p := ups[p].(weight := w)], Score(h, identity)) == p
  {
    var score := Score(h, identity);
    var p := LastMax(ups, score);
    var heavier := ups[p := ups[p].(weight := w)];
    SaturatingMonotone(h.score(identity, ups[p].url) % U64_SPAN, Share(ups[p].weight), Share(w));
    assert score(heavier[p]) >= score(ups[p]);
    LastMaxUnique(heavier, score, p);
  }

  function Rendezvous(h: Hashes, identity: string, ups: seq<Upstream>): Option<Upstream> {
    var pool := Healthy(ups);
    if pool == [] then None else Some(pool[LastMax(pool, Score(h, identity))])
  }

  lemma {:induction false} HealthyConcat(a: seq<Upstream>, b: seq<Upstream>)
    ensures Healthy(a + b) == Healthy(a) + Healthy(b)
  {
    if b == [] {
      assert a + b == a;
    } else {
      assert (a + b)[..|a + b| - 1] == a + b[..|b| - 1];
      HealthyConcat(a, b[..|b| - 1]);
    }
  }

  /**
   * A pool that gains one member anywhere keeps its choice or gives the new member; read backwards, losing
   * one that was not chosen changes nothing.
   */
  lemma RendezvousMinimalDisruption(h: Hashes, identity: string, ups: seq<Upstream>, j: nat, y: Upstream)
    requires j <= |ups|
    ensures var before, after := Rendezvous(h, identity, ups), Rendezvous(h, identity, With(ups, j, y));
            && (after == before || after == Some(y))
            && (!y.healthy ==> after == before)
            && (before.None? ==> after == if y.healthy then Some(y) else None)
  {
    var a, b := ups[..j], ups[j..];
    var score := Score(h, identity);
    assert ups == a + b;
    HealthyConcat(a, b);
    HealthyConcat(a + [y], b);
    HealthyConcat(a, [y]);
    assert [y][..0] == [];
    var pool := Healthy(ups);
    if y.healthy {
      assert Healthy([y]) == [y];
      assert Healthy(With(ups, j, y)) == Healthy(a) + [y] + Healthy(b);
      if pool != [] {
        assert With(pool, |Healthy(a)|, y) == Healthy(With(ups, j, y));
        InsertionKeepsOrTakes(pool, score, |Healthy(a)|, y);
      }
    } else {
      assert Healthy([y]) == [];
      assert Healthy(With(ups, j, y)) == pool;
    }
  }

  // ----- The balancer as an object -----

  function UpstreamKey(routeKey: string, url: string): string {
    routeKey + "|" + url
  }

  function Weights(ups: seq<Upstream>): (ws: seq<nat>)
    ensures |ws| == |ups|
  {
    seq(|ups|, i requires 0 <= i < |ups| => ups[i].weight)
  }

  function Indices(n: nat): (r: seq<nat>)
    ensures |r| == n && Distinct(r)
  {
    seq(n, i requires 0 <= i < n => i)
  }

  /** The recorded number of a key's upstream; nothing recorded counts as zero. */
  function Recorded(numbers: map<string, nat>, routeKey: string): Upstream -> nat {
    (u: Upstream) => CounterOf(numbers, UpstreamKey(routeKey, u.url))
  }

  /** A number recorded for one upstream of a route is that upstream's and no other's. */
  lemma RecordedIsOwn(numbers: map<string, nat>, routeKey: string, u: Upstream, n: nat, v: Upstream)
    ensures Recorded(map[], routeKey)(v) == 0
    ensures Recorded(numbers[UpstreamKey(routeKey, u.url) := n], routeKey)(v) ==
            if v.url == u.url then n else Recorded(numbers, routeKey)(v)
  {
    var a, b := UpstreamKey(routeKey, u.url), UpstreamKey(routeKey, v.url);
    if a == b {
      assert u.url == a[|routeKey| + 1..] && v.url == b[|routeKey| + 1..];
    }
  }

  lemma {:induction false} HealthyMembers(ups: seq<Upstream>)
    ensures forall u :: u in Healthy(ups) <==> u in ups && u.healthy
  {
    if ups != [] {
      HealthyMembers(ups[..|ups| - 1]);
      assert ups == ups[..|ups| - 1] + [ups[|ups| - 1]];
    }
  }

  /** The second index of a pair: hashed, and moved on by one when it meets the first. */
  function SecondIndex(h: Hashes, routeKey: string, turn: nat, n: nat): (second: nat)
    requires n > 1
    ensures second < n && second != Position(turn, n)
  {
    var second := Position(h.second(routeKey, turn), n);
    if second == Position(turn, n) then
      PositionStep(second, 1, n);
      ModUnique(second, 0, second, n);
      Position(second + 1, n)
    else second
  }

  /** Up to two upstreams are all compared; of more, two different ones are, and the first wins a tie. */
  function TwoChoices(h: Hashes, routeKey: string, turn: nat, cost: Upstream -> nat, ups: seq<Upstream>): (u: Upstream)
    requires ups != []
    ensures u in ups
  {
    if |ups| <= 2 then ups[FirstMin(ups, cost)]
    else
      var left, right := ups[Position(turn, |ups|)], ups[SecondIndex(h, routeKey, turn, |ups|)];
      if cost(left) <= cost(right) then left else right
  }

  /** Of up to two the first of the cheapest; of more, the one in turn unless its rival is strictly cheaper. */
  lemma TwoChoicesTies(h: Hashes, routeKey: string, turn: nat, cost: Upstream -> nat, ups: seq<Upstream>, k: nat)
    requires ups != [] && k < |ups|
    ensures var u := TwoChoices(h, routeKey, turn, cost, ups);
            && (|ups| <= 2 ==> cost(u) <= cost(ups[k]) && (cost(ups[0]) <= cost(u) ==> u == ups[0]))
            && (|ups| > 2 ==> var mine := ups[Position(turn, |ups|)]; u == mine || cost(u) < cost(mine))
  {
  }

  /** With distinct costs the most loaded upstream is never chosen out of several. */
  lemma TwoChoicesAvoidWorst(
    h: Hashes, routeKey: string, turn: nat, cost: Upstream -> nat, ups: seq<Upstream>, worst: nat)
    requires |ups| > 1 && worst < |ups|
    requires forall k :: 0 <= k < |ups| && k != worst ==> cost(ups[k]) < cost(ups[worst])
    ensures cost(TwoChoices(h, routeKey, turn, cost, ups)) < cost(ups[worst])
  {
    if |ups| == 2 {
      var p := FirstMin(ups, cost);
      assert cost(ups[1 - worst]) < cost(ups[worst]);
    }
  }

  /** What the balancer remembers: turns, requests in flight, and smoothed latencies. */
  datatype Memory = Memory(counters: map<string, nat>, inFlight: map<string, nat>, latency: map<string, nat>)

  function ClearedMemory(m: Memory): Memory {
    Memory(Cleared(m.counters), Cleared(m.inFlight), Cleared(m.latency))
  }

  /** The member of a healthy pool that an algorithm selects, given what the balancer remembers after its clearing. */
  function ChoiceAmong(h: Hashes, m: Memory, routeKey: string, algorithm: Algorithm, pool: seq<Upstream>, ip: Option<Ip>):
    Upstream
    requires pool != [] && (algorithm.IpHash? ==> ip.Some?)
  {
    match algorithm
    case IpHash => pool[Position(h.ofIp(ip.value), |pool|)]
    case RoundRobin => pool[Position(CounterOf(m.counters, routeKey), |pool|)]
    case WeightedRoundRobin =>
      var wheel := Spread(pool, Weights(pool));
      wheel[Position(CounterOf(m.counters, routeKey), |wheel|)]
    case LeastConnections => pool[FirstMin(pool, Recorded(m.inFlight, routeKey))]
    case P2c => TwoChoices(h, routeKey, CounterOf(m.counters, routeKey + ":p2c"), Recorded(m.inFlight, routeKey), pool)
    case Hrw => pool[LastMax(pool, Score(h, if ip.Some? then h.ipText(ip.value) else routeKey))]
    case EwmaLatency => pool[FirstMin(pool, Recorded(m.latency, routeKey))]
    case LatencyAware => pool[FirstMin(pool, Recorded(m.latency, routeKey))]
  }

  function Choice(h: Hashes, m: Memory, routeKey: string, algorithm: Algorithm, ups: seq<Upstream>, ip: Option<Ip>):
    Option<Upstream>
  {
    var pool := Healthy(ups);
    if pool == [] || (algorithm.IpHash? && ip.None?) then None
    else Some(ChoiceAmong(h, m, routeKey, algorithm, pool, ip))
  }

  lemma ChoiceIsMember(h: Hashes, m: Memory, routeKey: string, algorithm: Algorithm, pool: seq<Upstream>, ip: Option<Ip>)
    requires pool != [] && (algorithm.IpHash? ==> ip.Some?)
    ensures ChoiceAmong(h, m, routeKey, algorithm, pool, ip) in pool
  {
    if algorithm.WeightedRoundRobin? {
      SpreadMembers(pool, Weights(pool));
    }
  }

  /** The turn a selection takes, if any: rotations on the route's counter, pairs of many on a counter of their own. */
  function TurnsTaken(m: Memory, routeKey: string, algorithm: Algorithm, ups: seq<Upstream>): Memory {
    TurnsOf(m, routeKey, algorithm, |Healthy(ups)|)
  }

  function TurnsOf(m: Memory, routeKey: string, algorithm: Algorithm, n: nat): Memory {
    if n > 0 && (algorithm.RoundRobin? || algorithm.WeightedRoundRobin?) then m.(counters := Bumped(m.counters, routeKey))
    else if n > 2 && algorithm.P2c? then m.(counters := Bumped(m.counters, routeKey + ":p2c"))
    else m
  }

  class LoadBalancer {
    const hashes: Hashes
    var counters: map<string, nat>
    var inFlight: map<string, nat>
    var latency: map<string, nat>

    constructor (hashes: Hashes)
      ensures this.hashes == hashes && counters == map[] && inFlight == map[] && latency == map[]
    {
      this.hashes := hashes;
      counters := map[];
      inFlight := map[];
      latency := map[];
    }

    function Remembered(): Memory
      reads this
    {
      Memory(counters, inFlight, latency)
    }

    method EvictIfNeeded()
      modifies this
      ensures counters == Cleared(old(counters))
      ensures inFlight == Cleared(old(inFlight)) && latency == Cleared(old(latency))
    {
      if |counters| > MAX_KEYS { counters := map[]; }
      if |inFlight| > MAX_KEYS { inFlight := map[]; }
      if |latency| > MAX_KEYS { latency := map[]; }
    }

    /** Takes the next turn on a key. */
    method TakeTurn(key: string) returns (c: nat)
      modifies this`counters
      ensures c == CounterOf(old(counters), key) && counters == Bumped(old(counters), key)
    {
      c := if key in counters then counters[key] else 0;
      counters := counters[key := if c + 1 < U64_SPAN then c + 1 else 0];
    }

    method RoundRobin(routeKey: string, ups: seq<Upstream>) returns (u: Upstream)
      requires ups != []
      modifies this`counters
      ensures counters == Bumped(old(counters), routeKey)
      ensures u == ups[Position(CounterOf(old(counters), routeKey), |ups|)]
    {
      var c := TakeTurn(routeKey);
      u := ups[c % |ups|];
    }

    method SelectWeightedIndex(routeKey: string, weights: seq<nat>) returns (r: Option<nat>)
      modifies this
      ensures weights == [] ==> r == None && counters == Cleared(old(counters))
      ensures weights != [] ==>
                var wheel := Spread(Indices(|weights|), weights);
                && counters == Bumped(Cleared(old(counters)), routeKey)
                && r == Some(wheel[Position(CounterOf(Cleared(old(counters)), routeKey), |wheel|)])
    {
      EvictIfNeeded();
      if weights == [] {
        return None;
      }
      var wheel := Spread(Indices(|weights|), weights);
      var c := TakeTurn(routeKey);
      r := Some(wheel[c % |wheel|]);
    }

    method PowerOfTwoChoices(routeKey: string, ups: seq<Upstream>) returns (u: Upstream)
      requires ups != []
      modifies this`counters
      ensures u == TwoChoices(hashes, routeKey, CounterOf(old(counters), routeKey + ":p2c"), Recorded(inFlight, routeKey), ups)
      ensures counters == if |ups| <= 2 then old(counters) else Bumped(old(counters), routeKey + ":p2c")
    {
      if |ups| <= 2 {
        return ups[FirstMin(ups, Recorded(inFlight, routeKey))];
      }
      var c := TakeTurn(routeKey + ":p2c");
      var first := c % |ups|;
      var second := hashes.second(routeKey, c) % |ups|;
      if second == first {
        second := (second + 1) % |ups|;
      }
      var cost := Recorded(inFlight, routeKey);
      if cost(ups[first]) <= cost(ups[second]) {
        u := ups[first];
      } else {
        u := ups[second];
      }
    }

    /** Selects among the healthy upstreams; only hashing by address can fail on a pool that has one. */
    method Select(routeKey: string, algorithm: Algorithm, ups: seq<Upstream>, ip: Option<Ip>) returns (r: Option<Upstream>)
      modifies this
      ensures r == Choice(hashes, ClearedMemory(old(Remembered())), routeKey, algorithm, ups, ip)
      ensures Remembered() == TurnsTaken(ClearedMemory(old(Remembered())), routeKey, algorithm, ups)
      ensures r.Some? <==> Healthy(ups) != [] && (algorithm.IpHash? ==> ip.Some?)
      ensures r.Some? ==> r.value in ups && r.value.healthy
      ensures r.Some? && algorithm.IpHash? ==>
                r.value == Healthy(ups)[Position(hashes.ofIp(ip.value), |Healthy(ups)|)]
      ensures r.Some? && algorithm.RoundRobin? ==>
                && counters == Bumped(Cleared(old(counters)), routeKey)
                && r.value == Healthy(ups)[Position(CounterOf(Cleared(old(counters)), routeKey), |Healthy(ups)|)]
      ensures r.Some? && algorithm.WeightedRoundRobin? ==>
                var wheel := Spread(Healthy(ups), Weights(Healthy(ups)));
                && counters == Bumped(Cleared(old(counters)), routeKey)
                && r.value == wheel[Position(CounterOf(Cleared(old(counters)), routeKey), |wheel|)]
      ensures algorithm.Hrw? ==> r == Rendezvous(hashes, if ip.Some? then hashes.ipText(ip.value) else routeKey, ups)
      ensures r.Some? && algorithm.LeastConnections? ==>
                r.value == Healthy(ups)[FirstMin(Healthy(ups), Recorded(inFlight, routeKey))]
      ensures r.Some? && (algorithm.EwmaLatency? || algorithm.LatencyAware?) ==>
                r.value == Healthy(ups)[FirstMin(Healthy(ups), Recorded(latency, routeKey))]
      ensures r.Some? && algorithm.P2c? ==>
                var turn := CounterOf(Cleared(old(counters)), routeKey + ":p2c");
                r.value == TwoChoices(hashes, routeKey, turn, Recorded(inFlight, routeKey), Healthy(ups))
      ensures algorithm.P2c? && |Healthy(ups)| > 2 ==> counters == Bumped(Cleared(old(counters)), routeKey + ":p2c")
    {
      EvictIfNeeded();
      var healthy := Healthy(ups);
      HealthyMembers(ups);
      if healthy == [] || (algorithm.IpHash? && ip.None?) {
        return None;
      }
      ChoiceIsMember(hashes, Remembered(), routeKey, algorithm, healthy, ip);
      var u := SelectAmong(routeKey, algorithm, healthy, ip);
      r := Some(u);
    }

    method SelectAmong(routeKey: string, algorithm: Algorithm, pool: seq<Upstream>, ip: Option<Ip>) returns (u: Upstream)
      requires pool != [] && (algorithm.IpHash? ==> ip.Some?)
      modifies this
      ensures u == ChoiceAmong(hashes, old(Remembered()), routeKey, algorithm, pool, ip)
      ensures Remembered() == TurnsOf(old(Remembered()), routeKey, algorithm, |pool|)
    {
      match algorithm {
        case IpHash =>
          u := pool[hashes.ofIp(ip.value) % |pool|];
        case WeightedRoundRobin =>
          u := RoundRobin(routeKey, Spread(pool, Weights(pool)));
        case LeastConnections =>
          u := pool[FirstMin(pool, Recorded(inFlight, routeKey))];
        case P2c =>
          u := PowerOfTwoChoices(routeKey, pool);
        case Hrw =>
          var identity := if ip.Some? then hashes.ipText(ip.value) else routeKey;
          u := pool[LastMax(pool, Score(hashes, identity))];
        case EwmaLatency =>
          u := pool[FirstMin(pool, Recorded(latency, routeKey))];
        case LatencyAware =>
          u := pool[FirstMin(pool, Recorded(latency, routeKey))];
        case RoundRobin =>
          u := RoundRobin(routeKey, pool);
      }
    }
  }
}
