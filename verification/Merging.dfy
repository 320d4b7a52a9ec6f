// Order-preserving merges that keep the first element of every key
// (`extend_unique_*` in edge/crates/core/src/lib.rs).
module Merging {

  predicate HasKey<T>(key: T -> string, xs: seq<T>, k: string) {
    exists i :: 0 <= i < |xs| && key(xs[i]) == k
  }

  function Extend<T>(key: T -> string, target: seq<T>, xs: seq<T>): seq<T>
    decreases |xs|
  {
    if xs == [] then target
    else Extend(key, if HasKey(key, target, key(xs[0])) then target else target + [xs[0]], xs[1..])
  }

  method ExtendUnique<T>(key: T -> string, target: seq<T>, xs: seq<T>) returns (r: seq<T>)
    ensures r == Extend(key, target, xs)
  {
    r := target;
    for i := 0 to |xs|
      invariant Extend(key, target, xs) == Extend(key, r, xs[i..])
    {
      assert xs[i..][1..] == xs[i + 1..];
      if !(exists j :: 0 <= j < |r| && key(r[j]) == key(xs[i])) {
        r := r + [xs[i]];
      }
    }
  }

  /** The reference meaning: an element is fresh when no element of `target` and none before it has its key. */
  function Fresh<T>(key: T -> string, target: seq<T>, xs: seq<T>): seq<T> {
    if xs == [] then []
    else
      var init, last := xs[..|xs| - 1], xs[|xs| - 1];
      Fresh(key, target, init) +
      if HasKey(key, target, key(last)) || HasKey(key, init, key(last)) then [] else [last]
  }

  lemma {:induction false} ExtendAppend<T>(key: T -> string, target: seq<T>, a: seq<T>, b: seq<T>)
    ensures Extend(key, target, a + b) == Extend(key, Extend(key, target, a), b)
    decreases |a|
  {
    if a == [] {
      assert a + b == b;
    } else {
      assert (a + b)[1..] == a[1..] + b;
      var next := if HasKey(key, target, key(a[0])) then target else target + [a[0]];
      ExtendAppend(key, next, a[1..], b);
    }
  }

  lemma {:induction false} FreshKeys<T>(key: T -> string, target: seq<T>, xs: seq<T>, k: string)
    ensures HasKey(key, target + Fresh(key, target, xs), k) <==> HasKey(key, target, k) || HasKey(key, xs, k)
    decreases |xs|
  {
    if xs == [] {
      assert target + [] == target;
    } else {
      var init, last := xs[..|xs| - 1], xs[|xs| - 1];
      FreshKeys(key, target, init, k);
      var before := target + Fresh(key, target, init);
      assert xs == init + [last];
      HasKeyAppend(key, init, last, k);
      if HasKey(key, target, key(last)) || HasKey(key, init, key(last)) {
        assert Fresh(key, target, xs) == Fresh(key, target, init);
      } else {
        assert target + Fresh(key, target, xs) == before + [last];
        HasKeyAppend(key, before, last, k);
      }
    }
  }

  lemma HasKeyAppend<T>(key: T -> string, xs: seq<T>, x: T, k: string)
    ensures HasKey(key, xs + [x], k) <==> HasKey(key, xs, k) || key(x) == k
  {
    var ys := xs + [x];
    if HasKey(key, xs, k) {
      var i :| 0 <= i < |xs| && key(xs[i]) == k;
      assert key(ys[i]) == k;
    }
    if key(x) == k {
      assert key(ys[|xs|]) == k;
    }
  }

  /** The loop keeps `target` and adds exactly the fresh elements, in order. */
  lemma {:induction false} ExtendIsFresh<T>(key: T -> string, target: seq<T>, xs: seq<T>)
    ensures Extend(key, target, xs) == target + Fresh(key, target, xs)
    decreases |xs|
  {
    if xs != [] {
      var init, last := xs[..|xs| - 1], xs[|xs| - 1];
      assert xs == init + [last];
      ExtendAppend(key, target, init, [last]);
      ExtendIsFresh(key, target, init);
      FreshKeys(key, target, init, key(last));
    }
  }

  predicate DistinctKeys<T>(key: T -> string, xs: seq<T>) {
    forall i, j :: 0 <= i < j < |xs| ==> key(xs[i]) != key(xs[j])
  }

  /** The merge has distinct keys exactly when its first list already had. */
  lemma {:induction false} ExtendDistinct<T>(key: T -> string, target: seq<T>, xs: seq<T>)
    ensures DistinctKeys(key, Extend(key, target, xs)) <==> DistinctKeys(key, target)
    decreases |xs|
  {
    if xs != [] {
      var x := xs[0];
      if !HasKey(key, target, key(x)) {
        ExtendDistinct(key, target + [x], xs[1..]);
        if DistinctKeys(key, target + [x]) {
          forall i, j | 0 <= i < j < |target|
            ensures key(target[i]) != key(target[j])
          {
            assert target[i] == (target + [x])[i] && target[j] == (target + [x])[j];
          }
        }
      } else {
        ExtendDistinct(key, target, xs[1..]);
      }
    }
  }

  // ----- Last one wins -----

  /** The keys in the order in which they first occur. */
  function FirstKeys<T>(key: T -> string, xs: seq<T>): (ks: seq<string>)
    ensures forall k :: k in ks <==> HasKey(key, xs, k)
    ensures forall i, j :: 0 <= i < j < |ks| ==> ks[i] != ks[j]
  {
    if xs == [] then []
    else
      var init, last := xs[..|xs| - 1], xs[|xs| - 1];
      var before := FirstKeys(key, init);
      assert forall k :: HasKey(key, xs, k) <==> HasKey(key, init, k) || key(last) == k by {
        assert xs == init + [last];
        forall k: string { HasKeyAppend(key, init, last, k); }
      }
      if HasKey(key, init, key(last)) then before else before + [key(last)]
  }

  /** The last element that carries the key. */
  function LastWith<T>(key: T -> string, xs: seq<T>, k: string): (x: T)
    requires HasKey(key, xs, k)
    ensures key(x) == k && x in xs
  {
    var init, last := xs[..|xs| - 1], xs[|xs| - 1];
    if key(last) == k then last
    else
      assert HasKey(key, init, k) by {
        assert xs == init + [last];
        HasKeyAppend(key, init, last, k);
      }
      LastWith(key, init, k)
  }

  /** Every key once, at the place of its first occurrence, with its last element. */
  function Latest<T>(key: T -> string, xs: seq<T>): (r: seq<T>)
    ensures DistinctKeys(key, r)
    ensures forall k: string :: HasKey(key, r, k) <==> HasKey(key, xs, k)
  {
    var ks := FirstKeys(key, xs);
    var r := seq(|ks|, i requires 0 <= i < |ks| => LastWith(key, xs, ks[i]));
    assert forall k: string :: HasKey(key, r, k) ==> k in ks;
    assert forall i :: 0 <= i < |ks| ==> key(r[i]) == ks[i];
    r
  }

  /** The positions are exactly the places of the keys. */
  ghost predicate Indexes(positions: map<string, nat>, ks: seq<string>) {
    && (forall k :: k in positions <==> k in ks)
    && (forall k :: k in positions ==> positions[k] < |ks| && ks[positions[k]] == k)
  }

  /** A repeated key replaces its element in place; a new one goes to the end. */
  lemma LatestSnoc<T>(key: T -> string, xs: seq<T>, x: T)
    ensures |Latest(key, xs)| == |FirstKeys(key, xs)|
    ensures FirstKeys(key, xs + [x]) ==
            FirstKeys(key, xs) + if key(x) in FirstKeys(key, xs) then [] else [key(x)]
    ensures forall i :: 0 <= i < |FirstKeys(key, xs)| && FirstKeys(key, xs)[i] == key(x) ==>
              Latest(key, xs + [x]) == Latest(key, xs)[i := x]
    ensures key(x) !in FirstKeys(key, xs) ==> Latest(key, xs + [x]) == Latest(key, xs) + [x]
  {
    assert (xs + [x])[..|xs|] == xs;
    forall k: string { HasKeyAppend(key, xs, x, k); }
  }

  method DedupeBy<T>(key: T -> string, xs: seq<T>) returns (merged: seq<T>)
    ensures merged == Latest(key, xs)
  {
    merged := [];
    var positions: map<string, nat> := map[];
    for i := 0 to |xs|
      invariant merged == Latest(key, xs[..i])
      invariant Indexes(positions, FirstKeys(key, xs[..i]))
    {
      var x := xs[i];
      assert xs[..i + 1] == xs[..i] + [x];
      LatestSnoc(key, xs[..i], x);
      if key(x) in positions {
        merged := merged[positions[key(x)] := x];
      } else {
        positions := positions[key(x) := |merged|];
        merged := merged + [x];
      }
    }
    assert xs[..|xs|] == xs;
  }

  lemma {:induction false} FirstKeysDistinct<T>(key: T -> string, xs: seq<T>)
    requires DistinctKeys(key, xs)
    ensures |FirstKeys(key, xs)| == |xs|
    ensures forall i :: 0 <= i < |xs| ==> FirstKeys(key, xs)[i] == key(xs[i])
  {
    if xs != [] {
      FirstKeysDistinct(key, xs[..|xs| - 1]);
    }
  }

  lemma {:induction false} LastWithDistinct<T>(key: T -> string, xs: seq<T>, i: nat)
    requires DistinctKeys(key, xs) && i < |xs|
    ensures HasKey(key, xs, key(xs[i])) && LastWith(key, xs, key(xs[i])) == xs[i]
  {
    if i < |xs| - 1 {
      LastWithDistinct(key, xs[..|xs| - 1], i);
    }
  }

  /** Deduplication leaves distinct keys alone, so it is idempotent. */
  lemma LatestDistinct<T>(key: T -> string, xs: seq<T>)
    requires DistinctKeys(key, xs)
    ensures Latest(key, xs) == xs
  {
    FirstKeysDistinct(key, xs);
    forall i | 0 <= i < |xs|
      ensures Latest(key, xs)[i] == xs[i]
    {
      LastWithDistinct(key, xs, i);
    }
  }
}
