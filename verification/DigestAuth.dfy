// Digest authentication with signed nonces and a replay guard (edge/crates/http-proxy/src/lib.rs).
module DigestAuth {
  import opened Text

  const NONCE_TTL_MS: nat := 5 * 60 * 1_000
  const NONCE_CLOCK_SKEW_MS: nat := 30 * 1_000
  const REPLAY_EVICT_AT: nat := 100_000

  /** SHA-256 in hexadecimal, of which nothing is used but that it is a function. */
  type Hash = string -> string

  datatype Check = Check(
    verb: string, realm: string, users: map<string, string>, params: map<string, string>,
    actualUri: string, secret: string)

  type Replays = map<string, nat>

  // ----- Nonces -----

  function Codes(s: string): seq<int> {
    seq(|s|, i requires 0 <= i < |s| => s[i] as int)
  }

  function Characters(b: Bytes): string {
    seq(|b|, i requires 0 <= i < |b| => b[i] as char)
  }

  function Signature(hash: Hash, secret: string, realm: string, stamp: string): string {
    hash(secret + ":" + realm + ":" + stamp)
  }

  function Nonce(hash: Hash, secret: string, realm: string, at: nat): string {
    var stamp := Characters(ToHex(at));
    stamp + "." + Signature(hash, secret, realm, stamp)
  }

  /** The time stamp a nonce carries, when it is well-formed and fits 64 bits. */
  function StampOf(nonce: string): Option<nat> {
    match SplitOnce(nonce, '.')
    case None => None
    case Some((stamp, signature)) =>
      if stamp == [] || signature == [] then None
      else
        match ParseHex(Codes(stamp))
        case Some(at) => if at < 0x1_0000_0000_0000_0000 then Some(at) else None
        case None => None
  }

  predicate NonceIsValid(hash: Hash, secret: string, realm: string, nonce: string, now: nat) {
    var at := StampOf(nonce);
    && at.Some?
    && at.value <= now + NONCE_CLOCK_SKEW_MS
    && now <= at.value + NONCE_TTL_MS
    && var parts := SplitOnce(nonce, '.').value;
       Signature(hash, secret, realm, parts.0) == parts.1
  }

  /** A nonce the server issues is valid exactly from its skew before its stamp to its lifetime after. */
  lemma IssuedNonceValidIff(hash: Hash, secret: string, realm: string, at: nat, now: nat)
    requires at < 0x1_0000_0000_0000_0000
    requires Signature(hash, secret, realm, Characters(ToHex(at))) != []
    ensures StampOf(Nonce(hash, secret, realm, at)) == Some(at)
    ensures NonceIsValid(hash, secret, realm, Nonce(hash, secret, realm, at), now) <==>
            at <= now + NONCE_CLOCK_SKEW_MS && now <= at + NONCE_TTL_MS
  {
    var stamp := Characters(ToHex(at));
    var signature := Signature(hash, secret, realm, stamp);
    assert '.' !in stamp by {
      forall k | 0 <= k < |stamp| ensures stamp[k] != '.' { assert stamp[k] == ToHex(at)[k] as char; }
    }
    SplitOnceUnique(stamp, '.', signature);
    assert stamp + "." + signature == stamp + ['.'] + signature;
    assert Codes(stamp) == ToHex(at);
    ParseInvertsToHex(at);
  }

  // ----- One request -----

  predicate ValidCount(nc: string) {
    |nc| == 8 && forall k :: 0 <= k < |nc| ==> DigitValue(nc[k] as int).Some?
  }

  predicate SameIgnoringCase(a: string, b: string) {
    Lower(a) == Lower(b)
  }

  function ReplayKey(username: string, nonce: string, nc: string, cnonce: string, uri: string): string {
    username + ":" + nonce + ":" + nc + ":" + cnonce + ":" + uri
  }

  function Expected(hash: Hash, c: Check): string
    requires {"username", "nonce", "nc", "cnonce", "qop", "uri"} <= c.params.Keys && c.params["username"] in c.users
  {
    var p := c.params;
    var ha1 := hash(p["username"] + ":" + c.realm + ":" + c.users[p["username"]]);
    var ha2 := hash(c.verb + ":" + p["uri"]);
    hash(ha1 + ":" + p["nonce"] + ":" + p["nc"] + ":" + p["cnonce"] + ":" + p["qop"] + ":" + ha2)
  }

  /** A known user, this realm, a valid nonce and this resource. */
  predicate Addressed(hash: Hash, c: Check, now: nat) {
    var p := c.params;
    && {"username", "nonce", "uri"} <= p.Keys
    && p["username"] in c.users
    && ("realm" in p ==> p["realm"] == c.realm)
    && NonceIsValid(hash, c.secret, c.realm, p["nonce"], now)
    && p["uri"] == c.actualUri
  }

  /** A supported quality of protection, well-formed counts, and the right response. */
  predicate Answered(hash: Hash, c: Check)
    requires {"username", "nonce", "uri"} <= c.params.Keys && c.params["username"] in c.users
  {
    var p := c.params;
    && {"nc", "cnonce", "qop", "response"} <= p.Keys
    && ("algorithm" in p ==> SameIgnoringCase(p["algorithm"], "SHA-256"))
    && SameIgnoringCase(p["qop"], "auth")
    && ValidCount(p["nc"])
    && p["cnonce"] != []
    && Expected(hash, c) == p["response"]
  }

  /** Everything that is checked before the replay map is consulted. */
  predicate Verified(hash: Hash, c: Check, now: nat) {
    Addressed(hash, c, now) && Answered(hash, c)
  }

  function KeyOf(c: Check): string
    requires {"username", "nonce", "nc", "cnonce", "uri"} <= c.params.Keys
  {
    var p := c.params;
    ReplayKey(p["username"], p["nonce"], p["nc"], p["cnonce"], p["uri"])
  }

  function Prune(replays: Replays, now: nat): Replays {
    if |replays| < REPLAY_EVICT_AT then replays else map k | k in replays && replays[k] > now :: replays[k]
  }

  function Authorize(hash: Hash, replays: Replays, c: Check, now: nat): (Replays, bool) {
    if !Verified(hash, c, now) then (replays, false)
    else
      var pruned := Prune(replays, now);
      (pruned[KeyOf(c) := now + NONCE_TTL_MS], KeyOf(c) !in pruned)
  }

  /** What is used of the encoding of text in bytes. */
  ghost predicate Injective(utf8: string -> seq<bv8>) {
    forall a, b :: utf8(a) == utf8(b) ==> a == b
  }

  class DigestGuard {
    const hash: Hash
    const utf8: string -> seq<bv8>
    var replays: Replays

    constructor (hash: Hash, utf8: string -> seq<bv8>)
      ensures this.hash == hash && this.utf8 == utf8 && replays == map[]
    {
      this.hash := hash;
      this.utf8 := utf8;
      replays := map[];
    }

    method Authorized(c: Check, now: nat) returns (ok: bool)
      requires Injective(utf8)
      modifies this
      ensures (replays, ok) == Authorize(hash, old(replays), c, now)
    {
      var verified := Verify(c, now);
      if !verified {
        return false;
      }
      if |replays| >= REPLAY_EVICT_AT {
        replays := map k | k in replays && replays[k] > now :: replays[k];
      }
      ok := KeyOf(c) !in replays;
      replays := replays[KeyOf(c) := now + NONCE_TTL_MS];
    }

    /** The checks on the request itself. */
    method Verify(c: Check, now: nat) returns (ok: bool)
      requires Injective(utf8)
      ensures ok <==> Verified(hash, c, now)
    {
      ok := VerifyAddress(c, now);
      if ok {
        ok := VerifyAnswer(c);
      }
    }

    method SameText(a: string, b: string) returns (same: bool)
      requires Injective(utf8)
      ensures same <==> a == b
    {
      same := ConstantTimeEq(utf8(a), utf8(b));
    }

    method VerifyNonce(secret: string, realm: string, nonce: string, now: nat) returns (ok: bool)
      requires Injective(utf8)
      ensures ok <==> NonceIsValid(hash, secret, realm, nonce, now)
    {
      var at := StampOf(nonce);
      if at.None? { return false; }
      if at.value > now + NONCE_CLOCK_SKEW_MS { return false; }
      if now > at.value + NONCE_TTL_MS { return false; }
      var parts := SplitOnce(nonce, '.').value;
      ok := SameText(Signature(hash, secret, realm, parts.0), parts.1);
    }

    method VerifyAddress(c: Check, now: nat) returns (ok: bool)
      requires Injective(utf8)
      ensures ok <==> Addressed(hash, c, now)
    {
      var p := c.params;
      if "username" !in p || p["username"] !in c.users { return false; }
      if "realm" in p && p["realm"] != c.realm { return false; }
      if "nonce" !in p { return false; }
      ok := VerifyNonce(c.secret, c.realm, p["nonce"], now);
      ok := ok && "uri" in p && p["uri"] == c.actualUri;
    }

    method VerifyAnswer(c: Check) returns (ok: bool)
      requires Injective(utf8)
      requires {"username", "nonce", "uri"} <= c.params.Keys && c.params["username"] in c.users
      ensures ok <==> Answered(hash, c)
    {
      var p := c.params;
      if "algorithm" in p && !SameIgnoringCase(p["algorithm"], "SHA-256") { return false; }
      if "qop" !in p || !SameIgnoringCase(p["qop"], "auth") { return false; }
      if "nc" !in p || !ValidCount(p["nc"]) { return false; }
      if "cnonce" !in p || p["cnonce"] == [] { return false; }
      if "response" !in p { return false; }
      ok := SameText(Expected(hash, c), p["response"]);
    }
  }

  /** Comparison without an early exit, as the source writes it. */
  method ConstantTimeEq(left: seq<bv8>, right: seq<bv8>) returns (equal: bool)
    ensures equal <==> left == right
  {
    if |left| != |right| {
      return false;
    }
    var acc: bv8 := 0;
    for i := 0 to |left|
      invariant acc == 0 <==> left[..i] == right[..i]
    {
      var before := acc;
      acc := acc | (left[i] ^ right[i]);
      AccumulatesDifference(before, left[i], right[i]);
      assert left[..i + 1] == left[..i] + [left[i]] && right[..i + 1] == right[..i] + [right[i]];
    }
    assert left[..|left|] == left && right[..|right|] == right;
    equal := acc == 0;
  }

  lemma AccumulatesDifference(acc: bv8, a: bv8, b: bv8)
    ensures acc | (a ^ b) == 0 <==> acc == 0 && a == b
  {
  }

  // ----- Runs -----

  datatype Request = Request(check: Check, at: nat)

  predicate Ordered(run: seq<Request>) {
    forall i, j :: 0 <= i < j < |run| ==> run[i].at <= run[j].at
  }

  function ReplaysAfter(hash: Hash, run: seq<Request>): Replays {
    if run == [] then map[]
    else Authorize(hash, ReplaysAfter(hash, run[..|run| - 1]), run[|run| - 1].check, run[|run| - 1].at).0
  }

  /** Was the k-th request of the run let through? */
  predicate Accepted(hash: Hash, run: seq<Request>, k: nat)
    requires k < |run|
  {
    Authorize(hash, ReplaysAfter(hash, run[..k]), run[k].check, run[k].at).1
  }

  predicate SameTuple(a: Check, b: Check) {
    && {"username", "nonce", "nc", "cnonce", "uri"} <= a.params.Keys
    && {"username", "nonce", "nc", "cnonce", "uri"} <= b.params.Keys
    && a.params["username"] == b.params["username"] && a.params["nonce"] == b.params["nonce"]
    && a.params["nc"] == b.params["nc"] && a.params["cnonce"] == b.params["cnonce"]
    && a.params["uri"] == b.params["uri"]
  }

  /** A recorded key outlives every request before its expiry. */
  lemma KeyOutlives(hash: Hash, replays: Replays, c: Check, now: nat, key: string, expiry: nat)
    requires key in replays && replays[key] >= expiry > now && expiry <= now + NONCE_TTL_MS
    ensures var next := Authorize(hash, replays, c, now).0; key in next && next[key] >= expiry
  {
  }

  lemma {:induction false} KeyRemains(hash: Hash, run: seq<Request>, i: nat, j: nat, key: string, expiry: nat)
    requires i < j <= |run| && Ordered(run) && expiry <= run[i].at + NONCE_TTL_MS
    requires forall k :: i < k < j ==> run[k].at < expiry
    requires key in ReplaysAfter(hash, run[..i + 1]) && ReplaysAfter(hash, run[..i + 1])[key] >= expiry
    ensures key in ReplaysAfter(hash, run[..j]) && ReplaysAfter(hash, run[..j])[key] >= expiry
    decreases j
  {
    if j > i + 1 {
      KeyRemains(hash, run, i, j - 1, key, expiry);
      assert run[..j][..j - 1] == run[..j - 1];
      KeyOutlives(hash, ReplaysAfter(hash, run[..j - 1]), run[j - 1].check, run[j - 1].at, key, expiry);
    }
  }

  /**
   * Over every ordered run, a tuple accepted with a nonce stamped strictly before that moment is never
   * accepted again, however often the replay map is pruned.
   */
  lemma NoReplay(hash: Hash, run: seq<Request>, i: nat, j: nat)
    requires Ordered(run) && i < j < |run|
    requires Accepted(hash, run, i) && SameTuple(run[i].check, run[j].check)
    requires StampOf(run[i].check.params["nonce"]).value < run[i].at
    ensures !Accepted(hash, run, j)
  {
    var a, b := run[i], run[j];
    var key := KeyOf(a.check);
    var expiry := a.at + NONCE_TTL_MS;
    assert run[..i + 1][..i] == run[..i];
    if Verified(hash, b.check, b.at) {
      assert b.at < expiry;
      KeyRemains(hash, run, i, j, key, expiry);
    }
  }

  // ----- Exactly when a verified request is refused -----

  /** The k-th request is verified and its key is that one. */
  predicate Records(hash: Hash, run: seq<Request>, k: nat, key: string)
    requires k < |run|
  {
    Verified(hash, run[k].check, run[k].at) && KeyOf(run[k].check) == key
  }

  /** The k-th request prunes the map, and the record of the i-th has expired by then. */
  predicate Drops(hash: Hash, run: seq<Request>, i: nat, k: nat)
    requires i < |run| && k < |run|
  {
    && Verified(hash, run[k].check, run[k].at) && |ReplaysAfter(hash, run[..k])| >= REPLAY_EVICT_AT
    && run[i].at + NONCE_TTL_MS <= run[k].at
  }

  /** The i-th request records the key, and no request after it and before the j-th drops that record. */
  predicate Survives(hash: Hash, run: seq<Request>, i: nat, j: nat, key: string)
    requires i < j <= |run|
  {
    Records(hash, run, i, key) && forall k :: i < k < j ==> !Drops(hash, run, i, k)
  }

  lemma StepOf(hash: Hash, run: seq<Request>, k: nat)
    requires k < |run|
    ensures ReplaysAfter(hash, run[..k + 1]) == Authorize(hash, ReplaysAfter(hash, run[..k]), run[k].check, run[k].at).0
  {
    assert run[..k + 1][..k] == run[..k];
  }

  lemma {:induction false} SurvivorOnRecord(hash: Hash, run: seq<Request>, i: nat, j: nat, key: string)
    requires Ordered(run) && i < j <= |run| && Survives(hash, run, i, j, key)
    ensures var m := ReplaysAfter(hash, run[..j]); key in m && m[key] >= run[i].at + NONCE_TTL_MS
    decreases j
  {
    var k := j - 1;
    StepOf(hash, run, k);
    if i < k {
      SurvivorOnRecord(hash, run, i, k, key);
      assert !Drops(hash, run, i, k) && run[i].at <= run[k].at;
    }
  }

  lemma {:induction false} RecordHasSurvivor(hash: Hash, run: seq<Request>, j: nat, key: string) returns (i: nat)
    requires j <= |run| && key in ReplaysAfter(hash, run[..j])
    ensures i < j && Survives(hash, run, i, j, key)
    ensures ReplaysAfter(hash, run[..j])[key] == run[i].at + NONCE_TTL_MS
    decreases j
  {
    assert j > 0;
    var k := j - 1;
    StepOf(hash, run, k);
    if Records(hash, run, k, key) {
      i := k;
    } else {
      KeyKept(hash, ReplaysAfter(hash, run[..k]), run[k].check, run[k].at, key);
      i := RecordHasSurvivor(hash, run, k, key);
      SurvivesOn(hash, run, i, k, key);
    }
  }

  /** A key on record that was not just recorded has passed the pruning, if there was one. */
  lemma KeyKept(hash: Hash, m: Replays, c: Check, now: nat, key: string)
    requires key in Authorize(hash, m, c, now).0 && !(Verified(hash, c, now) && KeyOf(c) == key)
    ensures key in m && Authorize(hash, m, c, now).0[key] == m[key]
    ensures Verified(hash, c, now) && |m| >= REPLAY_EVICT_AT ==> m[key] > now
  {
  }

  lemma SurvivesOn(hash: Hash, run: seq<Request>, i: nat, k: nat, key: string)
    requires i < k < |run| && Survives(hash, run, i, k, key) && !Drops(hash, run, i, k)
    ensures Survives(hash, run, i, k + 1, key)
  {
  }

  /**
   * Over every ordered run, a verified request is refused exactly when an earlier verified request carried
   * its key and no pruning since then, its own included, came after that record's expiry.
   */
  lemma RefusedIff(hash: Hash, run: seq<Request>, j: nat)
    requires Ordered(run) && j < |run| && Verified(hash, run[j].check, run[j].at)
    ensures !Accepted(hash, run, j) <==>
            exists i :: Precludes(hash, run, i, j, KeyOf(run[j].check))
  {
    var key := KeyOf(run[j].check);
    if !Accepted(hash, run, j) {
      var i := RecordHasSurvivor(hash, run, j, key);
      RefusedUndropped(hash, ReplaysAfter(hash, run[..j]), run[j].check, run[j].at);
      SurvivesOn(hash, run, i, j, key);
      assert Precludes(hash, run, i, j, key);
    }
    if i :| Precludes(hash, run, i, j, key) {
      assert Survives(hash, run, i, j, key) && !Drops(hash, run, i, j);
      SurvivorOnRecord(hash, run, i, j, key);
      RefusedUndropped(hash, ReplaysAfter(hash, run[..j]), run[j].check, run[j].at);
    }
  }

  lemma RefusedUndropped(hash: Hash, m: Replays, c: Check, now: nat)
    requires Verified(hash, c, now)
    ensures !Authorize(hash, m, c, now).1 <==> KeyOf(c) in m && (|m| >= REPLAY_EVICT_AT ==> m[KeyOf(c)] > now)
  {
  }

  /** An earlier request whose record of the key still stands when the j-th has pruned. */
  predicate Precludes(hash: Hash, run: seq<Request>, i: nat, j: nat, key: string)
    requires j < |run|
  {
    i < j && Survives(hash, run, i, j + 1, key)
  }

  // ----- Exactly which tuples share a key -----

  datatype Tuple = Tuple(username: string, nonce: string, nc: string, cnonce: string, uri: string)

  function KeyFor(t: Tuple): string {
    ReplayKey(t.username, t.nonce, t.nc, t.cnonce, t.uri)
  }

  function Colons(s: string): nat {
    if s == [] then 0 else Colons(s[1..]) + if s[0] == ':' then 1 else 0
  }

  lemma {:induction false} ColonsConcat(a: string, b: string)
    ensures Colons(a + b) == Colons(a) + Colons(b)
  {
    if a == [] {
      assert a + b == b;
    } else {
      assert (a + b)[1..] == a[1..] + b;
      ColonsConcat(a[1..], b);
    }
  }

  lemma {:induction false} ColonsNone(s: string)
    ensures Colons(s) == 0 <==> ':' !in s
  {
    if s != [] {
      ColonsNone(s[1..]);
    }
  }

  function ColonsOf(t: Tuple): nat {
    Colons(t.username) + Colons(t.nonce) + Colons(t.nc) + Colons(t.cnonce) + Colons(t.uri)
  }

  lemma KeyColons(t: Tuple)
    ensures Colons(KeyFor(t)) == ColonsOf(t) + 4
  {
    JoinColons(t.username, t.nonce);
    JoinColons(t.username + ":" + t.nonce, t.nc);
    JoinColons(t.username + ":" + t.nonce + ":" + t.nc, t.cnonce);
    JoinColons(t.username + ":" + t.nonce + ":" + t.nc + ":" + t.cnonce, t.uri);
  }

  lemma JoinColons(a: string, b: string)
    ensures Colons(a + ":" + b) == Colons(a) + Colons(b) + 1
  {
    ColonsConcat(a, ":");
    ColonsConcat(a + ":", b);
    assert ":"[1..] == "";
  }

  predicate HasColon(t: Tuple) {
    ':' in t.username || ':' in t.nonce || ':' in t.nc || ':' in t.cnonce || ':' in t.uri
  }

  lemma ColonsOfNone(t: Tuple)
    ensures ColonsOf(t) == 0 <==> !HasColon(t)
  {
    ColonsNone(t.username);
    ColonsNone(t.nonce);
    ColonsNone(t.nc);
    ColonsNone(t.cnonce);
    ColonsNone(t.uri);
  }

  lemma Nested(t: Tuple)
    ensures KeyFor(t) == t.username + ":" + (t.nonce + ":" + (t.nc + ":" + (t.cnonce + ":" + t.uri)))
  {
  }

  lemma PlainKeyUnique(a: Tuple, b: Tuple)
    requires !HasColon(a) && KeyFor(a) == KeyFor(b)
    ensures a == b
  {
    KeyColons(a);
    KeyColons(b);
    ColonsOfNone(a);
    ColonsOfNone(b);
    Nested(a);
    Nested(b);
    ColonSplitUnique(a.username, a.nonce + ":" + (a.nc + ":" + (a.cnonce + ":" + a.uri)),
                     b.username, b.nonce + ":" + (b.nc + ":" + (b.cnonce + ":" + b.uri)));
    ColonSplitUnique(a.nonce, a.nc + ":" + (a.cnonce + ":" + a.uri), b.nonce, b.nc + ":" + (b.cnonce + ":" + b.uri));
    ColonSplitUnique(a.nc, a.cnonce + ":" + a.uri, b.nc, b.cnonce + ":" + b.uri);
    ColonSplitUnique(a.cnonce, a.uri, b.cnonce, b.uri);
  }

  /** Moving a colon of one field to the border with the next leaves the joined text alone. */
  lemma ShiftColon(x: string, y: string, next: string)
    ensures (x + ":" + y) + ":" + next == x + ":" + (y + ":" + next)
  {
  }

  lemma SplitAtColon(s: string) returns (x: string, y: string)
    requires ':' in s
    ensures s == x + ":" + y && |x| < |s| && |y| < |s|
  {
    var i :| 0 <= i < |s| && s[i] == ':';
    x, y := s[..i], s[i + 1..];
  }

  lemma Twin(t: Tuple) returns (other: Tuple)
    requires HasColon(t)
    ensures other != t && KeyFor(other) == KeyFor(t)
  {
    Nested(t);
    if ':' in t.username {
      var x, y := SplitAtColon(t.username);
      other := t.(username := x, nonce := y + ":" + t.nonce);
      ShiftColon(x, y, t.nonce);
    } else if ':' in t.nonce {
      var x, y := SplitAtColon(t.nonce);
      other := t.(nonce := x, nc := y + ":" + t.nc);
      ShiftColon(x, y, t.nc);
    } else if ':' in t.nc {
      var x, y := SplitAtColon(t.nc);
      other := t.(nc := x, cnonce := y + ":" + t.cnonce);
      ShiftColon(x, y, t.cnonce);
    } else if ':' in t.cnonce {
      var x, y := SplitAtColon(t.cnonce);
      other := t.(cnonce := x, uri := y + ":" + t.uri);
      ShiftColon(x, y, t.uri);
    } else {
      var x, y := SplitAtColon(t.uri);
      other := t.(cnonce := t.cnonce + ":" + x, uri := y);
      ShiftColon(t.cnonce, x, y);
    }
    Nested(other);
  }

  /** Some other tuple has the same replay key exactly when a field contains a colon. */
  lemma KeyAmbiguousIff(t: Tuple)
    ensures (exists other :: other != t && KeyFor(other) == KeyFor(t)) <==> HasColon(t)
  {
    if HasColon(t) {
      var other := Twin(t);
    } else if other :| other != t && KeyFor(other) == KeyFor(t) {
      PlainKeyUnique(t, other);
    }
  }

  /** A verified request is refused after one of another tuple that shares its key. */
  lemma SharedKeyRefused(hash: Hash, a: Check, b: Check, now: nat)
    requires Verified(hash, a, now) && Verified(hash, b, now) && KeyOf(a) == KeyOf(b)
    ensures !Accepted(hash, [Request(a, now), Request(b, now)], 1)
  {
    var run := [Request(a, now), Request(b, now)];
    assert Survives(hash, run, 0, 1, KeyOf(b));
    SurvivorOnRecord(hash, run, 0, 1, KeyOf(b));
    assert !Drops(hash, run, 0, 1);
    assert Precludes(hash, run, 0, 1, KeyOf(b));
    RefusedIff(hash, run, 1);
  }

  // ----- The exact edge -----

  /** A verified request whose key is on record passes exactly when the map is full and the record has expired. */
  lemma RecordedPassesIff(hash: Hash, replays: Replays, c: Check, now: nat)
    requires Verified(hash, c, now) && KeyOf(c) in replays
    ensures Authorize(hash, replays, c, now).1 <==> |replays| >= REPLAY_EVICT_AT && replays[KeyOf(c)] <= now
  {
  }

  /** A run that accepts the tuple of `c` at `first` and once more later. */
  predicate AcceptsTwice(hash: Hash, run: seq<Request>, i: nat, j: nat, c: Check, first: nat) {
    && Ordered(run) && i < j < |run|
    && run[i] == Request(c, first) && SameTuple(c, run[j].check)
    && Accepted(hash, run, i) && Accepted(hash, run, j)
  }

  ghost predicate Repeatable(hash: Hash, c: Check, first: nat) {
    exists run: seq<Request>, i: nat, j: nat :: AcceptsTwice(hash, run, i, j, c, first)
  }

  /** Some run accepts a tuple twice exactly when its nonce was not stamped before the first acceptance. */
  lemma RepeatableIff(hash: Hash, c: Check, first: nat)
    requires Verified(hash, c, first)
    ensures Repeatable(hash, c, first) <==> StampOf(c.params["nonce"]).value >= first
  {
    if StampOf(c.params["nonce"]).value >= first {
      var n: nat :| n + 1 == REPLAY_EVICT_AT;
      var run := ReplayRun(hash, c, first, n);
    } else {
      forall run: seq<Request>, i: nat, j: nat | AcceptsTwice(hash, run, i, j, c, first)
        ensures false
      {
        NoReplay(hash, run, i, j);
      }
    }
  }

  // ----- The run that shows it: fill the map, wait, and send the first request again -----

  function Xs(n: nat): (s: string)
    ensures |s| == n
  {
    if n == 0 then "" else Xs(n - 1) + "x"
  }

  /** The same request with a client nonce n characters longer, answered anew. */
  function Filler(hash: Hash, c: Check, n: nat): Check
    requires {"username", "nonce", "nc", "cnonce", "qop", "uri"} <= c.params.Keys && c.params["username"] in c.users
  {
    var longer := c.(params := c.params["cnonce" := c.params["cnonce"] + Xs(n)]);
    longer.(params := longer.params["response" := Expected(hash, longer)])
  }

  lemma FillerVerified(hash: Hash, c: Check, n: nat, now: nat)
    requires Verified(hash, c, now)
    ensures Verified(hash, Filler(hash, c, n), now)
    ensures |KeyOf(Filler(hash, c, n))| == |KeyOf(c)| + n
  {
    var longer := c.(params := c.params["cnonce" := c.params["cnonce"] + Xs(n)]);
    assert Expected(hash, Filler(hash, c, n)) == Expected(hash, longer);
  }

  /** The request and n fillers, all at one moment. */
  function Filled(hash: Hash, c: Check, first: nat, n: nat): (run: seq<Request>)
    requires {"username", "nonce", "nc", "cnonce", "qop", "uri"} <= c.params.Keys && c.params["username"] in c.users
    ensures |run| == n + 1 && run[0] == Request(c, first)
    ensures forall k :: 0 <= k <= n ==> run[k].at == first
  {
    if n == 0 then [Request(c, first)] else Filled(hash, c, first, n - 1) + [Request(Filler(hash, c, n), first)]
  }

  /** Every key recorded so far expires together and is no longer than `length`. */
  predicate Uniform(replays: Replays, expiry: nat, length: nat) {
    forall k :: k in replays ==> replays[k] == expiry && |k| <= length
  }

  lemma RecordLonger(hash: Hash, replays: Replays, c: Check, now: nat, length: nat)
    requires Verified(hash, c, now) && |replays| < REPLAY_EVICT_AT
    requires Uniform(replays, now + NONCE_TTL_MS, length) && |KeyOf(c)| > length
    ensures var next := Authorize(hash, replays, c, now).0;
            |next| == |replays| + 1 && Uniform(next, now + NONCE_TTL_MS, |KeyOf(c)|)
  {
    BelowLimit(hash, replays, c, now);
    UniformPlus(replays, KeyOf(c), now + NONCE_TTL_MS, length);
  }

  lemma BelowLimit(hash: Hash, replays: Replays, c: Check, now: nat)
    requires Verified(hash, c, now) && |replays| < REPLAY_EVICT_AT
    ensures Authorize(hash, replays, c, now).0 == replays[KeyOf(c) := now + NONCE_TTL_MS]
  {
  }

  lemma UniformPlus(replays: Replays, key: string, expiry: nat, length: nat)
    requires Uniform(replays, expiry, length) && |key| > length
    ensures |replays[key := expiry]| == |replays| + 1 && Uniform(replays[key := expiry], expiry, |key|)
  {
    assert key !in replays;
    assert replays[key := expiry].Keys == replays.Keys + {key};
  }

  lemma {:induction false} FilledRecords(hash: Hash, c: Check, first: nat, n: nat)
    requires Verified(hash, c, first) && n < REPLAY_EVICT_AT
    ensures var replays := ReplaysAfter(hash, Filled(hash, c, first, n));
            && |replays| == n + 1 && Uniform(replays, first + NONCE_TTL_MS, |KeyOf(c)| + n)
  {
    var run := Filled(hash, c, first, n);
    if n == 0 {
      assert run[..0] == [];
      RecordFirst(hash, c, first);
    } else {
      FilledRecords(hash, c, first, n - 1);
      FillerVerified(hash, c, n, first);
      assert run[..n] == Filled(hash, c, first, n - 1);
      RecordLonger(hash, ReplaysAfter(hash, run[..n]), Filler(hash, c, n), first, |KeyOf(c)| + n - 1);
    }
  }

  lemma RecordFirst(hash: Hash, c: Check, now: nat)
    requires Verified(hash, c, now)
    ensures var (next, ok) := Authorize(hash, map[], c, now);
            ok && |next| == 1 && Uniform(next, now + NONCE_TTL_MS, |KeyOf(c)|)
  {
    var next := Authorize(hash, map[], c, now).0;
    assert next.Keys == {KeyOf(c)};
  }

  /** A full map whose records have all expired lets any verified request through. */
  lemma ExpiredPasses(hash: Hash, replays: Replays, c: Check, now: nat, length: nat)
    requires Verified(hash, c, now) && |replays| >= REPLAY_EVICT_AT && Uniform(replays, now, length)
    ensures Authorize(hash, replays, c, now).1
  {
  }

  /** The request, fillers at the same moment up to the limit, and the request again when all records expire. */
  lemma ReplayRun(hash: Hash, c: Check, first: nat, n: nat) returns (run: seq<Request>)
    requires Verified(hash, c, first) && StampOf(c.params["nonce"]).value >= first
    requires n + 1 == REPLAY_EVICT_AT
    ensures |run| == n + 2 && run[n + 1].check == c
    ensures AcceptsTwice(hash, run, 0, n + 1, c, first)
  {
    var filled := Filled(hash, c, first, n);
    FilledRecords(hash, c, first, n);
    run := filled + [Request(c, first + NONCE_TTL_MS)];
    StillVerified(hash, c, first);
    TwiceAfter(hash, filled, c, first, first + NONCE_TTL_MS, |KeyOf(c)| + n);
  }

  lemma TwiceAfter(hash: Hash, filled: seq<Request>, c: Check, first: nat, later: nat, length: nat)
    requires filled != [] && filled[0] == Request(c, first) && forall k :: 0 <= k < |filled| ==> filled[k].at == first
    requires Verified(hash, c, first) && Verified(hash, c, later) && first <= later
    requires var replays := ReplaysAfter(hash, filled);
             |replays| >= REPLAY_EVICT_AT && Uniform(replays, later, length)
    ensures AcceptsTwice(hash, filled + [Request(c, later)], 0, |filled|, c, first)
  {
    var run := filled + [Request(c, later)];
    OrderedPlus(filled, first, Request(c, later));
    FirstAccepted(hash, run, c, first);
    AcceptedAgain(hash, filled, c, later, length);
    Twice(hash, run, |filled|, c, first);
  }

  lemma OrderedPlus(filled: seq<Request>, first: nat, r: Request)
    requires first <= r.at && forall k :: 0 <= k < |filled| ==> filled[k].at == first
    ensures Ordered(filled + [r])
  {
  }

  lemma Twice(hash: Hash, run: seq<Request>, j: nat, c: Check, first: nat)
    requires Ordered(run) && 0 < j < |run| && run[0] == Request(c, first) && run[j].check == c
    requires {"username", "nonce", "nc", "cnonce", "uri"} <= c.params.Keys
    requires Accepted(hash, run, 0) && Accepted(hash, run, j)
    ensures AcceptsTwice(hash, run, 0, j, c, first)
  {
  }

  lemma AcceptedAgain(hash: Hash, filled: seq<Request>, c: Check, later: nat, length: nat)
    requires Verified(hash, c, later)
    requires var replays := ReplaysAfter(hash, filled);
             |replays| >= REPLAY_EVICT_AT && Uniform(replays, later, length)
    ensures Accepted(hash, filled + [Request(c, later)], |filled|)
  {
    ExpiredPasses(hash, ReplaysAfter(hash, filled), c, later, length);
    LastAccepted(hash, filled, c, later);
  }

  lemma FirstAccepted(hash: Hash, run: seq<Request>, c: Check, first: nat)
    requires run != [] && run[0] == Request(c, first) && Verified(hash, c, first)
    ensures Accepted(hash, run, 0)
  {
    assert run[..0] == [];
    RecordFirst(hash, c, first);
  }

  lemma LastAccepted(hash: Hash, before: seq<Request>, c: Check, now: nat)
    requires Authorize(hash, ReplaysAfter(hash, before), c, now).1
    ensures Accepted(hash, before + [Request(c, now)], |before|)
  {
    assert (before + [Request(c, now)])[..|before|] == before;
  }

  lemma StillVerified(hash: Hash, c: Check, first: nat)
    requires Verified(hash, c, first) && StampOf(c.params["nonce"]).value >= first
    ensures Verified(hash, c, first + NONCE_TTL_MS)
  {
  }
}
