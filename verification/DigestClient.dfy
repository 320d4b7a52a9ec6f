// What a digest response proves and what a client must send: sections 3.4.1 to 3.4.3 of RFC 7616 against the
// checks of edge/crates/http-proxy/src/lib.rs.
module DigestClient {
  import opened Text
  import opened DigestAuth

  // ----- The client's side, as the standard writes it -----

  function A1(username: string, realm: string, password: string): string {
    username + ":" + realm + ":" + password
  }

  function A2(verb: string, uri: string): string {
    verb + ":" + uri
  }

  /** The digest of a secret and some data. */
  function KeyedDigest(hash: Hash, secret: string, data: string): string {
    hash(secret + ":" + data)
  }

  datatype Challenge = Challenge(nonce: string, nc: string, cnonce: string, qop: string)

  function Data(ch: Challenge, digest: string): string {
    ch.nonce + ":" + ch.nc + ":" + ch.cnonce + ":" + ch.qop + ":" + digest
  }

  function Response(hash: Hash, a1: string, ch: Challenge, a2: string): string {
    KeyedDigest(hash, hash(a1), Data(ch, hash(a2)))
  }

  /** The parameters a client puts into its Authorization header. */
  function Header(hash: Hash, username: string, realm: string, password: string, verb: string, uri: string,
                  ch: Challenge): map<string, string>
  {
    map["username" := username, "realm" := realm, "nonce" := ch.nonce, "uri" := uri, "algorithm" := "SHA-256",
        "qop" := ch.qop, "nc" := ch.nc, "cnonce" := ch.cnonce,
        "response" := Response(hash, A1(username, realm, password), ch, A2(verb, uri))]
  }

  // ----- The server's side in the client's terms -----

  predicate Complete(c: Check) {
    {"username", "nonce", "uri", "nc", "cnonce", "qop", "response"} <= c.params.Keys && c.params["username"] in c.users
  }

  function SecretOf(c: Check): string
    requires Complete(c)
  {
    A1(c.params["username"], c.realm, c.users[c.params["username"]])
  }

  function TargetOf(c: Check): string
    requires Complete(c)
  {
    A2(c.verb, c.params["uri"])
  }

  function ChallengeOf(c: Check): Challenge
    requires Complete(c)
  {
    Challenge(c.params["nonce"], c.params["nc"], c.params["cnonce"], c.params["qop"])
  }

  lemma ExpectedIsResponse(hash: Hash, c: Check)
    requires Complete(c)
    ensures Expected(hash, c) == Response(hash, SecretOf(c), ChallengeOf(c), TargetOf(c))
  {
    var ha1, ha2, ch := hash(SecretOf(c)), hash(TargetOf(c)), ChallengeOf(c);
    assert ha1 + ":" + ch.nonce + ":" + ch.nc + ":" + ch.cnonce + ":" + ch.qop + ":" + ha2 ==
           ha1 + ":" + (ch.nonce + ":" + ch.nc + ":" + ch.cnonce + ":" + ch.qop + ":" + ha2);
  }

  predicate EightHexDigits(s: string) {
    |s| == 8 && forall k :: 0 <= k < 8 ==> '0' <= s[k] <= '9' || 'a' <= s[k] <= 'f' || 'A' <= s[k] <= 'F'
  }

  lemma CountIff(nc: string)
    ensures ValidCount(nc) <==> EightHexDigits(nc)
  {
    forall k | 0 <= k < |nc|
      ensures DigitValue(nc[k] as int).Some? <==> '0' <= nc[k] <= '9' || 'a' <= nc[k] <= 'f' || 'A' <= nc[k] <= 'F'
    {
    }
  }

  lemma LowerLiterals()
    ensures Lower("SHA-256") == "sha-256" && Lower("auth") == "auth"
  {
  }

  /** A request is verified exactly when it answers a live challenge of this realm for this resource as a client would. */
  lemma VerifiedIff(hash: Hash, c: Check, now: nat)
    ensures Verified(hash, c, now) <==>
            && Complete(c)
            && ("realm" in c.params ==> c.params["realm"] == c.realm)
            && ("algorithm" in c.params ==> Lower(c.params["algorithm"]) == "sha-256")
            && c.params["uri"] == c.actualUri
            && NonceIsValid(hash, c.secret, c.realm, c.params["nonce"], now)
            && Lower(c.params["qop"]) == "auth"
            && EightHexDigits(c.params["nc"])
            && c.params["cnonce"] != []
            && c.params["response"] == Response(hash, SecretOf(c), ChallengeOf(c), TargetOf(c))
  {
    LowerLiterals();
    if Complete(c) {
      CountIff(c.params["nc"]);
      ExpectedIsResponse(hash, c);
    }
  }

  /** What is read of a header. */
  predicate Carries(p: map<string, string>, username: string, realm: string, uri: string, ch: Challenge, response: string) {
    && {"username", "realm", "nonce", "uri", "algorithm", "qop", "nc", "cnonce", "response"} <= p.Keys
    && p["username"] == username && p["realm"] == realm && p["uri"] == uri && p["algorithm"] == "SHA-256"
    && Challenge(p["nonce"], p["nc"], p["cnonce"], p["qop"]) == ch && p["response"] == response
  }

  lemma HeaderCarries(hash: Hash, username: string, realm: string, password: string, verb: string, uri: string, ch: Challenge)
    ensures Carries(Header(hash, username, realm, password, verb, uri, ch), username, realm, uri, ch,
                    Response(hash, A1(username, realm, password), ch, A2(verb, uri)))
  {
  }

  lemma CarriedIsVerified(hash: Hash, c: Check, username: string, ch: Challenge, now: nat)
    requires username in c.users && ValidCount(ch.nc) && ch.cnonce != [] && ch.qop == "auth"
    requires NonceIsValid(hash, c.secret, c.realm, ch.nonce, now)
    requires Carries(c.params, username, c.realm, c.actualUri, ch,
                     Response(hash, A1(username, c.realm, c.users[username]), ch, A2(c.verb, c.actualUri)))
    ensures Verified(hash, c, now)
  {
    LowerLiterals();
    CountIff(ch.nc);
    VerifiedIff(hash, c, now);
  }

  /** A client that knows the password and answers an issued nonce in its time is let through, once. */
  lemma ClientIsAuthorized(hash: Hash, replays: Replays, c: Check, username: string, nc: string, cnonce: string,
                           at: nat, now: nat)
    requires username in c.users && ValidCount(nc) && cnonce != []
    requires at < 0x1_0000_0000_0000_0000 && Signature(hash, c.secret, c.realm, Characters(ToHex(at))) != []
    requires at <= now + NONCE_CLOCK_SKEW_MS && now <= at + NONCE_TTL_MS
    requires c.params == Header(hash, username, c.realm, c.users[username], c.verb, c.actualUri,
                                Challenge(Nonce(hash, c.secret, c.realm, at), nc, cnonce, "auth"))
    ensures Verified(hash, c, now)
    ensures Authorize(hash, replays, c, now).1 <==> KeyOf(c) !in Prune(replays, now)
  {
    var ch := Challenge(Nonce(hash, c.secret, c.realm, at), nc, cnonce, "auth");
    IssuedNonceValidIff(hash, c.secret, c.realm, at, now);
    HeaderCarries(hash, username, c.realm, c.users[username], c.verb, c.actualUri, ch);
    CarriedIsVerified(hash, c, username, ch, now);
  }

  // ----- Nonces -----

  /** A time stamp as text: a hexadecimal number of at most 64 bits, a plus sign allowed. */
  predicate Stamp(stamp: string, at: nat) {
    '.' !in stamp && ParseHex(Codes(stamp)) == Some(at) && at <= 0xffff_ffff_ffff_ffff
  }

  /** A nonce is valid exactly when it is a signed stamp of this secret and realm, in its time. */
  lemma NonceValidIff(hash: Hash, secret: string, realm: string, nonce: string, now: nat)
    ensures NonceIsValid(hash, secret, realm, nonce, now) <==>
            exists stamp, at: nat ::
              && Stamp(stamp, at) && at <= now + 30_000 && now <= at + 300_000
              && var signature := hash(secret + ":" + realm + ":" + stamp);
                 signature != [] && nonce == stamp + "." + signature
  {
    if NonceIsValid(hash, secret, realm, nonce, now) {
      var parts := SplitOnce(nonce, '.').value;
      assert Stamp(parts.0, StampOf(nonce).value);
    }
    forall stamp, at | Stamp(stamp, at) && nonce == stamp + "." + hash(secret + ":" + realm + ":" + stamp)
      ensures SplitOnce(nonce, '.') == Some((stamp, hash(secret + ":" + realm + ":" + stamp)))
    {
      SplitOnceUnique(stamp, '.', hash(secret + ":" + realm + ":" + stamp));
    }
  }

  /** Without a collision a nonce is good for one realm only. */
  lemma NonceBinds(hash: Hash, secret: string, realm: string, other: string, nonce: string, s: nat, t: nat)
    requires NonceIsValid(hash, secret, realm, nonce, s) && NonceIsValid(hash, secret, other, nonce, t)
    requires var stamp := SplitOnce(nonce, '.').value.0;
             Apart(hash, secret + ":" + realm + ":" + stamp, secret + ":" + other + ":" + stamp)
    ensures realm == other
  {
    var stamp := SplitOnce(nonce, '.').value.0;
    SignedRealm(secret, realm, other, stamp);
  }

  lemma SignedRealm(secret: string, realm: string, other: string, stamp: string)
    requires secret + ":" + realm + ":" + stamp == secret + ":" + other + ":" + stamp
    ensures realm == other
  {
    SuffixSame(secret + ":" + realm + ":", stamp, secret + ":" + other + ":", stamp);
    SuffixSame(secret + ":" + realm, ":", secret + ":" + other, ":");
    assert realm == (secret + ":" + realm)[|secret| + 1..] && other == (secret + ":" + other)[|secret| + 1..];
  }

  // ----- What a verified response binds -----

  /** The hash does not map these two texts to one digest. */
  predicate Apart(hash: Hash, x: string, y: string) {
    hash(x) == hash(y) ==> x == y
  }

  /** Digests are 64 characters without a colon, as SHA-256 in hexadecimal is. */
  ghost predicate Hexadecimal(hash: Hash) {
    forall s :: |hash(s)| == 64 && ':' !in hash(s)
  }

  function Transcript(hash: Hash, c: Check): string
    requires Complete(c)
  {
    hash(SecretOf(c)) + ":" + Data(ChallengeOf(c), hash(TargetOf(c)))
  }

  lemma {:induction false} DigitsAreDigits(codes: seq<int>)
    requires HexDigits(codes).Some?
    ensures forall k :: 0 <= k < |codes| ==> DigitValue(codes[k]).Some?
  {
    if codes != [] {
      DigitsAreDigits(codes[..|codes| - 1]);
    }
  }

  lemma StampHasNoColon(stamp: string)
    requires ParseHex(Codes(stamp)).Some?
    ensures ':' !in stamp
  {
    var codes := Codes(stamp);
    var signed := codes[0] == 0x2b;
    DigitsAreDigits(if signed then codes[1..] else codes);
    forall k | 0 <= k < |stamp|
      ensures stamp[k] != ':'
    {
      assert codes[k] == stamp[k] as int;
      if signed && k > 0 {
        assert codes[1..][k - 1] == codes[k];
      }
    }
  }

  lemma NonceHasNoColon(hash: Hash, secret: string, realm: string, nonce: string, now: nat)
    requires Hexadecimal(hash) && NonceIsValid(hash, secret, realm, nonce, now)
    ensures ':' !in nonce
  {
    var parts := SplitOnce(nonce, '.').value;
    StampHasNoColon(parts.0);
    assert nonce == parts.0 + ['.'] + parts.1;
  }

  lemma CountHasNoColon(nc: string)
    requires ValidCount(nc)
    ensures ':' !in nc
  {
  }

  lemma SuffixSame(a: string, x: string, b: string, y: string)
    requires a + x == b + y && |x| == |y|
    ensures a == b && x == y
  {
    assert a == (a + x)[..|a|] && b == (b + y)[..|b|];
    assert x == (a + x)[|a|..] && y == (b + y)[|b|..];
  }

  lemma PrefixSame(a: string, x: string, b: string, y: string)
    requires a + x == b + y && |a| == |b|
    ensures a == b && x == y
  {
    SuffixSame(a, x, b, y);
  }

  lemma DataNested(c: Challenge, x: string)
    ensures Data(c, x) == c.nonce + ":" + (c.nc + ":" + (c.cnonce + ":" + c.qop + ":" + x))
  {
  }

  /** What the data of a response is made of can be read off it. */
  lemma DataSplits(c: Challenge, x: string, d: Challenge, y: string)
    requires Data(c, x) == Data(d, y) && |x| == |y| && |c.qop| == |d.qop|
    requires ':' !in c.nonce && ':' !in d.nonce && ':' !in c.nc && ':' !in d.nc
    ensures c == d && x == y
  {
    var afterC, afterD := c.cnonce + ":" + c.qop + ":" + x, d.cnonce + ":" + d.qop + ":" + y;
    DataNested(c, x);
    DataNested(d, y);
    ColonSplitUnique(c.nonce, c.nc + ":" + afterC, d.nonce, d.nc + ":" + afterD);
    ColonSplitUnique(c.nc, afterC, d.nc, afterD);
    SuffixSame(c.cnonce + ":" + c.qop + ":", x, d.cnonce + ":" + d.qop + ":", y);
    AnswerSplits(c.cnonce, c.qop, d.cnonce, d.qop);
  }

  lemma AnswerSplits(a: string, x: string, b: string, y: string)
    requires a + ":" + x + ":" == b + ":" + y + ":" && |x| == |y|
    ensures a == b && x == y
  {
    SuffixSame(a + ":" + x, ":", b + ":" + y, ":");
    SuffixSame(a + ":", x, b + ":", y);
    SuffixSame(a, ":", b, ":");
  }

  /**
   * Two verified requests with one response, and no collision of the hash among their own texts, agree on the
   * user's secret, the whole challenge and the target: a response is good for nothing else.
   */
  lemma ResponseBinds(hash: Hash, a: Check, s: nat, b: Check, t: nat)
    requires Hexadecimal(hash) && Verified(hash, a, s) && Verified(hash, b, t)
    requires a.params["response"] == b.params["response"]
    requires Apart(hash, Transcript(hash, a), Transcript(hash, b))
    requires Apart(hash, SecretOf(a), SecretOf(b)) && Apart(hash, TargetOf(a), TargetOf(b))
    ensures SecretOf(a) == SecretOf(b) && ChallengeOf(a) == ChallengeOf(b) && TargetOf(a) == TargetOf(b)
  {
    VerifiedIff(hash, a, s);
    VerifiedIff(hash, b, t);
    NonceHasNoColon(hash, a.secret, a.realm, a.params["nonce"], s);
    NonceHasNoColon(hash, b.secret, b.realm, b.params["nonce"], t);
    CountIff(a.params["nc"]);
    CountHasNoColon(a.params["nc"]);
    CountIff(b.params["nc"]);
    CountHasNoColon(b.params["nc"]);
    TranscriptSplits(hash(SecretOf(a)), ChallengeOf(a), hash(TargetOf(a)),
                     hash(SecretOf(b)), ChallengeOf(b), hash(TargetOf(b)));
  }

  lemma TranscriptSplits(h: string, c: Challenge, x: string, k: string, d: Challenge, y: string)
    requires h + ":" + Data(c, x) == k + ":" + Data(d, y) && |h| == |k| && |x| == |y|
    requires |Lower(c.qop)| == |Lower(d.qop)|
    requires ':' !in c.nonce && ':' !in d.nonce && ':' !in c.nc && ':' !in d.nc
    ensures h == k && c == d && x == y
  {
    PrefixSame(h + ":", Data(c, x), k + ":", Data(d, y));
    PrefixSame(h, ":", k, ":");
    DataSplits(c, x, d, y);
  }

  lemma SameSecret(hash: Hash, x: string, y: string, data: string)
    requires KeyedDigest(hash, hash(x), data) == KeyedDigest(hash, hash(y), data)
    requires Apart(hash, hash(x) + ":" + data, hash(y) + ":" + data) && Apart(hash, x, y)
    ensures x == y
  {
    SuffixSame(hash(x) + ":", data, hash(y) + ":", data);
    SuffixSame(hash(x), ":", hash(y), ":");
  }

  lemma SameTarget(hash: Hash, secret: string, ch: Challenge, x: string, y: string)
    requires KeyedDigest(hash, secret, Data(ch, hash(x))) == KeyedDigest(hash, secret, Data(ch, hash(y)))
    requires Apart(hash, secret + ":" + Data(ch, hash(x)), secret + ":" + Data(ch, hash(y))) && Apart(hash, x, y)
    ensures x == y
  {
    PrefixSame(secret + ":", Data(ch, hash(x)), secret + ":", Data(ch, hash(y)));
    var head := ch.nonce + ":" + ch.nc + ":" + ch.cnonce + ":" + ch.qop + ":";
    PrefixSame(head, hash(x), head, hash(y));
  }

  lemma VerifiedResponse(hash: Hash, c: Check, now: nat)
    requires Verified(hash, c, now)
    ensures Complete(c)
    ensures c.params["response"] == KeyedDigest(hash, hash(SecretOf(c)), Data(ChallengeOf(c), hash(TargetOf(c))))
  {
    VerifiedIff(hash, c, now);
  }

  /** Two verified requests that differ at most in the password stored for their user have the same one stored. */
  lemma PasswordMatters(hash: Hash, a: Check, s: nat, b: Check, t: nat)
    requires Verified(hash, a, s) && Verified(hash, b, t)
    requires a.params == b.params && a.verb == b.verb && a.realm == b.realm
    requires Apart(hash, Transcript(hash, a), Transcript(hash, b)) && Apart(hash, SecretOf(a), SecretOf(b))
    ensures a.users[a.params["username"]] == b.users[b.params["username"]]
  {
    VerifiedResponse(hash, a, s);
    VerifiedResponse(hash, b, t);
    SameSecret(hash, SecretOf(a), SecretOf(b), Data(ChallengeOf(a), hash(TargetOf(a))));
    SecretPassword(a.params["username"], a.realm, a.users[a.params["username"]], b.users[b.params["username"]]);
  }

  lemma SecretPassword(username: string, realm: string, p: string, q: string)
    requires A1(username, realm, p) == A1(username, realm, q)
    ensures p == q
  {
    var head := username + ":" + realm + ":";
    PrefixSame(head, p, head, q);
  }

  /** Two verified requests that differ at most in their verb have the same one. */
  lemma VerbMatters(hash: Hash, a: Check, s: nat, b: Check, t: nat)
    requires Verified(hash, a, s) && Verified(hash, b, t)
    requires a.params == b.params && a.users == b.users && a.realm == b.realm
    requires Apart(hash, Transcript(hash, a), Transcript(hash, b)) && Apart(hash, TargetOf(a), TargetOf(b))
    ensures a.verb == b.verb
  {
    VerifiedResponse(hash, a, s);
    VerifiedResponse(hash, b, t);
    SameTarget(hash, hash(SecretOf(a)), ChallengeOf(a), TargetOf(a), TargetOf(b));
    TargetVerb(a.verb, b.verb, a.params["uri"]);
  }

  lemma TargetVerb(v: string, w: string, uri: string)
    requires A2(v, uri) == A2(w, uri)
    ensures v == w
  {
    SuffixSame(v + ":", uri, w + ":", uri);
    SuffixSame(v, ":", w, ":");
  }
}
