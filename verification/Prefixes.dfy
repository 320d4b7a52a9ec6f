// Path prefixes of a route: normalisation, validation and matching (edge/crates/common/src/lib.rs).
module Prefixes {
  import opened Text
  import opened Paths

  /** `trim_end_matches('/')` */
  function TrimSlashes(s: Bytes): (r: Bytes)
    ensures r <= s
    ensures r == [] || r[|r| - 1] != SLASH
    ensures s == [] || s[|s| - 1] != SLASH ==> r == s
  {
    if s != [] && s[|s| - 1] == SLASH then TrimSlashes(s[..|s| - 1]) else s
  }

  function NormalizePathPrefix(raw: Bytes): Bytes {
    if Trim(raw) == [] || raw == [SLASH] then [SLASH]
    else TrimSlashes(if raw[0] == SLASH then raw else [SLASH] + raw)
  }

  function ValidatePathPrefix(prefix: Bytes): Result<()> {
    if prefix == [] || prefix[0] != SLASH then Err(NotAbsolute)
    else
      match Canonicalize(prefix)
      case Err(e) => Err(e)
      case Ok(canonical) => if canonical != NormalizePathPrefix(prefix) then Err(NotCanonical) else Ok(())
  }

  predicate Matches(prefix: Bytes, path: Bytes) {
    prefix == [SLASH] || path == prefix || TrimSlashes(prefix) + [SLASH] <= path
  }

  /** The segments between the slashes of a rooted path, without the empty one a final slash leaves. */
  function Segments(p: Bytes): seq<Bytes>
    requires p != []
  {
    var parts := Split(p[1..], SLASH);
    if parts[|parts| - 1] == [] then parts[..|parts| - 1] else parts
  }

  lemma {:induction false} TrimEndKeepsSlash(s: Bytes)
    requires s != [] && s[0] == SLASH
    ensures TrimEnd(s) != []
    decreases |s|
  {
    var n := SpaceSuffix(s);
    if n != 0 {
      assert s[|s| - n..][0] != SLASH;
      TrimEndKeepsSlash(s[..|s| - n]);
    }
  }

  lemma TrimKeepsSlash(p: Bytes)
    requires p != [] && p[0] == SLASH
    ensures Trim(p) != []
  {
    assert TrimStart(p) == p by { assert SpaceLength(p) == 0; }
    TrimEndKeepsSlash(p);
  }

  lemma NormalizeRooted(p: Bytes)
    requires p != [] && p[0] == SLASH
    ensures NormalizePathPrefix(p) == if p == [SLASH] then p else TrimSlashes(p)
  {
    TrimKeepsSlash(p);
  }

  /** A leading slash may be left out. */
  lemma NormalizeAddsSlash(raw: Bytes)
    requires Trim(raw) != [] && raw != [] && raw[0] != SLASH
    ensures NormalizePathPrefix(raw) == NormalizePathPrefix([SLASH] + raw)
  {
    var rooted := [SLASH] + raw;
    NormalizeRooted(rooted);
    assert |rooted| > 1;
    NormalizeUnrooted(raw, rooted);
  }

  lemma NormalizeUnrooted(raw: Bytes, rooted: Bytes)
    requires Trim(raw) != [] && raw != [] && raw[0] != SLASH && rooted == [SLASH] + raw
    ensures NormalizePathPrefix(raw) == TrimSlashes(rooted)
  {
  }

  lemma TrimOneSlash(s: Bytes)
    ensures TrimSlashes(s + [SLASH]) == TrimSlashes(s)
  {
    assert (s + [SLASH])[..|s|] == s;
  }

  /** A final slash may be added. */
  lemma NormalizeDropsSlash(p: Bytes)
    requires p != [] && p[0] == SLASH && p != [SLASH]
    ensures NormalizePathPrefix(p + [SLASH]) == NormalizePathPrefix(p)
  {
    NormalizeRooted(p);
    NormalizeRooted(p + [SLASH]);
    TrimOneSlash(p);
  }

  /** A rooted prefix without a final slash is kept as it is, and a blank one becomes the root. */
  lemma NormalizeKeeps(raw: Bytes)
    ensures raw != [] && raw[0] == SLASH && raw[|raw| - 1] != SLASH ==> NormalizePathPrefix(raw) == raw
    ensures Trim(raw) == [] ==> NormalizePathPrefix(raw) == [SLASH]
  {
    if raw != [] && raw[0] == SLASH {
      NormalizeRooted(raw);
    }
  }

  /** Acceptance, said without normalisation: a fixed point that is the root or has no final slash. */
  lemma ValidateIff(p: Bytes)
    requires ValidUtf8(p)
    ensures ValidatePathPrefix(p).Ok? <==>
            Canonicalize(p) == Ok(p) && (p == [SLASH] || p[|p| - 1] != SLASH)
  {
    ValidateMeans(p);
    if p != [] && p[0] == SLASH && Canonicalize(p).Ok? {
      NormalizeRooted(p);
      if p[|p| - 1] == SLASH && p != [SLASH] {
        TrailingSlashKept(p);
      }
    }
  }

  lemma ValidateMeans(p: Bytes)
    ensures ValidatePathPrefix(p).Ok? <==>
            p != [] && p[0] == SLASH && Canonicalize(p) == Ok(NormalizePathPrefix(p))
    ensures Canonicalize(p) == Ok(p) ==> p != [] && p[0] == SLASH
  {
  }

  lemma TrailingSlashKept(p: Bytes)
    requires ValidUtf8(p) && p != [] && p[0] == SLASH && p[|p| - 1] == SLASH
    requires Canonicalize(p).Ok?
    ensures var c := Canonicalize(p).value; c != [] && c[|c| - 1] == SLASH
  {
    DecodeRoundsShape(p, 4);
  }

  /** A non-root prefix in the form acceptance guarantees. */
  predicate ProperPrefix(p: Bytes) {
    && p != [] && p[0] == SLASH && p[|p| - 1] != SLASH
    && Segments(p) == Split(p[1..], SLASH)
    && forall k :: 0 <= k < |Segments(p)| ==> Proper(Segments(p)[k])
  }

  lemma AcceptedIsProper(p: Bytes)
    requires ValidUtf8(p) && ValidatePathPrefix(p).Ok?
    ensures CanonicalShape(p) && (p == [SLASH] || ProperPrefix(p))
  {
    ValidateIff(p);
    FixedPointIff(p);
    if p != [SLASH] {
      ShapeWithoutSlash(p);
    }
  }

  lemma ShapeWithoutSlash(p: Bytes)
    requires CanonicalShape(p) && p[|p| - 1] != SLASH
    ensures ProperPrefix(p)
  {
    assert p[1..] != [] && p[1..][|p| - 2] != SLASH;
    LastPart(p[1..]);
  }

  lemma {:induction false} LastPart(s: Bytes)
    requires s != [] && s[|s| - 1] != SLASH
    ensures var parts := Split(s, SLASH); parts[|parts| - 1] != []
  {
    if |s| > 1 {
      LastPart(s[1..]);
    }
  }

  /** A string extends `a` past a slash exactly when its parts extend those of `a`. */
  lemma PrefixIffParts(a: Bytes, s: Bytes)
    ensures a + [SLASH] <= s <==> Split(a, SLASH) < Split(s, SLASH)
  {
    var pa, ps := Split(a, SLASH), Split(s, SLASH);
    if a + [SLASH] <= s {
      assert s == a + [SLASH] + s[|a| + 1..];
      SplitAppend(a, SLASH, s[|a| + 1..]);
    }
    if pa < ps {
      var rest := ps[|pa|..];
      assert ps == pa + rest;
      JoinAppend(pa, rest, SLASH);
      JoinSplit(a, SLASH);
      JoinSplit(s, SLASH);
    }
  }

  lemma EqualIffParts(a: Bytes, s: Bytes)
    ensures a == s <==> Split(a, SLASH) == Split(s, SLASH)
  {
    JoinSplit(a, SLASH);
    JoinSplit(s, SLASH);
  }

  /** The string test of `matches` is segment-wise prefixing, never a match inside a segment. */
  lemma MatchesIffSegmentPrefix(prefix: Bytes, path: Bytes)
    requires ValidUtf8(prefix) && ValidatePathPrefix(prefix).Ok?
    requires CanonicalShape(path)
    ensures prefix != []
    ensures Matches(prefix, path) <==> Segments(prefix) <= Segments(path)
  {
    AcceptedIsProper(prefix);
    if prefix == [SLASH] {
      assert Segments(prefix) == [];
    } else {
      ProperMatches(prefix, path);
    }
  }

  lemma ProperMatches(prefix: Bytes, path: Bytes)
    requires ProperPrefix(prefix) && path != [] && path[0] == SLASH
    ensures Matches(prefix, path) <==> Segments(prefix) <= Segments(path)
  {
    var a, s := prefix[1..], path[1..];
    RootedPrefix(prefix, path);
    PrefixIffParts(a, s);
    EqualIffParts(a, s);
    ProperSegments(Split(a, SLASH), Split(s, SLASH));
  }

  lemma RootedPrefix(prefix: Bytes, path: Bytes)
    requires prefix != [] && prefix[0] == SLASH && path != [] && path[0] == SLASH
    ensures prefix + [SLASH] <= path <==> prefix[1..] + [SLASH] <= path[1..]
    ensures prefix == path <==> prefix[1..] == path[1..]
  {
    assert prefix == [SLASH] + prefix[1..] && path == [SLASH] + path[1..];
    if prefix[1..] + [SLASH] <= path[1..] {
      assert prefix + [SLASH] == [SLASH] + (prefix[1..] + [SLASH]);
    }
    if prefix + [SLASH] <= path {
      assert path[1..][..|prefix|] == prefix[1..] + [SLASH];
    }
  }

  /** A list of proper segments cannot reach into the empty part a final slash leaves. */
  lemma ProperSegments(ps: seq<Bytes>, parts: seq<Bytes>)
    requires |ps| >= 1 && |parts| >= 1
    requires forall k :: 0 <= k < |ps| ==> Proper(ps[k])
    ensures var trimmed := if parts[|parts| - 1] == [] then parts[..|parts| - 1] else parts;
            ps <= parts <==> ps <= trimmed
  {
    if ps <= parts && parts[|parts| - 1] == [] {
      assert Proper(ps[|ps| - 1]);
    }
  }

  /** Two accepted prefixes of equal length that match one path are the same prefix. */
  lemma TiedPrefixesEqual(p: Bytes, q: Bytes, path: Bytes)
    requires ValidUtf8(p) && ValidatePathPrefix(p).Ok?
    requires ValidUtf8(q) && ValidatePathPrefix(q).Ok?
    requires path != [] && path[0] == SLASH
    requires Matches(p, path) && Matches(q, path) && |p| == |q|
    ensures p == q
  {
    PrefixOfPath(p, path);
    PrefixOfPath(q, path);
  }

  lemma PrefixOfPath(p: Bytes, path: Bytes)
    requires ValidUtf8(p) && ValidatePathPrefix(p).Ok?
    requires path != [] && path[0] == SLASH && Matches(p, path)
    ensures |p| <= |path| && path[..|p|] == p
  {
    AcceptedIsProper(p);
  }

  /** Among accepted prefixes that match one canonical path, longer in bytes means more segments. */
  lemma LongestIsMostSpecific(p: Bytes, q: Bytes, path: Bytes)
    requires ValidUtf8(p) && ValidatePathPrefix(p).Ok?
    requires ValidUtf8(q) && ValidatePathPrefix(q).Ok?
    requires CanonicalShape(path) && Matches(p, path) && Matches(q, path)
    ensures p != [] && q != []
    ensures |p| <= |q| <==> |Segments(p)| <= |Segments(q)|
  {
    MatchesIffSegmentPrefix(p, path);
    MatchesIffSegmentPrefix(q, path);
    if |Segments(p)| <= |Segments(q)| {
      FewerSegmentsShorter(p, q);
    } else {
      FewerSegmentsShorter(q, p);
      if |p| == |q| {
        TiedPrefixesEqual(p, q, path);
      }
    }
  }

  lemma FewerSegmentsShorter(p: Bytes, q: Bytes)
    requires ValidUtf8(p) && ValidatePathPrefix(p).Ok?
    requires ValidUtf8(q) && ValidatePathPrefix(q).Ok?
    requires p != [] && q != [] && Segments(p) <= Segments(q)
    ensures |p| <= |q|
  {
    AcceptedIsProper(q);
    MatchesIffSegmentPrefix(p, q);
    PrefixOfPath(p, q);
  }

  // ----- Where idempotence fails: more than four layers of encoding -----

  function TwentyFives(n: nat): Bytes {
    if n == 0 then [] else [0x32, 0x35] + TwentyFives(n - 1)
  }

  /** `/A` with its letter percent-encoded n + 1 times over: `/%41`, `/%2541`, `/%252541`, ... */
  function Layered(n: nat): Bytes {
    [SLASH, PERCENT] + TwentyFives(n) + [0x34, 0x31]
  }

  lemma {:induction false} TwentyFivesBytes(n: nat)
    ensures forall k :: 0 <= k < |TwentyFives(n)| ==> TwentyFives(n)[k] == 0x32 || TwentyFives(n)[k] == 0x35
  {
    if n > 0 { TwentyFivesBytes(n - 1); }
  }

  lemma LayeredShape(n: nat)
    ensures ValidUtf8(Layered(n)) && CanonicalShape(Layered(n)) && PERCENT in Layered(n)
  {
    var r := Layered(n);
    TwentyFivesBytes(n);
    AsciiIsUtf8(r);
    SplitNoSeparator(r[1..], SLASH);
    assert r[1] == PERCENT && r[1..][0] == PERCENT;
  }

  lemma PeelLayer(n: nat)
    requires n > 0
    ensures PercentDecode(Layered(n)) == Ok(Layered(n - 1)) && Layered(n) != Layered(n - 1)
  {
    var rest := TwentyFives(n - 1) + [0x34, 0x31];
    assert PERCENT !in rest by { TwentyFivesBytes(n - 1); }
    DecodeEscapedPercent(rest);
    LayeredSplit(n);
    assert ValidUtf8(Layered(n - 1)) by { LayeredShape(n - 1); }
  }

  lemma LayeredSplit(n: nat)
    requires n > 0
    ensures var rest := TwentyFives(n - 1) + [0x34, 0x31];
            && Layered(n) == [SLASH] + ([PERCENT, 0x32, 0x35] + rest)
            && Layered(n - 1) == [SLASH] + ([PERCENT] + rest)
            && Layered(n) != Layered(n - 1)
  {
    assert |Layered(n)| == |Layered(n - 1)| + 2;
  }

  lemma DecodeEscapedPercent(rest: Bytes)
    requires PERCENT !in rest
    ensures DecodeBytes([SLASH] + ([PERCENT, 0x32, 0x35] + rest)) == Some([SLASH] + ([PERCENT] + rest))
  {
    var tail := [PERCENT, 0x32, 0x35] + rest;
    DecodePlain(rest);
    assert tail[3..] == rest;
    assert ([SLASH] + tail)[1..] == tail;
  }

  lemma PeelLayers(n: nat, rounds: nat)
    requires n >= rounds
    ensures DecodeRounds(Layered(n), rounds) == Ok(Layered(n - rounds))
  {
    if rounds > 0 {
      PeelLayer(n);
      PeelLayers(n - 1, rounds - 1);
    }
  }

  /** Four rounds peel four layers and keep the rest, so a second canonicalisation goes on decoding. */
  lemma DeepEncodingSurvives(n: nat)
    requires n >= 4
    ensures ValidUtf8(Layered(n)) && Canonicalize(Layered(n)) == Ok(Layered(n - 4))
    ensures Canonicalize(Layered(n - 4)) != Ok(Layered(n - 4))
  {
    PeelLayers(n, 4);
    LayeredShape(n);
    LayeredShape(n - 4);
    CanonicalizeDecoded(Layered(n), Layered(n - 4));
    FixedPointIff(Layered(n - 4));
  }

  lemma CanonicalizeDecoded(path: Bytes, decoded: Bytes)
    requires path != [] && path[0] == SLASH && DecodeRounds(path, 4) == Ok(decoded)
    requires CanonicalShape(decoded)
    ensures Canonicalize(path) == Ok(decoded)
  {
    assert Replace(decoded, BACKSLASH, SLASH) == decoded;
    RebuildCanonical(decoded);
  }
}
