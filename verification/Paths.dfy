// Request-path canonicalisation and prefix matching (edge/crates/common/src/lib.rs).
module Paths {
  import opened Text

  datatype PathError = NotAbsolute | BadPercent | BadUtf8 | ControlCharacter | NotCanonical
  datatype Result<+T> = Ok(value: T) | Err(error: PathError)

  // ----- Percent decoding -----

  /** The decoder's answer once `done` has already been written to the output buffer. */
  function After(done: Bytes, rest: Option<Bytes>): Option<Bytes> {
    match rest
    case Some(bytes) => Some(done + bytes)
    case None => None
  }

  /** One left-to-right pass: every `%HH` becomes one byte, everything else is copied. */
  function DecodeBytes(s: Bytes): Option<Bytes> {
    if s == [] then Some([])
    else if s[0] == PERCENT then
      if |s| < 3 then None
      else
        match (DigitValue(s[1]), DigitValue(s[2]))
        case (Some(high), Some(low)) =>
          After([16 * high + low], DecodeBytes(s[3..]))
        case _ => None
    else
      After([s[0]], DecodeBytes(s[1..]))
  }

  function PercentDecode(s: Bytes): Result<Bytes> {
    match DecodeBytes(s)
    case None => Err(BadPercent)
    case Some(bytes) => if ValidUtf8(bytes) then Ok(bytes) else Err(BadUtf8)
  }

  lemma AfterByte(done: Bytes, b: Byte, rest: Option<Bytes>)
    ensures After(done, After([b], rest)) == After(done + [b], rest)
  {
    if rest.Some? {
      assert done + ([b] + rest.value) == done + [b] + rest.value;
    }
  }

  method PercentDecodeUtf8(input: Bytes) returns (r: Result<Bytes>)
    ensures r == PercentDecode(input)
  {
    var output: Bytes := [];
    var index := 0;
    assert input[0..] == input;
    assert DecodeBytes(input).Some? ==> [] + DecodeBytes(input).value == DecodeBytes(input).value;
    while index < |input|
      invariant 0 <= index <= |input|
      invariant DecodeBytes(input) == After(output, DecodeBytes(input[index..]))
    {
      ghost var tail := input[index..];
      if input[index] == PERCENT {
        if index + 2 >= |input| {
          return Err(BadPercent);
        }
        var high := DigitValue(input[index + 1]);
        var low := DigitValue(input[index + 2]);
        assert tail[1] == input[index + 1] && tail[2] == input[index + 2];
        if high.None? || low.None? {
          return Err(BadPercent);
        }
        assert tail[3..] == input[index + 3..];
        AfterByte(output, 16 * high.value + low.value, DecodeBytes(input[index + 3..]));
        output := output + [16 * high.value + low.value];
        index := index + 3;
      } else {
        assert tail[1..] == input[index + 1..];
        AfterByte(output, input[index], DecodeBytes(input[index + 1..]));
        output := output + [input[index]];
        index := index + 1;
      }
    }
    assert output + [] == output;
    if ValidUtf8(output) {
      r := Ok(output);
    } else {
      r := Err(BadUtf8);
    }
  }

  /** The upper-case digit of a four-bit value. */
  function HexDigit(v: Byte): Byte
    requires v < 16
  {
    if v < 10 then 0x30 + v else 0x41 + (v - 10)
  }

  /** Section 2.1 of RFC 3986 applied to every byte. */
  function EncodeBytes(s: Bytes): Bytes {
    if s == [] then [] else [PERCENT, HexDigit(s[0] / 16), HexDigit(s[0] % 16)] + EncodeBytes(s[1..])
  }

  lemma {:induction false} DecodeInvertsEncode(s: Bytes)
    ensures DecodeBytes(EncodeBytes(s)) == Some(s)
  {
    if s != [] {
      DecodeInvertsEncode(s[1..]);
      var e := EncodeBytes(s);
      assert e[3..] == EncodeBytes(s[1..]);
      assert s == [s[0]] + s[1..];
    }
  }

  lemma {:induction false} DecodeShortens(s: Bytes)
    requires DecodeBytes(s).Some?
    ensures |DecodeBytes(s).value| <= |s|
    ensures PERCENT in s ==> |DecodeBytes(s).value| < |s|
    ensures PERCENT !in s ==> DecodeBytes(s).value == s
  {
    if s != [] {
      if s[0] == PERCENT {
        DecodeShortens(s[3..]);
      } else {
        DecodeShortens(s[1..]);
        assert s == [s[0]] + s[1..];
      }
    }
  }

  lemma {:induction false} DecodePlain(s: Bytes)
    requires PERCENT !in s
    ensures DecodeBytes(s) == Some(s)
  {
    if s != [] {
      DecodePlain(s[1..]);
      assert s == [s[0]] + s[1..];
    }
  }

  /** Leading and trailing slashes of the encoded text are literal, so they survive decoding. */
  lemma {:induction false} DecodeEnds(s: Bytes)
    requires s != [] && DecodeBytes(s).Some?
    ensures DecodeBytes(s).value != []
    ensures s[0] == SLASH ==> DecodeBytes(s).value[0] == SLASH
    ensures s[|s| - 1] == SLASH ==>
              DecodeBytes(s).value[|DecodeBytes(s).value| - 1] == SLASH
  {
    var rest := if s[0] == PERCENT then s[3..] else s[1..];
    if rest != [] {
      DecodeEnds(rest);
    }
  }

  function DecodeRounds(s: Bytes, rounds: nat): Result<Bytes>
    decreases rounds, s
  {
    if rounds == 0 then Ok(s)
    else
      match PercentDecode(s)
      case Err(e) => Err(e)
      case Ok(next) => if next == s then Ok(next) else DecodeRounds(next, rounds - 1)
  }

  lemma {:induction false} DecodeRoundsShape(s: Bytes, rounds: nat)
    requires s != [] && ValidUtf8(s) && DecodeRounds(s, rounds).Ok?
    ensures var d := DecodeRounds(s, rounds).value;
            && d != [] && ValidUtf8(d) && |d| <= |s|
            && (s[0] == SLASH ==> d[0] == SLASH)
            && (s[|s| - 1] == SLASH ==> d[|d| - 1] == SLASH)
            && (PERCENT in s && rounds > 0 ==> |d| < |s|)
            && (PERCENT !in s ==> d == s)
    decreases rounds
  {
    if rounds > 0 {
      DecodeShortens(s);
      DecodeEnds(s);
      var next := PercentDecode(s).value;
      if next != s {
        DecodeRoundsShape(next, rounds - 1);
      }
    }
  }

  lemma DecodeRoundsPlain(s: Bytes, rounds: nat)
    requires ValidUtf8(s) && PERCENT !in s
    ensures DecodeRounds(s, rounds) == Ok(s)
  {
    DecodePlain(s);
  }

  // ----- Dot segments -----

  predicate Skipped(part: Bytes) {
    part == [] || part == [DOT]
  }

  predicate Proper(part: Bytes) {
    !Skipped(part) && part != [DOT, DOT]
  }

  /** One step of the segment stack. */
  function PushSegment(stack: seq<Bytes>, part: Bytes): seq<Bytes> {
    if Skipped(part) then stack
    else if part == [DOT, DOT] then (if stack == [] then [] else stack[..|stack| - 1])
    else stack + [part]
  }

  function Resolve(parts: seq<Bytes>): seq<Bytes> {
    if parts == [] then []
    else PushSegment(Resolve(parts[..|parts| - 1]), parts[|parts| - 1])
  }

  /** The same meaning without a stack: scan from the right, `up` counting the `..` still unpaid. */
  function Survivors(parts: seq<Bytes>, up: nat): seq<Bytes> {
    if parts == [] then []
    else
      var init, last := parts[..|parts| - 1], parts[|parts| - 1];
      if Skipped(last) then Survivors(init, up)
      else if last == [DOT, DOT] then Survivors(init, up + 1)
      else if up > 0 then Survivors(init, up - 1)
      else Survivors(init, 0) + [last]
  }

  function DropLast<T>(s: seq<T>, n: nat): seq<T> {
    if n >= |s| then [] else s[..|s| - n]
  }

  lemma {:induction false} StackIsRightToLeftScan(parts: seq<Bytes>, up: nat)
    ensures Survivors(parts, up) == DropLast(Resolve(parts), up)
    ensures up == 0 ==> Survivors(parts, up) == Resolve(parts)
    decreases |parts|
  {
    if parts != [] {
      var init, last := parts[..|parts| - 1], parts[|parts| - 1];
      if Skipped(last) {
        StackIsRightToLeftScan(init, up);
      } else if last == [DOT, DOT] {
        StackIsRightToLeftScan(init, up + 1);
      } else if up > 0 {
        StackIsRightToLeftScan(init, up - 1);
      } else {
        StackIsRightToLeftScan(init, 0);
      }
    }
  }

  // ----- Canonicalisation -----

  predicate Control(b: Byte) {
    b < 0x20 || b == 0x7f
  }

  predicate HasControl(s: Bytes) {
    exists b :: b in s && Control(b)
  }

  function Render(segments: seq<Bytes>, trailing: bool): Bytes {
    if segments == [] then [SLASH]
    else [SLASH] + Join(segments, SLASH) + (if trailing then [SLASH] else [])
  }

  function Rebuild(decoded: Bytes): Bytes {
    Render(Resolve(Split(decoded, SLASH)), decoded != [] && decoded[|decoded| - 1] == SLASH)
  }

  function Canonicalize(path: Bytes): Result<Bytes> {
    if path == [] then Ok([SLASH])
    else if path[0] != SLASH then Err(NotAbsolute)
    else
      match DecodeRounds(path, 4)
      case Err(e) => Err(e)
      case Ok(decoded) =>
        if HasControl(decoded) then Err(ControlCharacter)
        else Ok(Rebuild(Replace(decoded, BACKSLASH, SLASH)))
  }

  method CanonicalizePath(path: Bytes) returns (r: Result<Bytes>)
    ensures r == Canonicalize(path)
  {
    if path == [] {
      return Ok([SLASH]);
    }
    if path[0] != SLASH {
      return Err(NotAbsolute);
    }
    var decoded := path;
    var round := 0;
    while round < 4
      invariant 0 <= round <= 4
      invariant DecodeRounds(path, 4) == DecodeRounds(decoded, 4 - round)
    {
      var next := PercentDecodeUtf8(decoded);
      if next.Err? {
        return next;
      }
      if next.value == decoded {
        break;
      }
      decoded := next.value;
      round := round + 1;
    }
    assert DecodeRounds(path, 4) == Ok(decoded);
    if exists b :: b in decoded && Control(b) {
      return Err(ControlCharacter);
    }
    decoded := Replace(decoded, BACKSLASH, SLASH);
    var trailing := decoded != [] && decoded[|decoded| - 1] == SLASH;
    var parts := Split(decoded, SLASH);
    var segments: seq<Bytes> := [];
    for i := 0 to |parts|
      invariant segments == Resolve(parts[..i])
    {
      assert parts[..i + 1][..i] == parts[..i];
      if parts[i] == [] || parts[i] == [DOT] {
      } else if parts[i] == [DOT, DOT] {
        segments := if segments == [] then [] else segments[..|segments| - 1];
      } else {
        segments := segments + [parts[i]];
      }
    }
    assert parts[..|parts|] == parts;
    r := Ok(Render(segments, trailing));
  }

  /** What a canonical path looks like: rooted, clean bytes, and no `.`, `..` or interior empty segment. */
  predicate CanonicalShape(p: Bytes) {
    && p != [] && p[0] == SLASH
    && !HasControl(p) && BACKSLASH !in p
    && var parts := Split(p[1..], SLASH);
       && (forall k :: 0 <= k < |parts| - 1 ==> Proper(parts[k]))
       && (parts[|parts| - 1] == [] || Proper(parts[|parts| - 1]))
  }

  predicate CleanBytes(s: Bytes) {
    !HasControl(s) && BACKSLASH !in s
  }

  lemma {:induction false} JoinBytes(parts: seq<Bytes>, b: Byte)
    requires b in Join(parts, SLASH)
    ensures b == SLASH || exists k :: 0 <= k < |parts| && b in parts[k]
  {
    if |parts| > 1 && b !in parts[0] && b != SLASH {
      JoinBytes(parts[1..], b);
      var k :| 0 <= k < |parts[1..]| && b in parts[1..][k];
      assert b in parts[k + 1];
    }
  }

  lemma {:induction false} SplitBytes(s: Bytes, k: nat)
    requires k < |Split(s, SLASH)|
    ensures forall b :: b in Split(s, SLASH)[k] ==> b in s
  {
    if s != [] {
      var rest := Split(s[1..], SLASH);
      if s[0] == SLASH {
        if k > 0 { SplitBytes(s[1..], k - 1); }
      } else {
        SplitBytes(s[1..], k);
      }
    }
  }

  /** The stack only ever holds proper parts of the input. */
  lemma {:induction false} ResolveMembers(parts: seq<Bytes>)
    ensures forall x :: x in Resolve(parts) ==> x in parts && Proper(x)
  {
    if parts != [] {
      ResolveMembers(parts[..|parts| - 1]);
    }
  }

  lemma {:induction false} ResolveProper(parts: seq<Bytes>)
    requires forall k :: 0 <= k < |parts| ==> Proper(parts[k])
    ensures Resolve(parts) == parts
  {
    if parts != [] {
      ResolveProper(parts[..|parts| - 1]);
    }
  }

  /** The parts a rendered path splits back into. */
  lemma RenderParts(segments: seq<Bytes>, trailing: bool)
    requires forall k :: 0 <= k < |segments| ==> SLASH !in segments[k]
    ensures Split(Render(segments, trailing)[1..], SLASH) ==
            if segments == [] then [[]] else segments + (if trailing then [[]] else [])
  {
    if segments != [] {
      var body := Join(segments, SLASH);
      SplitJoin(segments, SLASH);
      if trailing {
        assert Render(segments, trailing)[1..] == body + [SLASH] + [];
        SplitAppend(body, SLASH, []);
      } else {
        assert Render(segments, trailing)[1..] == body;
      }
    } else {
      assert [SLASH][1..] == [];
    }
  }

  lemma RenderClean(segments: seq<Bytes>, trailing: bool)
    requires forall k :: 0 <= k < |segments| ==> CleanBytes(segments[k])
    ensures CleanBytes(Render(segments, trailing))
  {
    var r := Render(segments, trailing);
    forall b | b in r
      ensures !Control(b) && b != BACKSLASH
    {
      if b != SLASH {
        assert b in Join(segments, SLASH);
        JoinBytes(segments, b);
      }
    }
  }

  lemma RebuildShape(d: Bytes)
    requires d != [] && d[0] == SLASH && CleanBytes(d) && ValidUtf8(d)
    ensures CanonicalShape(Rebuild(d)) && ValidUtf8(Rebuild(d))
  {
    var parts := Split(d, SLASH);
    var segments := Resolve(parts);
    var trailing := d[|d| - 1] == SLASH;
    ResolveMembers(parts);
    Utf8Split(d, SLASH);
    forall k | 0 <= k < |segments|
      ensures SLASH !in segments[k] && CleanBytes(segments[k]) && ValidUtf8(segments[k]) && Proper(segments[k])
    {
      assert segments[k] in segments;
      var j :| 0 <= j < |parts| && parts[j] == segments[k];
      SplitBytes(d, j);
    }
    RenderParts(segments, trailing);
    RenderClean(segments, trailing);
    RenderUtf8(segments, trailing);
  }

  lemma RenderUtf8(segments: seq<Bytes>, trailing: bool)
    requires forall k :: 0 <= k < |segments| ==> ValidUtf8(segments[k])
    ensures ValidUtf8(Render(segments, trailing))
  {
    Utf8Join(segments, SLASH);
    assert ValidUtf8([SLASH]);
    Utf8Concat([SLASH], Join(segments, SLASH));
    Utf8Concat([SLASH] + Join(segments, SLASH), [SLASH]);
    assert [SLASH] + Join(segments, SLASH) + [] == [SLASH] + Join(segments, SLASH);
  }

  // ----- Sizes: canonicalising never lengthens -----

  function Weight(parts: seq<Bytes>): nat {
    if parts == [] then 0 else Weight(parts[..|parts| - 1]) + |parts[|parts| - 1]| + 1
  }

  function Empties(parts: seq<Bytes>): nat {
    if parts == [] then 0
    else Empties(parts[..|parts| - 1]) + if parts[|parts| - 1] == [] then 1 else 0
  }

  lemma {:induction false} ResolveWeight(parts: seq<Bytes>)
    ensures Weight(Resolve(parts)) + Empties(parts) <= Weight(parts)
  {
    if parts != [] {
      var init, last := parts[..|parts| - 1], parts[|parts| - 1];
      ResolveWeight(init);
      if Proper(last) {
        assert (Resolve(init) + [last])[..|Resolve(init)|] == Resolve(init);
      }
    }
  }

  lemma {:induction false} WeightCons(x: Bytes, parts: seq<Bytes>)
    ensures Weight([x] + parts) == |x| + 1 + Weight(parts)
    ensures Empties([x] + parts) == Empties(parts) + if x == [] then 1 else 0
  {
    if parts == [] {
      assert [x] + parts == [x] && [x][..0] == [];
    } else {
      var init := parts[..|parts| - 1];
      assert ([x] + parts)[..|parts|] == [x] + init;
      WeightCons(x, init);
    }
  }

  lemma {:induction false} JoinLength(parts: seq<Bytes>)
    requires parts != []
    ensures |Join(parts, SLASH)| + 1 == Weight(parts)
  {
    assert parts == [parts[0]] + parts[1..];
    WeightCons(parts[0], parts[1..]);
    if |parts| > 1 {
      JoinLength(parts[1..]);
    }
  }

  lemma RebuildLength(d: Bytes)
    requires d != [] && d[0] == SLASH
    ensures |Rebuild(d)| <= |d|
  {
    var parts := Split(d, SLASH);
    var segments := Resolve(parts);
    JoinSplit(d, SLASH);
    JoinLength(parts);
    ResolveWeight(parts);
    assert parts == [[]] + parts[1..];
    WeightCons([], parts[1..]);
    if segments != [] {
      JoinLength(segments);
      if d[|d| - 1] == SLASH {
        assert d == d[..|d| - 1] + [SLASH] + [];
        SplitAppend(d[..|d| - 1], SLASH, []);
        assert parts == Split(d[..|d| - 1], SLASH) + [[]];
        assert |d| > 1 ==> parts[1..] != [] && parts[1..][|parts[1..]| - 1] == [];
      }
    }
  }

  // ----- Main results about canonicalisation -----

  /** Every successful canonicalisation has the canonical shape, and is UTF-8 again. */
  lemma CanonicalizeShape(path: Bytes)
    requires ValidUtf8(path) && Canonicalize(path).Ok?
    ensures CanonicalShape(Canonicalize(path).value) && ValidUtf8(Canonicalize(path).value)
    ensures path != [] ==> |Canonicalize(path).value| <= |path|
  {
    if path == [] {
      RenderParts([], false);
    } else {
      DecodeRoundsShape(path, 4);
      var decoded := DecodeRounds(path, 4).value;
      var clean := Replace(decoded, BACKSLASH, SLASH);
      Utf8Replace(decoded, BACKSLASH, SLASH);
      RebuildShape(clean);
      RebuildLength(clean);
    }
  }

  lemma RebuildCanonical(p: Bytes)
    requires CanonicalShape(p)
    ensures Rebuild(p) == p
  {
    var parts := Split(p[1..], SLASH);
    RootedSplit(p);
    JoinSplit(p[1..], SLASH);
    var init, last := parts[..|parts| - 1], parts[|parts| - 1];
    if last == [] {
      assert parts == init + [[]];
      ResolveProper(init);
      assert Resolve(parts) == init;
      RebuildWithSlash(p, init);
    } else {
      ResolveProper(parts);
      RebuildWithoutSlash(p, parts);
    }
  }

  lemma RootedSplit(p: Bytes)
    requires p != [] && p[0] == SLASH
    ensures Split(p, SLASH) == [[]] + Split(p[1..], SLASH)
    ensures Resolve(Split(p, SLASH)) == Resolve(Split(p[1..], SLASH))
  {
    ResolveLeadingEmpty(Split(p[1..], SLASH));
  }

  lemma RebuildWithoutSlash(p: Bytes, parts: seq<Bytes>)
    requires p != [] && p[0] == SLASH && p[1..] == Join(parts, SLASH)
    requires Resolve(Split(p, SLASH)) == parts
    requires parts != [] && parts[|parts| - 1] != [] && SLASH !in parts[|parts| - 1]
    ensures Rebuild(p) == p
  {
    NoTrailingSlash(parts);
    assert p == [SLASH] + p[1..] + [];
  }

  lemma RebuildWithSlash(p: Bytes, init: seq<Bytes>)
    requires p != [] && p[0] == SLASH && p[1..] == Join(init + [[]], SLASH)
    requires Resolve(Split(p, SLASH)) == init
    ensures Rebuild(p) == p
  {
    if init == [] {
      assert p == [SLASH] + p[1..];
    } else {
      JoinAppend(init, [[]], SLASH);
      assert p == [SLASH] + p[1..];
    }
  }

  lemma {:induction false} ResolveLeadingEmpty(parts: seq<Bytes>)
    ensures Resolve([[]] + parts) == Resolve(parts)
  {
    if parts != [] {
      var init := parts[..|parts| - 1];
      assert ([[]] + parts)[..|parts|] == [[]] + init;
      ResolveLeadingEmpty(init);
    } else {
      assert ([[]] + parts)[..0] == [];
    }
  }

  lemma {:induction false} NoTrailingSlash(parts: seq<Bytes>)
    requires parts != [] && parts[|parts| - 1] != [] && SLASH !in parts[|parts| - 1]
    ensures var j := Join(parts, SLASH); j != [] && j[|j| - 1] != SLASH
  {
    if |parts| > 1 {
      NoTrailingSlash(parts[1..]);
    }
  }

  /** The fixed points of canonicalisation are exactly the percent-free canonical shapes. */
  lemma FixedPointIff(p: Bytes)
    requires ValidUtf8(p)
    ensures Canonicalize(p) == Ok(p) <==> CanonicalShape(p) && PERCENT !in p
  {
    if CanonicalShape(p) && PERCENT !in p {
      DecodeRoundsPlain(p, 4);
      assert Replace(p, BACKSLASH, SLASH) == p;
      RebuildCanonical(p);
    }
    if Canonicalize(p) == Ok(p) {
      CanonicalizeShape(p);
      if PERCENT in p {
        DecodeRoundsShape(p, 4);
        RebuildLength(Replace(DecodeRounds(p, 4).value, BACKSLASH, SLASH));
      }
    }
  }

  /** Canonicalising twice changes nothing exactly when the first result carries no `%`. */
  lemma IdempotentIff(path: Bytes)
    requires ValidUtf8(path) && Canonicalize(path).Ok?
    ensures var r := Canonicalize(path).value;
            Canonicalize(r) == Ok(r) <==> PERCENT !in r
  {
    CanonicalizeShape(path);
    FixedPointIff(Canonicalize(path).value);
  }
}
