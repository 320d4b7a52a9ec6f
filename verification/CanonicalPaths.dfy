// What a canonical path means, and when there is none (edge/crates/common/src/lib.rs).
module CanonicalPaths {
  import opened Text
  import opened Paths
  import opened Prefixes

  predicate Separator(b: Byte) {
    b == SLASH || b == BACKSLASH
  }

  predicate EndsInSeparator(s: Bytes) {
    s != [] && Separator(s[|s| - 1])
  }

  /** The parts between slashes or backslashes. */
  function PartsOf(s: Bytes): (parts: seq<Bytes>)
    ensures |parts| >= 1
  {
    if s == [] then [[]]
    else
      var rest := PartsOf(s[1..]);
      if Separator(s[0]) then [[]] + rest else [[s[0]] + rest[0]] + rest[1..]
  }

  lemma {:induction false} PartsAreSplit(s: Bytes)
    ensures PartsOf(s) == Split(Replace(s, BACKSLASH, SLASH), SLASH)
  {
    if s != [] {
      PartsAreSplit(s[1..]);
      assert Replace(s, BACKSLASH, SLASH)[1..] == Replace(s[1..], BACKSLASH, SLASH);
    }
  }

  lemma RenderSegments(segments: seq<Bytes>, trailing: bool)
    requires forall k :: 0 <= k < |segments| ==> SLASH !in segments[k] && segments[k] != []
    ensures Segments(Render(segments, trailing)) == segments
    ensures var r := Render(segments, trailing); r[|r| - 1] == SLASH <==> r == [SLASH] || trailing
  {
    RenderParts(segments, trailing);
    if segments != [] {
      NoTrailingSlash(segments);
    }
  }

  lemma RebuildSegments(d: Bytes)
    ensures Rebuild(d) != [] && Segments(Rebuild(d)) == Resolve(Split(d, SLASH))
    ensures var r := Rebuild(d); r[|r| - 1] == SLASH <==> r == [SLASH] || (d != [] && d[|d| - 1] == SLASH)
  {
    var parts := Split(d, SLASH);
    var segments := Resolve(parts);
    ResolveMembers(parts);
    forall k | 0 <= k < |segments|
      ensures SLASH !in segments[k] && segments[k] != []
    {
      assert segments[k] in segments;
    }
    RenderSegments(segments, d != [] && d[|d| - 1] == SLASH);
  }

  /** The segments of a canonical path are what survives of the decoded path's parts; its final slash is that path's. */
  lemma CanonicalMeaning(path: Bytes, decoded: Bytes)
    requires path != [] && path[0] == SLASH && DecodeRounds(path, 4) == Ok(decoded) && !HasControl(decoded)
    ensures Canonicalize(path).Ok? && Canonicalize(path).value != []
    ensures var r := Canonicalize(path).value;
            && Segments(r) == Survivors(PartsOf(decoded), 0)
            && (r[|r| - 1] == SLASH <==> r == [SLASH] || EndsInSeparator(decoded))
  {
    var clean := Replace(decoded, BACKSLASH, SLASH);
    RebuildSegments(clean);
    PartsAreSplit(decoded);
    StackIsRightToLeftScan(PartsOf(decoded), 0);
  }

  /** The same of a path without escapes, said of the path itself. */
  lemma PlainMeaning(path: Bytes)
    requires ValidUtf8(path) && path != [] && path[0] == SLASH && PERCENT !in path && !HasControl(path)
    ensures Canonicalize(path).Ok? && Canonicalize(path).value != []
    ensures var r := Canonicalize(path).value;
            && Segments(r) == Survivors(PartsOf(path), 0)
            && (r[|r| - 1] == SLASH <==> r == [SLASH] || EndsInSeparator(path))
  {
    DecodeRoundsPlain(path, 4);
    CanonicalMeaning(path, path);
  }

  /** Segments and final slash determine a canonical path. */
  lemma ShapeDetermined(p: Bytes, q: Bytes)
    requires CanonicalShape(p) && CanonicalShape(q)
    requires Segments(p) == Segments(q) && (p[|p| - 1] == SLASH <==> q[|q| - 1] == SLASH)
    ensures p == q
  {
    SegmentsAndSlash(p);
    SegmentsAndSlash(q);
  }

  lemma SegmentsAndSlash(p: Bytes)
    requires p != [] && p[0] == SLASH
    ensures p == [SLASH] + Join(Segments(p) + if p[|p| - 1] == SLASH then [[]] else [], SLASH)
  {
    LastPartEmptyIff(p);
    EmptyPartApart(Split(p[1..], SLASH));
    JoinSplit(p[1..], SLASH);
    assert p == [SLASH] + p[1..];
  }

  lemma EmptyPartApart(parts: seq<Bytes>)
    requires |parts| >= 1
    ensures var last := parts[|parts| - 1];
            parts == (if last == [] then parts[..|parts| - 1] else parts) + if last == [] then [[]] else []
  {
  }

  lemma LastPartEmptyIff(p: Bytes)
    requires p != [] && p[0] == SLASH
    ensures var parts := Split(p[1..], SLASH); parts[|parts| - 1] == [] <==> p[|p| - 1] == SLASH
  {
    var s := p[1..];
    if s != [] && s[|s| - 1] == SLASH {
      assert s == s[..|s| - 1] + [SLASH] + [];
      SplitAppend(s[..|s| - 1], SLASH, []);
    } else if s != [] {
      LastPart(s);
    }
  }

  /** Decoding first changes nothing, once nothing is left to decode. */
  lemma DecodedSame(path: Bytes, decoded: Bytes)
    requires ValidUtf8(path) && path != [] && path[0] == SLASH
    requires DecodeRounds(path, 4) == Ok(decoded) && PERCENT !in decoded
    ensures Canonicalize(path) == Canonicalize(decoded)
  {
    DecodeRoundsShape(path, 4);
    DecodeRoundsPlain(decoded, 4);
  }

  // ----- The two separators are one -----

  /** Equal but for which of the two separators stands at a place. */
  predicate Twins(p: Bytes, q: Bytes) {
    |p| == |q| && forall k :: 0 <= k < |p| ==> p[k] == q[k] || (Separator(p[k]) && Separator(q[k]))
  }

  lemma {:induction false} TwinsDecode(p: Bytes, q: Bytes)
    requires Twins(p, q)
    ensures DecodeBytes(p).Some? <==> DecodeBytes(q).Some?
    ensures DecodeBytes(p).Some? ==> Twins(DecodeBytes(p).value, DecodeBytes(q).value)
    ensures PERCENT in p <==> PERCENT in q
  {
    if p != [] {
      assert q[0] == PERCENT <==> p[0] == PERCENT;
      TwinsDecode(p[1..], q[1..]);
      assert p == [p[0]] + p[1..] && q == [q[0]] + q[1..];
      if p[0] == PERCENT && |p| >= 3 {
        assert DigitValue(p[1]) == DigitValue(q[1]) && DigitValue(p[2]) == DigitValue(q[2]);
        TwinsDecode(p[3..], q[3..]);
      }
    }
  }

  lemma {:induction false} TwinsUtf8(p: Bytes, q: Bytes)
    requires Twins(p, q)
    ensures ValidUtf8(p) <==> ValidUtf8(q)
  {
    if p != [] {
      var n := LeadLength(p);
      TwinsLead(p, q);
      if n > 0 {
        TwinsUtf8(p[n..], q[n..]);
      }
    }
  }

  lemma TwinsLead(p: Bytes, q: Bytes)
    requires Twins(p, q)
    ensures LeadLength(p) == LeadLength(q)
  {
  }

  lemma {:induction false} TwinsRounds(p: Bytes, q: Bytes, rounds: nat)
    requires Twins(p, q)
    ensures var a, b := DecodeRounds(p, rounds), DecodeRounds(q, rounds);
            if a.Ok? then b.Ok? && Twins(a.value, b.value) else b == a
    decreases rounds
  {
    if rounds > 0 {
      TwinsDecode(p, q);
      var a, b := DecodeBytes(p), DecodeBytes(q);
      if a.Some? {
        TwinsUtf8(a.value, b.value);
        DecodeShortens(p);
        DecodeShortens(q);
        if a.value != p {
          TwinsRounds(a.value, b.value, rounds - 1);
        }
      }
    }
  }

  lemma TwinsControl(p: Bytes, q: Bytes)
    requires Twins(p, q) && HasControl(p)
    ensures HasControl(q)
  {
    var b :| b in p && Control(b);
    var k :| 0 <= k < |p| && p[k] == b;
    assert q[k] == b;
  }

  /** Two rooted paths that differ only in their separators have one canonical form, or fail alike. */
  lemma SeparatorsInterchangeable(p: Bytes, q: Bytes)
    requires Twins(p, q) && p != [] && p[0] == q[0]
    ensures Canonicalize(p) == Canonicalize(q)
  {
    TwinsRounds(p, q, 4);
    var a, b := DecodeRounds(p, 4), DecodeRounds(q, 4);
    if a.Ok? {
      assert Replace(a.value, BACKSLASH, SLASH) == Replace(b.value, BACKSLASH, SLASH);
      if HasControl(a.value) {
        TwinsControl(a.value, b.value);
      } else if HasControl(b.value) {
        TwinsControl(b.value, a.value);
      }
    }
  }

  // ----- When there is no canonical path -----

  /** Every percent sign is followed by two hexadecimal digits. */
  predicate WellEscaped(s: Bytes) {
    forall k :: 0 <= k < |s| && s[k] == PERCENT ==> EscapeAt(s, k)
  }

  predicate EscapeAt(s: Bytes, k: nat) {
    k + 2 < |s| && DigitValue(s[k + 1]).Some? && DigitValue(s[k + 2]).Some?
  }

  lemma WellEscapedCut(s: Bytes, n: nat)
    requires n <= |s| && WellEscaped(s)
    ensures WellEscaped(s[n..])
  {
    forall k | 0 <= k < |s[n..]| && s[n..][k] == PERCENT
      ensures EscapeAt(s[n..], k)
    {
      assert EscapeAt(s, n + k);
    }
  }

  lemma WellEscapedBack(s: Bytes, n: nat)
    requires n <= |s| && WellEscaped(s[n..])
    requires forall k :: 0 <= k < n && s[k] == PERCENT ==> EscapeAt(s, k)
    ensures WellEscaped(s)
  {
    forall k | 0 <= k < |s| && s[k] == PERCENT
      ensures EscapeAt(s, k)
    {
      if k >= n {
        assert s[n..][k - n] == PERCENT && EscapeAt(s[n..], k - n);
      }
    }
  }

  /** A pass succeeds on exactly the well-escaped texts. */
  lemma {:induction false} DecodesIff(s: Bytes)
    ensures DecodeBytes(s).Some? <==> WellEscaped(s)
  {
    if s != [] {
      if s[0] != PERCENT {
        DecodesIff(s[1..]);
        if DecodeBytes(s).Some? { WellEscapedBack(s, 1); }
        if WellEscaped(s) { WellEscapedCut(s, 1); }
      } else if EscapeAt(s, 0) {
        DecodesIff(s[3..]);
        if DecodeBytes(s).Some? { WellEscapedBack(s, 3); }
        if WellEscaped(s) { WellEscapedCut(s, 3); }
      }
    }
  }

  /** What stands in front of a text is decoded by itself. */
  lemma {:induction false} DecodeConcat(a: Bytes, b: Bytes)
    requires WellEscaped(a)
    ensures DecodeBytes(a).Some? && DecodeBytes(a + b) == After(DecodeBytes(a).value, DecodeBytes(b))
  {
    DecodesIff(a);
    if a == [] {
      assert a + b == b;
      assert DecodeBytes(b).Some? ==> [] + DecodeBytes(b).value == DecodeBytes(b).value;
    } else {
      var n := if a[0] == PERCENT then 3 else 1;
      assert a[0] == PERCENT ==> EscapeAt(a, 0);
      assert (a + b)[n..] == a[n..] + b;
      WellEscapedCut(a, n);
      DecodeConcat(a[n..], b);
      var byte := DecodeBytes(a).value[0];
      AfterTwice([byte], DecodeBytes(a[n..]).value, DecodeBytes(b));
    }
  }

  lemma AfterTwice(x: Bytes, y: Bytes, rest: Option<Bytes>)
    ensures After(x, After(y, rest)) == After(x + y, rest)
  {
    if rest.Some? {
      assert x + (y + rest.value) == x + y + rest.value;
    }
  }

  /** One more round decodes the text of the rounds before. */
  lemma {:induction false} RoundsSnoc(s: Bytes, rounds: nat)
    ensures var before, after := DecodeRounds(s, rounds), DecodeRounds(s, rounds + 1);
            after == if before.Ok? then PercentDecode(before.value) else before
    decreases rounds
  {
    if rounds == 0 {
      if PercentDecode(s).Ok? {
        assert DecodeRounds(PercentDecode(s).value, 0) == PercentDecode(s);
      }
    } else if PercentDecode(s).Ok? && PercentDecode(s).value != s {
      RoundsSnoc(PercentDecode(s).value, rounds - 1);
    }
  }

  /** The text before round `k` has a malformed escape, or its escapes stand for bytes that are not UTF-8. */
  predicate Breaks(path: Bytes, k: nat) {
    && DecodeRounds(path, k).Ok?
    && var t := DecodeRounds(path, k).value;
       !WellEscaped(t) || (DecodeBytes(t).Some? && !ValidUtf8(DecodeBytes(t).value))
  }

  lemma BreaksIff(path: Bytes, k: nat)
    requires DecodeRounds(path, k).Ok?
    ensures DecodeRounds(path, k + 1).Err? <==> Breaks(path, k)
    ensures Breaks(path, k) ==>
              DecodeRounds(path, k + 1) == Err(if WellEscaped(DecodeRounds(path, k).value) then BadUtf8 else BadPercent)
  {
    RoundsSnoc(path, k);
    DecodesIff(DecodeRounds(path, k).value);
  }

  lemma {:induction false} ErrorsStay(path: Bytes, k: nat, n: nat)
    requires k <= n && DecodeRounds(path, k).Err?
    ensures DecodeRounds(path, n) == DecodeRounds(path, k)
  {
    if k < n {
      ErrorsStay(path, k, n - 1);
      RoundsSnoc(path, n - 1);
    }
  }

  lemma {:induction false} DecodeKeepsControl(s: Bytes, b: Byte)
    requires DecodeBytes(s).Some? && b in s && Control(b)
    ensures b in DecodeBytes(s).value
  {
    assert DigitValue(b).None?;
    if s[0] == PERCENT {
      assert s == s[..3] + s[3..];
      DecodeKeepsControl(s[3..], b);
    } else if s[0] != b {
      assert s == [s[0]] + s[1..];
      DecodeKeepsControl(s[1..], b);
    }
  }

  lemma {:induction false} ControlStays(path: Bytes, k: nat, n: nat)
    requires k <= n && DecodeRounds(path, k).Ok? && HasControl(DecodeRounds(path, k).value)
    requires DecodeRounds(path, n).Ok?
    ensures HasControl(DecodeRounds(path, n).value)
  {
    if k < n {
      RoundsSnoc(path, n - 1);
      ControlStays(path, k, n - 1);
      var t := DecodeRounds(path, n - 1).value;
      var b :| b in t && Control(b);
      DecodeKeepsControl(t, b);
    }
  }

  /** The text before or after one of the four rounds has a control byte. */
  predicate ShowsControl(path: Bytes, k: nat) {
    k <= 4 && DecodeRounds(path, k).Ok? && exists b :: b in DecodeRounds(path, k).value && (b <= 31 || b == 127)
  }

  lemma ShownIsControl(path: Bytes, k: nat)
    ensures ShowsControl(path, k) <==> k <= 4 && DecodeRounds(path, k).Ok? && HasControl(DecodeRounds(path, k).value)
  {
  }

  lemma {:induction false} FirstBreak(path: Bytes, n: nat)
    ensures DecodeRounds(path, n).Err? <==> exists k :: 0 <= k < n && Breaks(path, k)
  {
    if n > 0 {
      FirstBreak(path, n - 1);
      if DecodeRounds(path, n - 1).Ok? {
        BreaksIff(path, n - 1);
      } else {
        ErrorsStay(path, n - 1, n);
      }
    }
  }

  /**
   * A path has no canonical form exactly when it is not rooted, or one of the four rounds meets a malformed
   * escape or bytes that are not UTF-8, or some text on the way has a control byte.
   */
  lemma FailsIff(path: Bytes)
    ensures Canonicalize(path).Err? <==>
            path != [] && (|| path[0] != SLASH
                           || (exists k :: 0 <= k < 4 && Breaks(path, k))
                           || (exists k :: ShowsControl(path, k)))
  {
    FirstBreak(path, 4);
    ShownIsControl(path, 4);
    if DecodeRounds(path, 4).Ok? {
      if HasControl(DecodeRounds(path, 4).value) {
        assert ShowsControl(path, 4);
      }
      forall k | ShowsControl(path, k)
        ensures HasControl(DecodeRounds(path, 4).value)
      {
        ShownIsControl(path, k);
        ControlStays(path, k, 4);
      }
    }
  }

  /** Which failure it is: the first round to break says, and control bytes are looked for last. */
  lemma FailureKind(path: Bytes, k: nat)
    requires path != [] && path[0] == SLASH
    ensures k < 4 && Breaks(path, k) ==>
              Canonicalize(path) == Err(if WellEscaped(DecodeRounds(path, k).value) then BadUtf8 else BadPercent)
    ensures ShowsControl(path, k) && (forall j :: 0 <= j < 4 ==> !Breaks(path, j)) ==>
              Canonicalize(path) == Err(ControlCharacter)
  {
    FirstBreak(path, 4);
    if k < 4 && Breaks(path, k) {
      BreaksIff(path, k);
      ErrorsStay(path, k + 1, 4);
    }
    ShownIsControl(path, k);
    if ShowsControl(path, k) && DecodeRounds(path, 4).Ok? {
      ControlStays(path, k, 4);
    }
  }
}
