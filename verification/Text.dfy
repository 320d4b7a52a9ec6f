// Byte strings as the proxy sees them: UTF-8 well-formedness, splitting and joining on a
// separator, Unicode white space, and hexadecimal numerals.
module Text {

  datatype Option<+T> = None | Some(value: T)

  type Byte = b: int | 0 <= b < 256
  type Bytes = seq<Byte>

  const PERCENT: Byte := 0x25
  const DOT: Byte := 0x2e
  const SLASH: Byte := 0x2f
  const SEMICOLON: Byte := 0x3b
  const BACKSLASH: Byte := 0x5c

  // ----- UTF-8 (section 4 of RFC 3629) -----

  predicate Continuation(b: Byte) {
    0x80 <= b <= 0xbf
  }

  /** Length of the well-formed character at the front of `s`; 0 when there is none. */
  function LeadLength(s: Bytes): (n: nat)
    ensures n <= |s| && n <= 4
    ensures n > 1 ==> forall k :: 0 <= k < n ==> s[k] >= 0x80
    ensures n == 1 ==> s[0] < 0x80
  {
    if |s| == 0 then 0
    else if s[0] < 0x80 then 1
    else if 0xc2 <= s[0] <= 0xdf then
      if |s| >= 2 && Continuation(s[1]) then 2 else 0
    else if 0xe0 <= s[0] <= 0xef then
      if && |s| >= 3 && Continuation(s[1]) && Continuation(s[2])
         && (s[0] == 0xe0 ==> s[1] >= 0xa0) && (s[0] == 0xed ==> s[1] <= 0x9f)
      then 3 else 0
    else if 0xf0 <= s[0] <= 0xf4 then
      if && |s| >= 4 && Continuation(s[1]) && Continuation(s[2]) && Continuation(s[3])
         && (s[0] == 0xf0 ==> s[1] >= 0x90) && (s[0] == 0xf4 ==> s[1] <= 0x8f)
      then 4 else 0
    else 0
  }

  predicate ValidUtf8(s: Bytes) {
    s == [] || (LeadLength(s) > 0 && ValidUtf8(s[LeadLength(s)..]))
  }

  lemma {:induction false} Utf8Concat(a: Bytes, b: Bytes)
    requires ValidUtf8(a) && ValidUtf8(b)
    ensures ValidUtf8(a + b)
  {
    if a == [] {
      assert a + b == b;
    } else {
      var n := LeadLength(a);
      assert LeadLength(a + b) == n;
      assert (a + b)[n..] == a[n..] + b;
      Utf8Concat(a[n..], b);
    }
  }

  lemma LeadOfPrefix(s: Bytes, i: nat)
    requires LeadLength(s) <= i <= |s|
    ensures LeadLength(s) > 0 ==> LeadLength(s[..i]) == LeadLength(s)
  {
  }

  lemma LeadReaches(s: Bytes, i: nat)
    requires 0 < i < |s| && s[i] < 0x80
    ensures LeadLength(s) <= i
  {
  }

  /** A UTF-8 string may be cut in front of any ASCII byte. */
  lemma {:induction false} Utf8Cut(s: Bytes, i: nat)
    requires ValidUtf8(s) && i < |s| && s[i] < 0x80
    ensures ValidUtf8(s[..i]) && ValidUtf8(s[i..]) && ValidUtf8(s[i + 1..])
  {
    var n := LeadLength(s);
    if i == 0 {
      assert s[0..] == s;
    } else {
      LeadReaches(s, i);
      Utf8Cut(s[n..], i - n);
      assert s[..i][n..] == s[n..][..i - n];
      LeadOfPrefix(s, i);
      assert s[n..][i - n..] == s[i..];
      assert s[n..][i - n + 1..] == s[i + 1..];
    }
  }

  lemma {:induction false} AsciiIsUtf8(s: Bytes)
    requires forall k :: 0 <= k < |s| ==> s[k] < 0x80
    ensures ValidUtf8(s)
  {
    if s != [] {
      AsciiIsUtf8(s[1..]);
    }
  }

  /** Replacing an ASCII byte by an ASCII byte keeps UTF-8 well-formed. */
  function Replace(s: Bytes, from: Byte, to: Byte): (r: Bytes)
    ensures |r| == |s|
    ensures forall k :: 0 <= k < |s| ==> r[k] == if s[k] == from then to else s[k]
  {
    if s == [] then [] else [if s[0] == from then to else s[0]] + Replace(s[1..], from, to)
  }

  lemma {:induction false} Utf8Replace(s: Bytes, from: Byte, to: Byte)
    requires ValidUtf8(s) && from < 0x80 && to < 0x80
    ensures ValidUtf8(Replace(s, from, to))
  {
    if s != [] {
      var n := LeadLength(s);
      var r := Replace(s, from, to);
      assert LeadLength(r) == n;
      Utf8Replace(s[n..], from, to);
      assert r[n..] == Replace(s[n..], from, to);
    }
  }

  // ----- Splitting and joining -----

  /** The parts between separators; there is always at least one. */
  function Split(s: Bytes, sep: Byte): (parts: seq<Bytes>)
    ensures |parts| >= 1
    ensures forall k :: 0 <= k < |parts| ==> sep !in parts[k]
  {
    if s == [] then [[]]
    else
      var rest := Split(s[1..], sep);
      if s[0] == sep then [[]] + rest else [[s[0]] + rest[0]] + rest[1..]
  }

  function Join(parts: seq<Bytes>, sep: Byte): Bytes {
    if parts == [] then []
    else if |parts| == 1 then parts[0]
    else parts[0] + [sep] + Join(parts[1..], sep)
  }

  lemma {:induction false} JoinSplit(s: Bytes, sep: Byte)
    ensures Join(Split(s, sep), sep) == s
  {
    if s != [] {
      var rest := Split(s[1..], sep);
      JoinSplit(s[1..], sep);
      if s[0] == sep {
        assert ([[]] + rest)[1..] == rest;
      } else {
        var parts := [[s[0]] + rest[0]] + rest[1..];
        assert parts[1..] == rest[1..];
        assert Join(parts, sep) == [s[0]] + Join(rest, sep);
      }
    }
  }

  lemma {:induction false} SplitNoSeparator(s: Bytes, sep: Byte)
    requires sep !in s
    ensures Split(s, sep) == [s]
  {
    if s != [] {
      SplitNoSeparator(s[1..], sep);
      assert s == [s[0]] + s[1..];
    }
  }

  lemma {:induction false} SplitAppend(a: Bytes, sep: Byte, b: Bytes)
    ensures Split(a + [sep] + b, sep) == Split(a, sep) + Split(b, sep)
  {
    var s := a + [sep] + b;
    if a == [] {
      assert s[1..] == b;
    } else {
      assert s[1..] == a[1..] + [sep] + b;
      SplitAppend(a[1..], sep, b);
    }
  }

  lemma {:induction false} SplitJoin(parts: seq<Bytes>, sep: Byte)
    requires |parts| >= 1
    requires forall k :: 0 <= k < |parts| ==> sep !in parts[k]
    ensures Split(Join(parts, sep), sep) == parts
  {
    SplitNoSeparator(parts[0], sep);
    if |parts| > 1 {
      SplitJoin(parts[1..], sep);
      SplitAppend(parts[0], sep, Join(parts[1..], sep));
      assert parts == [parts[0]] + parts[1..];
    }
  }

  lemma {:induction false} JoinAppend(a: seq<Bytes>, b: seq<Bytes>, sep: Byte)
    requires |a| >= 1 && |b| >= 1
    ensures Join(a + b, sep) == Join(a, sep) + [sep] + Join(b, sep)
  {
    if |a| == 1 {
      assert (a + b)[1..] == b;
    } else {
      assert (a + b)[1..] == a[1..] + b;
      JoinAppend(a[1..], b, sep);
    }
  }

  lemma {:induction false} Utf8Split(s: Bytes, sep: Byte)
    requires ValidUtf8(s) && sep < 0x80
    ensures forall k :: 0 <= k < |Split(s, sep)| ==> ValidUtf8(Split(s, sep)[k])
    decreases |s|
  {
    if sep !in s {
      SplitNoSeparator(s, sep);
    } else {
      var i :| 0 <= i < |s| && s[i] == sep;
      assert ValidUtf8(s[..i]) && ValidUtf8(s[i + 1..]) by { Utf8Cut(s, i); }
      Utf8Split(s[..i], sep);
      Utf8Split(s[i + 1..], sep);
      SplitAt(s, sep, i);
    }
  }

  lemma SplitAt(s: Bytes, sep: Byte, i: nat)
    requires i < |s| && s[i] == sep
    ensures Split(s, sep) == Split(s[..i], sep) + Split(s[i + 1..], sep)
  {
    assert s == s[..i] + [sep] + s[i + 1..];
    SplitAppend(s[..i], sep, s[i + 1..]);
  }

  lemma {:induction false} Utf8Join(parts: seq<Bytes>, sep: Byte)
    requires sep < 0x80
    requires forall k :: 0 <= k < |parts| ==> ValidUtf8(parts[k])
    ensures ValidUtf8(Join(parts, sep))
  {
    if |parts| > 1 {
      Utf8Join(parts[1..], sep);
      assert ValidUtf8([sep]);
      Utf8Concat(parts[0], [sep]);
      Utf8Concat(parts[0] + [sep], Join(parts[1..], sep));
    }
  }

  // ----- White space (the Unicode White_Space property, in UTF-8) -----

  /** The bytes a white-space character can end with. */
  predicate EndsSpace(b: Byte) {
    0x09 <= b <= 0x0d || b == 0x20 || b >= 0x80
  }

  /** Length of the white-space character at the front of `s`; 0 when there is none. */
  function SpaceLength(s: Bytes): (n: nat)
    ensures n <= |s|
    ensures n > 0 ==> EndsSpace(s[n - 1])
  {
    if |s| >= 1 && (0x09 <= s[0] <= 0x0d || s[0] == 0x20) then 1
    else if |s| >= 2 && s[0] == 0xc2 && (s[1] == 0x85 || s[1] == 0xa0) then 2
    else if |s| >= 3 && s[0] == 0xe1 && s[1] == 0x9a && s[2] == 0x80 then 3
    else if |s| >= 3 && s[0] == 0xe2 && s[1] == 0x80
         && (0x80 <= s[2] <= 0x8a || s[2] == 0xa8 || s[2] == 0xa9 || s[2] == 0xaf) then 3
    else if |s| >= 3 && s[0] == 0xe2 && s[1] == 0x81 && s[2] == 0x9f then 3
    else if |s| >= 3 && s[0] == 0xe3 && s[1] == 0x80 && s[2] == 0x80 then 3
    else 0
  }

  function TrimStart(s: Bytes): (r: Bytes)
    ensures |r| <= |s| && SpaceLength(r) == 0
    decreases |s|
  {
    if SpaceLength(s) == 0 then s else TrimStart(s[SpaceLength(s)..])
  }

  /** Length of the white-space character at the end of `s`; 0 when there is none. */
  function SpaceSuffix(s: Bytes): (n: nat)
    ensures n <= |s|
    ensures n > 0 ==> EndsSpace(s[|s| - 1])
  {
    if |s| >= 1 && SpaceLength(s[|s| - 1..]) == 1 then 1
    else if |s| >= 2 && SpaceLength(s[|s| - 2..]) == 2 then 2
    else if |s| >= 3 && SpaceLength(s[|s| - 3..]) == 3 then 3
    else 0
  }

  function TrimEnd(s: Bytes): (r: Bytes)
    ensures |r| <= |s| && SpaceSuffix(r) == 0
    decreases |s|
  {
    if SpaceSuffix(s) == 0 then s else TrimEnd(s[..|s| - SpaceSuffix(s)])
  }

  function Trim(s: Bytes): Bytes {
    TrimEnd(TrimStart(s))
  }

  // ----- Strings of characters -----

  predicate IsSpace(c: char) {
    || '\t' <= c <= '\r' || c == ' ' || c == '\U{85}' || c == '\U{a0}' || c == '\U{1680}'
    || '\U{2000}' <= c <= '\U{200a}' || c == '\U{2028}' || c == '\U{2029}' || c == '\U{202f}'
    || c == '\U{205f}' || c == '\U{3000}'
  }

  function TrimLeft(s: string): string {
    if s != [] && IsSpace(s[0]) then TrimLeft(s[1..]) else s
  }

  function TrimRight(s: string): string {
    if s != [] && IsSpace(s[|s| - 1]) then TrimRight(s[..|s| - 1]) else s
  }

  function TrimText(s: string): string {
    TrimRight(TrimLeft(s))
  }

  function Until(s: string, c: char): string {
    if s == [] || s[0] == c then [] else [s[0]] + Until(s[1..], c)
  }

  function SkipLeading(s: string, c: char): string {
    if s != [] && s[0] == c then SkipLeading(s[1..], c) else s
  }

  function SkipTrailing(s: string, c: char): string {
    if s != [] && s[|s| - 1] == c then SkipTrailing(s[..|s| - 1], c) else s
  }

  function LowerChar(c: char): char {
    if 'A' <= c <= 'Z' then (c as int + 32) as char else c
  }

  function Lower(s: string): (r: string)
    ensures |r| == |s| && forall k :: 0 <= k < |s| ==> r[k] == LowerChar(s[k])
  {
    if s == [] then [] else [LowerChar(s[0])] + Lower(s[1..])
  }

  function SplitOnce(s: string, c: char): (r: Option<(string, string)>)
    ensures r.None? <==> c !in s
    ensures r.Some? ==> s == r.value.0 + [c] + r.value.1 && c !in r.value.0
  {
    if s == [] then None
    else if s[0] == c then Some(([], s[1..]))
    else
      match SplitOnce(s[1..], c)
      case None => None
      case Some(p) => assert s == [s[0]] + s[1..]; Some(([s[0]] + p.0, p.1))
  }

  lemma SplitOnceUnique(a: string, c: char, b: string)
    requires c !in a
    ensures SplitOnce(a + [c] + b, c) == Some((a, b))
  {
    var s := a + [c] + b;
    assert s[|a|] == c;
    var p := SplitOnce(s, c).value;
    assert s[|p.0|] == c;
    assert forall k :: 0 <= k < |a| ==> s[k] == a[k];
    assert forall k :: 0 <= k < |p.0| ==> s[k] == p.0[k];
    assert |p.0| == |a|;
    assert p.0 == s[..|a|] == a && p.1 == s[|a| + 1..] == b;
  }

  lemma {:induction false} ColonSplitUnique(a: string, x: string, b: string, y: string)
    requires ':' !in a && ':' !in b && a + ":" + x == b + ":" + y
    ensures a == b && x == y
  {
    var s := a + ":" + x;
    assert s[|a|] == ':' && s[|b|] == ':';
    assert forall k :: 0 <= k < |a| ==> s[k] == a[k];
    assert forall k :: 0 <= k < |b| ==> s[k] == b[k];
    assert |a| == |b|;
    assert a == s[..|a|] && b == s[..|b|];
    assert x == s[|a| + 1..] && y == s[|b| + 1..];
  }

  // ----- Hexadecimal numerals -----

  function DigitValue(code: int): (v: Option<nat>)
    ensures v.Some? ==> v.value < 16
  {
    if 0x30 <= code <= 0x39 then Some(code - 0x30)
    else if 0x61 <= code <= 0x66 then Some(code - 0x61 + 10)
    else if 0x41 <= code <= 0x46 then Some(code - 0x41 + 10)
    else None
  }

  /** The value of a row of digits; None when some code is not a digit. */
  function HexDigits(codes: seq<int>): Option<nat> {
    if codes == [] then Some(0)
    else
      match (HexDigits(codes[..|codes| - 1]), DigitValue(codes[|codes| - 1]))
      case (Some(high), Some(low)) => Some(16 * high + low)
      case _ => None
  }

  /** Radix-16 parsing as the standard library does it: an optional plus sign, then at least one digit. */
  function ParseHex(codes: seq<int>): Option<nat> {
    var digits := if codes != [] && codes[0] == 0x2b then codes[1..] else codes;
    if digits == [] then None else HexDigits(digits)
  }

  function HexCode(v: nat): Byte
    requires v < 16
  {
    if v < 10 then 0x30 + v else 0x61 + (v - 10)
  }

  /** Lower-case digits without leading zeros. */
  function ToHex(n: nat): (r: Bytes)
    ensures r != [] && forall k :: 0 <= k < |r| ==> 0x30 <= r[k] <= 0x66
  {
    if n < 16 then [HexCode(n)] else ToHex(n / 16) + [HexCode(n % 16)]
  }

  lemma {:induction false} DigitsInvertToHex(n: nat)
    ensures HexDigits(ToHex(n)) == Some(n)
  {
    if n < 16 {
      LastDigit([], n, 0);
      assert [] + [HexCode(n)] == [HexCode(n)];
    } else {
      var high := ToHex(n / 16);
      DigitsInvertToHex(n / 16);
      LastDigit(high, n % 16, n / 16);
      assert ToHex(n) == high + [HexCode(n % 16)];
    }
  }

  lemma LastDigit(high: Bytes, low: nat, n: nat)
    requires low < 16 && HexDigits(high) == Some(n)
    ensures HexDigits(high + [HexCode(low)]) == Some(16 * n + low)
  {
    assert (high + [HexCode(low)])[..|high|] == high;
  }

  lemma ParseInvertsToHex(n: nat)
    ensures HexDigits(ToHex(n)) == Some(n) && ParseHex(ToHex(n)) == Some(n)
  {
    DigitsInvertToHex(n);
    var r := ToHex(n);
    assert r[0] >= 0x30;
  }
}
