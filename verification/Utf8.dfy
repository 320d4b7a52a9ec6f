// The byte test of `Text` accepts exactly the encodings of section 3 of RFC 3629, which is what the standard
// library's `String::from_utf8` checks for edge/crates/common/src/lib.rs.
module Utf8 {
  import opened Text

  /** A Unicode scalar value: a code point that is not a surrogate. */
  predicate Scalar(n: nat) {
    n < 0xd800 || 0xe000 <= n <= 0x10ffff
  }

  predicate Scalars(ns: seq<nat>) {
    forall k :: 0 <= k < |ns| ==> Scalar(ns[k])
  }

  /** A continuation byte carries six bits. */
  function SixBits(n: nat): Byte {
    0x80 + n % 64
  }

  /** One code point in the least number of bytes. */
  function EncodeScalar(n: nat): (s: Bytes)
    requires Scalar(n)
    ensures 1 <= |s| <= 4
  {
    if n < 0x80 then [n]
    else if n < 0x800 then [0xc0 + n / 64, SixBits(n)]
    else if n < 0x1_0000 then [0xe0 + n / 64 / 64, SixBits(n / 64), SixBits(n)]
    else [0xf0 + n / 64 / 64 / 64, SixBits(n / 64 / 64), SixBits(n / 64), SixBits(n)]
  }

  function Encode(ns: seq<nat>): Bytes
    requires Scalars(ns)
  {
    if ns == [] then [] else EncodeScalar(ns[0]) + Encode(ns[1..])
  }

  /** Six more bits behind those read so far. */
  function Append(high: int, b: Byte): int {
    var code: int := b;
    high * 64 + (code - 0x80)
  }

  function LeadBits(b: Byte, marker: int): int {
    var code: int := b;
    code - marker
  }

  /** The code point of the character at the front. */
  function FirstScalar(s: Bytes): int
    requires LeadLength(s) > 0
  {
    var n := LeadLength(s);
    if n == 1 then s[0]
    else if n == 2 then Append(LeadBits(s[0], 0xc0), s[1])
    else if n == 3 then Append(Append(LeadBits(s[0], 0xe0), s[1]), s[2])
    else Append(Append(Append(LeadBits(s[0], 0xf0), s[1]), s[2]), s[3])
  }

  lemma AppendBits(high: nat, b: Byte)
    requires Continuation(b)
    ensures var n := Append(high, b); n >= 0 && n / 64 == high && SixBits(n) == b
    ensures high * 64 <= Append(high, b) < high * 64 + 64
  {
  }

  lemma FirstScalarEncodes(s: Bytes)
    requires LeadLength(s) > 0
    ensures FirstScalar(s) >= 0 && Scalar(FirstScalar(s)) && EncodeScalar(FirstScalar(s)) == s[..LeadLength(s)]
  {
    var n := LeadLength(s);
    if n == 2 {
      AppendBits(LeadBits(s[0], 0xc0), s[1]);
    } else if n == 3 {
      ThreeBytes(s);
    } else if n == 4 {
      FourBytes(s);
    }
  }

  lemma ThreeBytes(s: Bytes)
    requires LeadLength(s) == 3
    ensures FirstScalar(s) >= 0 && Scalar(FirstScalar(s)) && EncodeScalar(FirstScalar(s)) == s[..3]
  {
    var a := LeadBits(s[0], 0xe0);
    var b := Append(a, s[1]);
    AppendBits(a, s[1]);
    AppendBits(b, s[2]);
  }

  lemma FourBytes(s: Bytes)
    requires LeadLength(s) == 4
    ensures FirstScalar(s) >= 0 && Scalar(FirstScalar(s)) && EncodeScalar(FirstScalar(s)) == s[..4]
  {
    var a := LeadBits(s[0], 0xf0);
    var b := Append(a, s[1]);
    var c := Append(b, s[2]);
    AppendBits(a, s[1]);
    AppendBits(b, s[2]);
    AppendBits(c, s[3]);
  }

  function Decode(s: Bytes): seq<nat>
    requires ValidUtf8(s)
  {
    if s == [] then []
    else
      FirstScalarEncodes(s);
      [FirstScalar(s)] + Decode(s[LeadLength(s)..])
  }

  lemma EncodedLead(n: nat, rest: Bytes)
    requires Scalar(n)
    ensures LeadLength(EncodeScalar(n) + rest) == |EncodeScalar(n)|
  {
    var s := EncodeScalar(n);
    assert forall k :: 0 <= k < |s| ==> (s + rest)[k] == s[k];
  }

  lemma {:induction false} EncodeIsValid(ns: seq<nat>)
    requires Scalars(ns)
    ensures ValidUtf8(Encode(ns))
  {
    if ns != [] {
      EncodeIsValid(ns[1..]);
      var first, rest := EncodeScalar(ns[0]), Encode(ns[1..]);
      EncodedLead(ns[0], rest);
      assert (first + rest)[|first|..] == rest;
    }
  }

  lemma EncodeFront(s: Bytes, n: nat, first: nat, rest: seq<nat>)
    requires n <= |s| && Scalar(first) && EncodeScalar(first) == s[..n]
    requires Scalars(rest) && Encode(rest) == s[n..]
    ensures Scalars([first] + rest) && Encode([first] + rest) == s
  {
    assert ([first] + rest)[1..] == rest;
    assert s == s[..n] + s[n..];
  }

  lemma {:induction false} EncodeInvertsDecode(s: Bytes)
    requires ValidUtf8(s)
    ensures Scalars(Decode(s)) && Encode(Decode(s)) == s
  {
    if s != [] {
      var n := LeadLength(s);
      FirstScalarEncodes(s);
      EncodeInvertsDecode(s[n..]);
      EncodeFront(s, n, FirstScalar(s), Decode(s[n..]));
    }
  }

  /** A byte string passes exactly when it is the encoding of some scalar values. */
  lemma ValidIff(s: Bytes)
    ensures ValidUtf8(s) <==> exists ns :: Scalars(ns) && Encode(ns) == s
  {
    if ValidUtf8(s) {
      EncodeInvertsDecode(s);
    }
    forall ns | Scalars(ns) && Encode(ns) == s
      ensures ValidUtf8(s)
    {
      EncodeIsValid(ns);
    }
  }
}
