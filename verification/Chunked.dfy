// The chunked-body decoder of the container API client (edge/crates/docker-discovery/src/lib.rs).
module Chunked {
  import opened Text

  const CR: Byte := 0x0d
  const LF: Byte := 0x0a
  const CRLF: Bytes := [CR, LF]
  const LIMIT: nat := 5 * 1024 * 1024

  datatype Error = MissingSize | SizeNotUtf8 | BadSize | TooShort | TooLong
  datatype Result = Ok(body: Bytes) | Err(error: Error)

  predicate LineEndsAt(bytes: Bytes, i: int) {
    0 <= i && i + 2 <= |bytes| && bytes[i] == CR && bytes[i + 1] == LF
  }

  /** Position of the first CRLF. */
  function FindCrlf(bytes: Bytes): (r: Option<nat>)
    ensures r.Some? ==> r.value + 2 <= |bytes|
  {
    if |bytes| < 2 then None
    else if bytes[0] == CR && bytes[1] == LF then Some(0)
    else
      match FindCrlf(bytes[1..])
      case None => None
      case Some(n) => Some(n + 1)
  }

  lemma {:induction false} FindCrlfIsFirst(bytes: Bytes)
    ensures FindCrlf(bytes).Some? ==> LineEndsAt(bytes, FindCrlf(bytes).value)
    ensures forall k :: LineEndsAt(bytes, k) ==> FindCrlf(bytes).Some? && FindCrlf(bytes).value <= k
  {
    if |bytes| >= 2 && !(bytes[0] == CR && bytes[1] == LF) {
      FindCrlfIsFirst(bytes[1..]);
      forall k | LineEndsAt(bytes, k)
        ensures FindCrlf(bytes).Some? && FindCrlf(bytes).value <= k
      {
        assert LineEndsAt(bytes[1..], k - 1);
      }
    }
  }

  datatype Header = NotUtf8 | NotASize | Size(n: nat)

  /** What a chunk line announces: the text before the first semicolon, trimmed, in hexadecimal. */
  function ReadHeader(line: Bytes): Header {
    if !ValidUtf8(line) then NotUtf8
    else
      match ParseHex(Trim(Split(line, SEMICOLON)[0]))
      case None => NotASize
      case Some(n) => Size(n)
  }

  function Prepend(data: Bytes, r: Result): Result {
    match r
    case Ok(body) => Ok(data + body)
    case Err(e) => Err(e)
  }

  /** Decodes what remains of a body after `used` bytes of output; `read` reads a chunk line. */
  function DecodeRest(read: Bytes -> Header, rest: Bytes, used: nat): Result
    decreases |rest|
  {
    match FindCrlf(rest)
    case None => Err(MissingSize)
    case Some(n) => DecodeChunk(read, read(rest[..n]), rest[n + 2..], used)
  }

  /** Goes on after a chunk line. */
  function DecodeChunk(read: Bytes -> Header, header: Header, after: Bytes, used: nat): Result
    decreases |after|
  {
    match header
    case NotUtf8 => Err(SizeNotUtf8)
    case NotASize => Err(BadSize)
    case Size(size) =>
      if size == 0 then Ok([])
      else if size + 2 > |after| then Err(TooShort)
      else if used + size > LIMIT then Err(TooLong)
      else Prepend(after[..size], DecodeRest(read, after[size + 2..], used + size))
  }

  function Decode(body: Bytes): Result {
    DecodeRest(ReadHeader, body, 0)
  }

  lemma PrependTwice(a: Bytes, b: Bytes, r: Result)
    ensures Prepend(a, Prepend(b, r)) == Prepend(a + b, r) && Prepend([], r) == r
  {
    if r.Ok? {
      assert a + (b + r.body) == a + b + r.body && [] + r.body == r.body;
    }
  }

  method DecodeChunkedBody(body: Bytes) returns (r: Result)
    ensures r == Decode(body)
  {
    r := DecodeWith(ReadHeader, body);
  }

  method DecodeWith(read: Bytes -> Header, body: Bytes) returns (r: Result)
    ensures r == DecodeRest(read, body, 0)
  {
    var decoded: Bytes := [];
    var cursor := 0;
    ghost var whole := DecodeRest(read, body, 0);
    StartOfBody(read, body);
    while true
      invariant 0 <= cursor <= |body| && Leads(whole, read, body, cursor, decoded)
      decreases |body| - cursor
    {
      var found := FindCrlf(body[cursor..]);
      NoLineEnds(whole, read, body, cursor, decoded);
      if found.None? {
        return Err(MissingSize);
      }
      var lineEnd := found.value + cursor;
      var header := read(body[cursor..lineEnd]);
      LineStops(whole, read, body, cursor, decoded, found.value);
      cursor := lineEnd + 2;
      if header.NotUtf8? {
        return Err(SizeNotUtf8);
      }
      if header.NotASize? {
        return Err(BadSize);
      }
      if header.n == 0 {
        return Ok(decoded);
      }
      var end := cursor + header.n;
      if end + 2 > |body| {
        return Err(TooShort);
      }
      if |decoded| + header.n > LIMIT {
        return Err(TooLong);
      }
      LineContinues(whole, read, body, lineEnd - found.value, decoded, found.value, header.n);
      decoded := decoded + body[cursor..end];
      cursor := end + 2;
    }
  }

  /** What the decoder still has to do leads from here to the answer on the whole body. */
  ghost predicate Leads(whole: Result, read: Bytes -> Header, body: Bytes, cursor: nat, decoded: Bytes)
    requires cursor <= |body|
  {
    whole == Prepend(decoded, DecodeRest(read, body[cursor..], |decoded|))
  }

  lemma StartOfBody(read: Bytes -> Header, body: Bytes)
    ensures Leads(DecodeRest(read, body, 0), read, body, 0, [])
  {
    assert body[0..] == body;
    PrependTwice([], [], DecodeRest(read, body, 0));
  }

  lemma NoLineEnds(whole: Result, read: Bytes -> Header, body: Bytes, cursor: nat, decoded: Bytes)
    requires cursor <= |body| && Leads(whole, read, body, cursor, decoded)
    ensures FindCrlf(body[cursor..]).None? ==> whole == Err(MissingSize)
  {
  }

  /** The answer at the chunk line under the cursor, in the cases that end the loop. */
  lemma LineStops(whole: Result, read: Bytes -> Header, body: Bytes, cursor: nat, decoded: Bytes, n: nat)
    requires cursor <= |body| && Leads(whole, read, body, cursor, decoded) && FindCrlf(body[cursor..]) == Some(n)
    ensures var start := cursor + n + 2;
            match read(body[cursor..cursor + n])
            case NotUtf8 => whole == Err(SizeNotUtf8)
            case NotASize => whole == Err(BadSize)
            case Size(size) =>
              && (size == 0 ==> whole == Ok(decoded))
              && (size > 0 && start + size + 2 > |body| ==> whole == Err(TooShort))
              && (size > 0 && start + size + 2 <= |body| && |decoded| + size > LIMIT ==>
                    whole == Err(TooLong))
  {
    CutLine(read, body, cursor, n, |decoded|);
    assert decoded + [] == decoded;
  }

  /** The next position after a chunk. */
  lemma LineContinues(whole: Result, read: Bytes -> Header, body: Bytes, cursor: nat, decoded: Bytes, n: nat, size: nat)
    requires cursor <= |body| && Leads(whole, read, body, cursor, decoded) && FindCrlf(body[cursor..]) == Some(n)
    requires read(body[cursor..cursor + n]) == Size(size) && size > 0
    requires cursor + n + 2 + size + 2 <= |body| && |decoded| + size <= LIMIT
    ensures var start := cursor + n + 2;
            Leads(whole, read, body, start + size + 2, decoded + body[start..start + size])
  {
    var start := cursor + n + 2;
    var data := body[start..start + size];
    FrameAt(read, body, cursor, n, size, |decoded|);
    LeadsOn(whole, read, body, cursor, decoded, start + size + 2, data);
  }

  lemma LeadsOn(
    whole: Result, read: Bytes -> Header, body: Bytes, cursor: nat, decoded: Bytes, next: nat, data: Bytes)
    requires cursor <= |body| && next <= |body| && Leads(whole, read, body, cursor, decoded)
    requires Moves(read, body, cursor, |decoded|, next, data)
    ensures Leads(whole, read, body, next, decoded + data)
  {
    PrependTwice(decoded, data, DecodeRest(read, body[next..], |decoded| + |data|));
    assert |decoded + data| == |decoded| + |data|;
  }

  /** From the one cursor to the other the decoder yields the data. */
  ghost predicate Moves(read: Bytes -> Header, body: Bytes, cursor: nat, used: nat, next: nat, data: Bytes)
    requires cursor <= |body| && next <= |body|
  {
    DecodeRest(read, body[cursor..], used) == Prepend(data, DecodeRest(read, body[next..], used + |data|))
  }

  lemma FrameAt(read: Bytes -> Header, body: Bytes, cursor: nat, n: nat, size: nat, used: nat)
    requires cursor <= |body| && FindCrlf(body[cursor..]) == Some(n)
    requires read(body[cursor..cursor + n]) == Size(size) && size > 0
    requires cursor + n + 2 + size + 2 <= |body| && used + size <= LIMIT
    ensures var start := cursor + n + 2;
            Moves(read, body, cursor, used, start + size + 2, body[start..start + size])
  {
    FrameSlices(body, cursor, n, size);
    FirstFrame(read, body[cursor..], n, size, used);
  }

  lemma FrameSlices(body: Bytes, cursor: nat, n: nat, size: nat)
    requires cursor + n + 2 + size + 2 <= |body|
    ensures var rest, start := body[cursor..], cursor + n + 2;
            && rest[..n] == body[cursor..cursor + n]
            && rest[n + 2..][..size] == body[start..start + size]
            && rest[n + 2..][size + 2..] == body[start + size + 2..]
  {
  }

  lemma FirstFrame(read: Bytes -> Header, rest: Bytes, n: nat, size: nat, used: nat)
    requires FindCrlf(rest) == Some(n) && read(rest[..n]) == Size(size)
    requires 0 < size && n + 2 + size + 2 <= |rest| && used + size <= LIMIT
    ensures DecodeRest(read, rest, used) ==
            Prepend(rest[n + 2..][..size], DecodeRest(read, rest[n + 2..][size + 2..], used + size))
  {
    FirstLine(read, rest, n, used);
    FirstData(read, rest[n + 2..], size, used);
  }

  lemma FirstLine(read: Bytes -> Header, rest: Bytes, n: nat, used: nat)
    requires FindCrlf(rest) == Some(n)
    ensures DecodeRest(read, rest, used) == DecodeChunk(read, read(rest[..n]), rest[n + 2..], used)
  {
  }

  lemma FirstData(read: Bytes -> Header, after: Bytes, size: nat, used: nat)
    requires 0 < size && size + 2 <= |after| && used + size <= LIMIT
    ensures DecodeChunk(read, Size(size), after, used) ==
            Prepend(after[..size], DecodeRest(read, after[size + 2..], used + size))
  {
  }

  lemma CutLine(read: Bytes -> Header, body: Bytes, cursor: nat, n: nat, used: nat)
    requires cursor <= |body| && FindCrlf(body[cursor..]) == Some(n)
    ensures DecodeRest(read, body[cursor..], used) ==
            DecodeChunk(read, read(body[cursor..cursor + n]), body[cursor + n + 2..], used)
  {
    var rest := body[cursor..];
    assert rest[..n] == body[cursor..cursor + n] && rest[n + 2..] == body[cursor + n + 2..];
  }

  // ----- The framing, as a grammar -----

  /** A size line, the data it announces, and the two bytes after the data, which are not looked at. */
  datatype Frame = Frame(line: Bytes, data: Bytes, tail: Bytes)

  ghost predicate SizeLine(read: Bytes -> Header, line: Bytes, size: nat) {
    read(line) == Size(size) && forall k :: !LineEndsAt(line, k)
  }

  ghost predicate WellFramed(read: Bytes -> Header, f: Frame) {
    f.data != [] && |f.tail| == 2 && SizeLine(read, f.line, |f.data|)
  }

  function Serialize(frames: seq<Frame>, rest: Bytes): Bytes {
    if frames == [] then rest
    else frames[0].line + CRLF + (frames[0].data + frames[0].tail + Serialize(frames[1..], rest))
  }

  function Payload(frames: seq<Frame>): Bytes {
    if frames == [] then [] else frames[0].data + Payload(frames[1..])
  }

  /** `body` is framed as these chunks, then a line of size zero, then anything. */
  ghost predicate Framed(read: Bytes -> Header, body: Bytes, frames: seq<Frame>, last: Bytes, trailer: Bytes) {
    && (forall k :: 0 <= k < |frames| ==> WellFramed(read, frames[k]))
    && SizeLine(read, last, 0)
    && body == Serialize(frames, last + CRLF + trailer)
  }

  /** The first CRLF of a line followed by CRLF is the one that follows it. */
  lemma LineFound(line: Bytes, rest: Bytes)
    requires forall k :: !LineEndsAt(line, k)
    ensures FindCrlf(line + CRLF + rest) == Some(|line|)
    ensures (line + CRLF + rest)[..|line|] == line && (line + CRLF + rest)[|line| + 2..] == rest
  {
    var s := line + CRLF + rest;
    FindCrlfIsFirst(s);
    assert LineEndsAt(s, |line|);
    var n := FindCrlf(s).value;
    assert s[|line|] == CR;
    assert forall k :: 0 <= k < |line| ==> s[k] == line[k];
    assert n < |line| - 1 ==> LineEndsAt(line, n);
  }

  lemma {:induction false} DecodeFramed(read: Bytes -> Header, frames: seq<Frame>, last: Bytes, trailer: Bytes, used: nat)
    requires forall k :: 0 <= k < |frames| ==> WellFramed(read, frames[k])
    requires SizeLine(read, last, 0)
    requires used + |Payload(frames)| <= LIMIT
    ensures DecodeRest(read, Serialize(frames, last + CRLF + trailer), used) == Ok(Payload(frames))
    decreases frames
  {
    if frames == [] {
      DecodeLine(read, last, trailer, used);
    } else {
      var f := frames[0];
      var rest := Serialize(frames[1..], last + CRLF + trailer);
      DecodeFramed(read, frames[1..], last, trailer, used + |f.data|);
      DecodeFrame(read, f, rest, used);
    }
  }

  lemma DecodeFrame(read: Bytes -> Header, f: Frame, rest: Bytes, used: nat)
    requires WellFramed(read, f) && used + |f.data| <= LIMIT
    ensures DecodeRest(read, f.line + CRLF + (f.data + f.tail + rest), used) ==
            Prepend(f.data, DecodeRest(read, rest, used + |f.data|))
  {
    DecodeLine(read, f.line, f.data + f.tail + rest, used);
    DecodeData(read, f.data, f.tail, rest, used);
  }

  lemma DecodeLine(read: Bytes -> Header, line: Bytes, after: Bytes, used: nat)
    requires forall k :: !LineEndsAt(line, k)
    ensures DecodeRest(read, line + CRLF + after, used) == DecodeChunk(read, read(line), after, used)
  {
    LineFound(line, after);
  }

  lemma DecodeData(read: Bytes -> Header, data: Bytes, tail: Bytes, rest: Bytes, used: nat)
    requires data != [] && |tail| == 2 && used + |data| <= LIMIT
    ensures DecodeChunk(read, Size(|data|), data + tail + rest, used) ==
            Prepend(data, DecodeRest(read, rest, used + |data|))
  {
    var after := data + tail + rest;
    assert after[..|data|] == data && after[|data| + 2..] == rest;
  }

  lemma {:induction false} DecodeFindsFrames(read: Bytes -> Header, rest: Bytes, used: nat)
    returns (frames: seq<Frame>, last: Bytes, trailer: Bytes)
    requires DecodeRest(read, rest, used).Ok? && used <= LIMIT
    ensures Framed(read, rest, frames, last, trailer)
    ensures DecodeRest(read, rest, used) == Ok(Payload(frames)) && used + |Payload(frames)| <= LIMIT
    decreases |rest|
  {
    var line, after := DecodeFindsLine(read, rest, used);
    if read(line).n == 0 {
      frames, last, trailer := [], line, after;
    } else {
      var f, more := DecodeFindsData(read, line, after, used);
      var found;
      found, last, trailer := DecodeFindsFrames(read, more, used + |f.data|);
      frames := FrameFirst(read, f, more, found, last, trailer);
    }
  }

  lemma DecodeFindsLine(read: Bytes -> Header, rest: Bytes, used: nat) returns (line: Bytes, after: Bytes)
    requires DecodeRest(read, rest, used).Ok?
    ensures rest == line + CRLF + after && read(line).Size? && SizeLine(read, line, read(line).n)
    ensures DecodeRest(read, rest, used) == DecodeChunk(read, read(line), after, used)
  {
    var n := FindCrlf(rest).value;
    line, after := rest[..n], rest[n + 2..];
    LineHasNoCrlf(rest, n);
  }

  lemma DecodeFindsData(read: Bytes -> Header, line: Bytes, after: Bytes, used: nat) returns (f: Frame, more: Bytes)
    requires read(line).Size? && read(line).n > 0 && SizeLine(read, line, read(line).n)
    requires DecodeChunk(read, read(line), after, used).Ok?
    ensures f.line == line && WellFramed(read, f) && after == f.data + f.tail + more
    ensures DecodeChunk(read, read(line), after, used) == Prepend(f.data, DecodeRest(read, more, used + |f.data|))
    ensures used + |f.data| <= LIMIT
  {
    var size := read(line).n;
    f, more := Frame(line, after[..size], after[size..size + 2]), after[size + 2..];
  }

  lemma FrameFirst(read: Bytes -> Header, f: Frame, more: Bytes, found: seq<Frame>, last: Bytes, trailer: Bytes)
    returns (frames: seq<Frame>)
    requires WellFramed(read, f) && Framed(read, more, found, last, trailer)
    ensures Framed(read, f.line + CRLF + (f.data + f.tail + more), frames, last, trailer)
    ensures Payload(frames) == f.data + Payload(found)
  {
    frames := [f] + found;
    assert frames[1..] == found;
  }

  lemma LineHasNoCrlf(rest: Bytes, n: nat)
    requires FindCrlf(rest) == Some(n)
    ensures (forall k :: !LineEndsAt(rest[..n], k)) && rest[n..n + 2] == CRLF
  {
    FindCrlfIsFirst(rest);
    forall k
      ensures !LineEndsAt(rest[..n], k)
    {
      if LineEndsAt(rest[..n], k) {
        assert LineEndsAt(rest, k);
      }
    }
  }

  /** The decoder accepts exactly the framed bodies within the limit, and returns their payload. */
  lemma DecodeIffFramed(body: Bytes, out: Bytes)
    ensures Decode(body) == Ok(out) <==>
            exists frames, last, trailer ::
              Framed(ReadHeader, body, frames, last, trailer) && out == Payload(frames) && |out| <= LIMIT
  {
    DecodeWithIffFramed(ReadHeader, body, out);
  }

  lemma DecodeWithIffFramed(read: Bytes -> Header, body: Bytes, out: Bytes)
    ensures DecodeRest(read, body, 0) == Ok(out) <==>
            exists frames, last, trailer ::
              Framed(read, body, frames, last, trailer) && out == Payload(frames) && |out| <= LIMIT
  {
    if DecodeRest(read, body, 0) == Ok(out) {
      var frames, last, trailer := DecodeFindsFrames(read, body, 0);
      assert Framed(read, body, frames, last, trailer);
    }
    if frames, last, trailer :| Framed(read, body, frames, last, trailer) && out == Payload(frames) && |out| <= LIMIT {
      DecodeFramed(read, frames, last, trailer, 0);
    }
  }

  // ----- The encoder of section 7.1 of RFC 9112 -----

  /** The digits of a size, then an optional extension. */
  function HeaderLine(digits: Bytes, extension: Option<Bytes>): Bytes {
    digits + match extension
             case None => []
             case Some(e) => [SEMICOLON] + e
  }

  /** Hexadecimal digits of either case, leading zeros allowed. */
  predicate Spells(digits: Bytes, n: nat) {
    digits != [] && HexDigits(digits) == Some(n)
  }

  /** An extension: ASCII without a line end. */
  ghost predicate PlainExtension(extension: Option<Bytes>) {
    extension.Some? ==>
      && (forall k :: 0 <= k < |extension.value| ==> extension.value[k] < 0x80)
      && (forall k :: !LineEndsAt(extension.value, k))
  }

  datatype Chunk = Chunk(data: Bytes, digits: Bytes, extension: Option<Bytes>)

  /** Chunks, then a last chunk of size zero with its own digits and extension, then trailers. */
  function Encode(chunks: seq<Chunk>, zeros: Bytes, extension: Option<Bytes>, trailer: Bytes): Bytes {
    if chunks == [] then HeaderLine(zeros, extension) + CRLF + trailer
    else
      HeaderLine(chunks[0].digits, chunks[0].extension) + CRLF +
      (chunks[0].data + CRLF + Encode(chunks[1..], zeros, extension, trailer))
  }

  function Contents(chunks: seq<Chunk>): Bytes {
    if chunks == [] then [] else chunks[0].data + Contents(chunks[1..])
  }

  /** No white-space character starts or ends with a byte in the range of the digits. */
  lemma NothingToTrim(s: Bytes)
    requires s != [] && 0x30 <= s[0] <= 0x66 && 0x30 <= s[|s| - 1] <= 0x66
    ensures Trim(s) == s
  {
    assert TrimStart(s) == s by { assert SpaceLength(s) == 0; }
    assert SpaceSuffix(s) == 0;
  }

  /** What makes up a row of digits. */
  predicate DigitRow(digits: Bytes) {
    digits != [] && forall k :: 0 <= k < |digits| ==> 0x30 <= digits[k] <= 0x66 && digits[k] != SEMICOLON
  }

  lemma {:induction false} SpelledByDigits(digits: Bytes)
    requires HexDigits(digits).Some?
    ensures forall k :: 0 <= k < |digits| ==> 0x30 <= digits[k] <= 0x66 && digits[k] != SEMICOLON
  {
    if digits != [] {
      SpelledByDigits(digits[..|digits| - 1]);
    }
  }

  lemma HeaderLineIsSizeLine(digits: Bytes, size: nat, extension: Option<Bytes>)
    requires Spells(digits, size) && PlainExtension(extension)
    ensures SizeLine(ReadHeader, HeaderLine(digits, extension), size)
  {
    SpelledByDigits(digits);
    HeaderLineIsOneLine(digits, extension);
    HeaderLineStartsWithSize(digits, extension);
    NothingToTrim(digits);
  }

  lemma HeaderLineIsOneLine(digits: Bytes, extension: Option<Bytes>)
    requires DigitRow(digits) && PlainExtension(extension)
    ensures ValidUtf8(HeaderLine(digits, extension)) && forall k :: !LineEndsAt(HeaderLine(digits, extension), k)
  {
    match extension
    case None =>
      AsciiIsUtf8(digits);
      assert HeaderLine(digits, extension) == digits;
    case Some(e) =>
      assert forall k :: 0 <= k < |digits| ==> digits[k] < 0x80;
      AsciiIsUtf8(digits + ([SEMICOLON] + e));
      OneLine(digits, e);
  }

  lemma OneLine(digits: Bytes, e: Bytes)
    requires forall k :: 0 <= k < |digits| ==> 0x30 <= digits[k] <= 0x66
    requires forall k :: !LineEndsAt(e, k)
    ensures forall k :: !LineEndsAt(digits + ([SEMICOLON] + e), k)
  {
    var line := digits + ([SEMICOLON] + e);
    assert forall k :: LineEndsAt(line, k) ==> LineEndsAt(e, k - |digits| - 1);
  }

  lemma HeaderLineStartsWithSize(digits: Bytes, extension: Option<Bytes>)
    requires DigitRow(digits)
    ensures Split(HeaderLine(digits, extension), SEMICOLON)[0] == digits
  {
    SplitNoSeparator(digits, SEMICOLON);
    if extension.Some? {
      assert HeaderLine(digits, extension) == digits + [SEMICOLON] + extension.value;
      SplitAppend(digits, SEMICOLON, extension.value);
    } else {
      assert HeaderLine(digits, extension) == digits;
    }
  }

  function FramesOf(chunks: seq<Chunk>): seq<Frame> {
    if chunks == [] then []
    else [Frame(HeaderLine(chunks[0].digits, chunks[0].extension), chunks[0].data, CRLF)] + FramesOf(chunks[1..])
  }

  lemma {:induction false} EncodeIsSerialize(chunks: seq<Chunk>, zeros: Bytes, extension: Option<Bytes>, trailer: Bytes)
    ensures Encode(chunks, zeros, extension, trailer) ==
            Serialize(FramesOf(chunks), HeaderLine(zeros, extension) + CRLF + trailer)
    ensures Payload(FramesOf(chunks)) == Contents(chunks) && |FramesOf(chunks)| == |chunks|
    ensures forall k :: 0 <= k < |chunks| ==>
              FramesOf(chunks)[k] == Frame(HeaderLine(chunks[k].digits, chunks[k].extension), chunks[k].data, CRLF)
  {
    if chunks != [] {
      EncodeIsSerialize(chunks[1..], zeros, extension, trailer);
      assert FramesOf(chunks)[1..] == FramesOf(chunks[1..]);
    }
  }

  /** A chunk that is not empty, with its size in digits of any case and length. */
  ghost predicate WellSized(c: Chunk) {
    c.data != [] && Spells(c.digits, |c.data|) && PlainExtension(c.extension)
  }

  /** Decoding inverts encoding: chunks that are not empty and fit the limit come back joined. */
  lemma DecodeInvertsEncode(chunks: seq<Chunk>, zeros: Bytes, extension: Option<Bytes>, trailer: Bytes)
    requires forall k :: 0 <= k < |chunks| ==> WellSized(chunks[k])
    requires Spells(zeros, 0) && PlainExtension(extension)
    ensures Decode(Encode(chunks, zeros, extension, trailer)) == Ok(Contents(chunks)) <==> |Contents(chunks)| <= LIMIT
  {
    var frames := FramesOf(chunks);
    EncodeIsSerialize(chunks, zeros, extension, trailer);
    HeaderLineIsSizeLine(zeros, 0, extension);
    forall k | 0 <= k < |frames|
      ensures WellFramed(ReadHeader, frames[k])
    {
      assert WellSized(chunks[k]);
      HeaderLineIsSizeLine(chunks[k].digits, |chunks[k].data|, chunks[k].extension);
    }
    var body := Encode(chunks, zeros, extension, trailer);
    assert Framed(ReadHeader, body, frames, HeaderLine(zeros, extension), trailer);
    DecodeIffFramed(body, Contents(chunks));
  }

  // ----- Blanks around a size -----

  /** Spaces and tabs. */
  predicate Blanks(s: Bytes) {
    forall k :: 0 <= k < |s| ==> s[k] == 0x20 || s[k] == 0x09
  }

  lemma {:induction false} TrimStartBlanks(before: Bytes, s: Bytes)
    requires Blanks(before) && SpaceLength(s) == 0
    ensures TrimStart(before + s) == s
  {
    if before == [] {
      assert before + s == s;
    } else {
      assert SpaceLength(before + s) == 1;
      assert (before + s)[1..] == before[1..] + s;
      TrimStartBlanks(before[1..], s);
    }
  }

  lemma BlankSuffix(s: Bytes)
    requires s != [] && (s[|s| - 1] == 0x20 || s[|s| - 1] == 0x09)
    ensures SpaceSuffix(s) == 1
  {
    assert s[|s| - 1..][0] == s[|s| - 1];
  }

  lemma TrimOneBlank(s: Bytes)
    requires s != [] && (s[|s| - 1] == 0x20 || s[|s| - 1] == 0x09)
    ensures TrimEnd(s) == TrimEnd(s[..|s| - 1])
  {
    BlankSuffix(s);
  }

  lemma {:induction false} TrimEndBlanks(all: Bytes, n: nat)
    requires n <= |all| && Blanks(all[n..]) && TrimEnd(all[..n]) == all[..n]
    ensures TrimEnd(all) == all[..n]
  {
    if n == |all| {
      assert all[..n] == all;
    } else {
      BlanksShorter(all, n);
      TrimOneBlank(all);
      TrimEndBlanks(all[..|all| - 1], n);
    }
  }

  lemma BlanksShorter(all: Bytes, n: nat)
    requires n < |all| && Blanks(all[n..])
    ensures var init := all[..|all| - 1];
            Blanks(init[n..]) && init[..n] == all[..n] && (all[|all| - 1] == 0x20 || all[|all| - 1] == 0x09)
  {
    assert all[|all| - 1] == all[n..][|all| - 1 - n];
    assert forall k :: 0 <= k < |all| - 1 - n ==> all[..|all| - 1][n..][k] == all[n..][k];
  }

  lemma DigitsStart(digits: Bytes, after: Bytes)
    requires DigitRow(digits)
    ensures SpaceLength(digits + after) == 0 && SpaceSuffix(digits) == 0
  {
    assert (digits + after)[0] == digits[0];
  }

  lemma PaddedTrims(before: Bytes, digits: Bytes, after: Bytes)
    requires Blanks(before) && DigitRow(digits) && Blanks(after)
    ensures Trim(before + (digits + after)) == digits
  {
    DigitsStart(digits, after);
    TrimStartBlanks(before, digits + after);
    var rest := digits + after;
    assert rest[..|digits|] == digits && rest[|digits|..] == after;
    TrimEndBlanks(rest, |digits|);
  }

  lemma LineOfText(text: Bytes, extension: Option<Bytes>)
    requires SEMICOLON !in text && (forall k :: 0 <= k < |text| ==> text[k] < 0x80) && PlainExtension(extension)
    ensures ValidUtf8(HeaderLine(text, extension)) && Split(HeaderLine(text, extension), SEMICOLON)[0] == text
  {
    SplitNoSeparator(text, SEMICOLON);
    match extension
    case None =>
      assert HeaderLine(text, extension) == text;
      AsciiIsUtf8(text);
    case Some(e) =>
      assert HeaderLine(text, extension) == text + [SEMICOLON] + e;
      SplitAppend(text, SEMICOLON, e);
      AsciiIsUtf8(text + ([SEMICOLON] + e));
  }

  lemma PaddedBytes(before: Bytes, digits: Bytes, after: Bytes)
    requires Blanks(before) && DigitRow(digits) && Blanks(after)
    ensures var padded := before + (digits + after);
            SEMICOLON !in padded && forall k :: 0 <= k < |padded| ==> padded[k] < 0x80
  {
  }

  /** Blanks on either side of the digits, and an extension, leave the announced size alone. */
  lemma PaddedSize(before: Bytes, digits: Bytes, after: Bytes, extension: Option<Bytes>, size: nat)
    requires Blanks(before) && Spells(digits, size) && Blanks(after) && PlainExtension(extension)
    ensures ReadHeader(HeaderLine(before + (digits + after), extension)) == Size(size)
  {
    SpelledByDigits(digits);
    PaddedTrims(before, digits, after);
    PaddedBytes(before, digits, after);
    LineOfText(before + (digits + after), extension);
    SizeRead(HeaderLine(before + (digits + after), extension), digits, size);
  }

  lemma SizeRead(line: Bytes, digits: Bytes, size: nat)
    requires ValidUtf8(line) && Trim(Split(line, SEMICOLON)[0]) == digits
    requires Spells(digits, size) && digits[0] != 0x2b
    ensures ReadHeader(line) == Size(size)
  {
  }

  // ----- Bodies that are refused -----

  lemma {:induction false} DecodePast(read: Bytes -> Header, frames: seq<Frame>, rest: Bytes, used: nat)
    requires forall k :: 0 <= k < |frames| ==> WellFramed(read, frames[k])
    requires used + |Payload(frames)| <= LIMIT
    ensures DecodeRest(read, Serialize(frames, rest), used) ==
            Prepend(Payload(frames), DecodeRest(read, rest, used + |Payload(frames)|))
    decreases frames
  {
    var end := DecodeRest(read, rest, used + |Payload(frames)|);
    if frames == [] {
      PrependTwice([], [], end);
    } else {
      var f := frames[0];
      DecodePast(read, frames[1..], rest, used + |f.data|);
      DecodeFrame(read, f, Serialize(frames[1..], rest), used);
      PrependTwice(f.data, Payload(frames[1..]), end);
    }
  }

  /** The error a line and what follows it lead to, if any. */
  function Refusal(header: Header, after: Bytes, used: nat): Option<Error> {
    match header
    case NotUtf8 => Some(SizeNotUtf8)
    case NotASize => Some(BadSize)
    case Size(n) =>
      if n == 0 then None
      else if |after| < n + 2 then Some(TooShort)
      else if used + n > LIMIT then Some(TooLong)
      else None
  }

  lemma LineRefused(read: Bytes -> Header, line: Bytes, after: Bytes, used: nat)
    requires forall k :: !LineEndsAt(line, k)
    ensures DecodeRest(read, line, used) == Err(MissingSize)
    ensures Refusal(read(line), after, used).Some? ==>
              DecodeRest(read, line + CRLF + after, used) == Err(Refusal(read(line), after, used).value)
  {
    DecodeLine(read, line, after, used);
    NoCrlf(line);
  }

  /** After any well-framed chunks: what is wrong with the rest decides the error. */
  lemma RefusalKinds(read: Bytes -> Header, frames: seq<Frame>, line: Bytes, after: Bytes)
    requires forall k :: 0 <= k < |frames| ==> WellFramed(read, frames[k])
    requires |Payload(frames)| <= LIMIT && forall k :: !LineEndsAt(line, k)
    ensures DecodeRest(read, Serialize(frames, line), 0) == Err(MissingSize)
    ensures var refusal := Refusal(read(line), after, |Payload(frames)|);
            refusal.Some? ==> DecodeRest(read, Serialize(frames, line + CRLF + after), 0) == Err(refusal.value)
  {
    var used := |Payload(frames)|;
    LineRefused(read, line, after, used);
    DecodePast(read, frames, line, 0);
    DecodePast(read, frames, line + CRLF + after, 0);
  }

  /** In particular for the lines the decoder reads: which are no text, and which announce nothing. */
  lemma RefusedLines(frames: seq<Frame>, line: Bytes, after: Bytes)
    requires forall k :: 0 <= k < |frames| ==> WellFramed(ReadHeader, frames[k])
    requires |Payload(frames)| <= LIMIT && forall k :: !LineEndsAt(line, k)
    ensures !ValidUtf8(line) ==> Decode(Serialize(frames, line + CRLF + after)) == Err(SizeNotUtf8)
    ensures ValidUtf8(line) && ParseHex(Trim(Split(line, SEMICOLON)[0])).None? ==>
              Decode(Serialize(frames, line + CRLF + after)) == Err(BadSize)
  {
    HeaderErrors(line);
    RefusalKinds(ReadHeader, frames, line, after);
  }

  lemma HeaderErrors(line: Bytes)
    ensures !ValidUtf8(line) ==> ReadHeader(line) == NotUtf8
    ensures ValidUtf8(line) && ParseHex(Trim(Split(line, SEMICOLON)[0])).None? ==> ReadHeader(line) == NotASize
  {
  }

  lemma NoCrlf(line: Bytes)
    requires forall k :: !LineEndsAt(line, k)
    ensures FindCrlf(line).None?
  {
    FindCrlfIsFirst(line);
  }
}
