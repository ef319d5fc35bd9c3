/**
 The hand-written decoder for the chunked transfer coding of RFC 9112, section 7.1
 (desktop/src-tauri/src/main.rs).

 `DecodeChunkedBody` is the decoder in the source's own shape; `Decode` is the function it computes.
 `Framing` is the grammar of the section, and the last two lemmas relate the two in both directions.
 */
module ChunkedBody {
  import opened Wrappers

  newtype byte = x: int | 0 <= x < 256

  const CR: byte := 13
  const LF: byte := 10
  const SEMICOLON: byte := 59
  const CRLF: seq<byte> := [CR, LF]

  // The widths of the target: usize is 64 bits, and no slice is longer than isize::MAX.
  const USIZE_MAX: nat := 0xFFFF_FFFF_FFFF_FFFF
  const ISIZE_MAX: nat := 0x7FFF_FFFF_FFFF_FFFF

  datatype DecodeError = SizeTruncated | SizeInvalid | TrailersTruncated | DataMalformed

  type Decoded = Result<seq<byte>, DecodeError>

  // ----- lexical helpers

  predicate IsHexDigit(b: byte) {
    48 <= b <= 57 || 65 <= b <= 70 || 97 <= b <= 102
  }

  function DigitValue(b: byte): nat
    requires IsHexDigit(b)
  {
    if b <= 57 then b as nat - 48 else if b <= 70 then b as nat - 55 else b as nat - 87
  }

  predicate AllHexDigits(s: seq<byte>) {
    forall i :: 0 <= i < |s| ==> IsHexDigit(s[i])
  }

  function HexNumber(s: seq<byte>): nat
    requires AllHexDigits(s)
  {
    if s == [] then 0 else 16 * HexNumber(s[..|s| - 1]) + DigitValue(s[|s| - 1])
  }

  predicate CrlfAt(s: seq<byte>, i: nat) {
    i + 1 < |s| && s[i] == CR && s[i + 1] == LF
  }

  predicate CrlfFree(s: seq<byte>) {
    forall i :: 0 <= i < |s| ==> !CrlfAt(s, i)
  }

  function FirstCrlf(s: seq<byte>, from: nat := 0): (r: Option<nat>)
    ensures r.Some? ==> from <= r.value && CrlfAt(s, r.value)
    ensures forall i :: from <= i && CrlfAt(s, i) ==> r.Some? && r.value <= i
    decreases |s| - from
  {
    if from >= |s| then None
    else if CrlfAt(s, from) then Some(from)
    else FirstCrlf(s, from + 1)
  }

  // The part of a size line before its first semicolon.
  function SizeField(line: seq<byte>): (r: seq<byte>)
    ensures r <= line && SEMICOLON !in r
    ensures |r| == |line| || line[|r|] == SEMICOLON
  {
    if line == [] || line[0] == SEMICOLON then [] else [line[0]] + SizeField(line[1..])
  }

  // ----- the function the decoder computes

  function Prepend(prefix: seq<byte>, r: Decoded): Decoded {
    if r.Ok? then Ok(prefix + r.value) else r
  }

  lemma PrependTwice(a: seq<byte>, b: seq<byte>, r: Decoded)
    ensures Prepend(a, Prepend(b, r)) == Prepend(a + b, r)
  {
    if r.Ok? {
      assert a + (b + r.value) == a + b + r.value;
    }
  }

  function SkipTrailers(body: seq<byte>): Decoded
    decreases |body|
  {
    match FirstCrlf(body)
    case None => Err(TrailersTruncated)
    case Some(end) => if end == 0 then Ok([]) else SkipTrailers(body[end + 2..])
  }

  // One chunk: its data and the rest of the body, or the rest after the size line of the last chunk.
  datatype Head = Data(data: seq<byte>, rest: seq<byte>) | Last(rest: seq<byte>) | Malformed(error: DecodeError)

  function ReadChunk(body: seq<byte>): (head: Head)
    ensures head.Data? ==> |head.rest| < |body|
  {
    match FirstCrlf(body)
    case None => Malformed(SizeTruncated)
    case Some(end) =>
      var field, rest := SizeField(body[..end]), body[end + 2..];
      if field == [] || !AllHexDigits(field) || HexNumber(field) > USIZE_MAX then Malformed(SizeInvalid)
      else
        var size := HexNumber(field);
        if size == 0 then Last(rest)
        else if size + 2 > USIZE_MAX then Malformed(SizeInvalid)
        else if |rest| < size + 2 || rest[size..size + 2] != CRLF then Malformed(DataMalformed)
        else Data(rest[..size], rest[size + 2..])
  }

  function Decode(body: seq<byte>): Decoded
    decreases |body|
  {
    match ReadChunk(body)
    case Data(data, rest) => Prepend(data, Decode(rest))
    case Last(rest) => SkipTrailers(rest)
    case Malformed(error) => Err(error)
  }

  // ----- the decoder

  method PositionOfCrlf(body: seq<byte>) returns (position: Option<nat>)
    ensures position == FirstCrlf(body)
  {
    var i := 0;
    while i + 1 < |body|
      invariant i <= |body|
      invariant FirstCrlf(body) == FirstCrlf(body, i)
    {
      if body[i] == CR && body[i + 1] == LF {
        return Some(i);
      }
      i := i + 1;
    }
    assert i < |body| ==> FirstCrlf(body, i) == FirstCrlf(body, i + 1);
    return None;
  }

  // usize::from_str_radix(_, 16): None on overflow, which is detected digit by digit.
  method ParseHex(digits: seq<byte>) returns (value: Option<nat>)
    requires AllHexDigits(digits)
    ensures value == if HexNumber(digits) <= USIZE_MAX then Some(HexNumber(digits)) else None
  {
    var acc := 0;
    for i := 0 to |digits|
      invariant acc == HexNumber(digits[..i]) <= USIZE_MAX
    {
      assert digits[..i + 1][..i] == digits[..i];
      acc := 16 * acc + DigitValue(digits[i]);
      if acc > USIZE_MAX {
        HexNumberMonotone(digits, i + 1);
        return None;
      }
    }
    assert digits[..|digits|] == digits;
    return Some(acc);
  }

  lemma {:induction false} HexNumberMonotone(s: seq<byte>, n: nat)
    requires AllHexDigits(s) && n <= |s|
    ensures HexNumber(s[..n]) <= HexNumber(s)
    decreases |s|
  {
    if n == |s| {
      assert s[..n] == s;
    } else {
      assert s[..|s| - 1][..n] == s[..n];
      HexNumberMonotone(s[..|s| - 1], n);
    }
  }

  // Reads one size line and, unless it is the last chunk's, the data and the line end after it.
  method NextChunk(body: seq<byte>) returns (head: Head)
    ensures head == ReadChunk(body)
  {
    var lineEnd := PositionOfCrlf(body);
    if lineEnd == None {
      return Malformed(SizeTruncated);
    }
    var sizeBytes := SizeField(body[..lineEnd.value]);
    if sizeBytes == [] || !AllHexDigits(sizeBytes) {
      return Malformed(SizeInvalid);
    }
    var parsed := ParseHex(sizeBytes);
    if parsed == None {
      return Malformed(SizeInvalid);
    }
    var size := parsed.value;
    var rest := body[lineEnd.value + 2..];
    if size == 0 {
      return Last(rest);
    }
    if size + 2 > USIZE_MAX {
      return Malformed(SizeInvalid);
    }
    var framedLength := size + 2;
    if |rest| < framedLength || rest[size..framedLength] != CRLF {
      return Malformed(DataMalformed);
    }
    return Data(rest[..size], rest[framedLength..]);
  }

  method DecodeChunkedBody(input: seq<byte>) returns (result: Decoded)
    ensures result == Decode(input)
  {
    var body, decoded := input, [];
    assert Decode(input).Ok? ==> [] + Decode(input).value == Decode(input).value;
    while true
      invariant Decode(input) == Prepend(decoded, Decode(body))
      decreases |body|
    {
      var head := NextChunk(body);
      match head {
        case Malformed(error) =>
          return Err(error);
        case Last(trailers) =>
          var rest := trailers;
          while true
            invariant Decode(body) == SkipTrailers(rest)
            decreases |rest|
          {
            var trailerEnd := PositionOfCrlf(rest);
            if trailerEnd == None {
              return Err(TrailersTruncated);
            }
            if trailerEnd.value == 0 {
              assert decoded + [] == decoded;
              return Ok(decoded);
            }
            rest := rest[trailerEnd.value + 2..];
          }
        case Data(data, rest) =>
          PrependTwice(decoded, data, Decode(rest));
          decoded := decoded + data;
          body := rest;
      }
    }
  }

  // ----- the grammar of section 7.1

  datatype Chunk = Chunk(size: seq<byte>, extension: seq<byte>, data: seq<byte>)

  datatype Framing = Framing(chunks: seq<Chunk>, lastSize: seq<byte>, lastExtension: seq<byte>, trailers: seq<seq<byte>>)

  predicate SizeOf(digits: seq<byte>, n: nat) {
    digits != [] && AllHexDigits(digits) && HexNumber(digits) == n
  }

  // An extension directly follows the size; it may hold anything but a line end.
  predicate ValidExtension(extension: seq<byte>) {
    (extension == [] || extension[0] == SEMICOLON) && CrlfFree(extension)
  }

  predicate ValidChunk(c: Chunk) {
    c.data != [] && SizeOf(c.size, |c.data|) && ValidExtension(c.extension)
  }

  predicate ValidTrailer(t: seq<byte>) {
    t != [] && CrlfFree(t)
  }

  predicate ValidFraming(f: Framing) {
    && (forall c :: c in f.chunks ==> ValidChunk(c))
    && SizeOf(f.lastSize, 0) && ValidExtension(f.lastExtension)
    && (forall t :: t in f.trailers ==> ValidTrailer(t))
  }

  function EncodeTrailers(trailers: seq<seq<byte>>): seq<byte> {
    if trailers == [] then CRLF else trailers[0] + CRLF + EncodeTrailers(trailers[1..])
  }

  function EncodeChunk(c: Chunk): seq<byte> {
    c.size + c.extension + CRLF + c.data + CRLF
  }

  function Encode(f: Framing): seq<byte>
    decreases |f.chunks|
  {
    if f.chunks == [] then f.lastSize + f.lastExtension + CRLF + EncodeTrailers(f.trailers)
    else EncodeChunk(f.chunks[0]) + Encode(f.(chunks := f.chunks[1..]))
  }

  function Payload(chunks: seq<Chunk>): seq<byte> {
    if chunks == [] then [] else chunks[0].data + Payload(chunks[1..])
  }

  // ----- lines

  lemma LineEnd(line: seq<byte>, rest: seq<byte>)
    requires CrlfFree(line)
    ensures FirstCrlf(line + CRLF + rest) == Some(|line|)
    ensures (line + CRLF + rest)[..|line|] == line && (line + CRLF + rest)[|line| + 2..] == rest
  {
    var s := line + CRLF + rest;
    assert CrlfAt(s, |line|);
    forall i | 0 <= i < |line|
      ensures !CrlfAt(s, i)
    {
      assert !CrlfAt(line, i);
    }
  }

  lemma {:induction false} FieldEndsAtSemicolon(size: seq<byte>, extension: seq<byte>)
    requires SEMICOLON !in size && (extension == [] || extension[0] == SEMICOLON)
    ensures SizeField(size + extension) == size
  {
    if size == [] {
      assert size + extension == extension;
    } else {
      assert (size + extension)[1..] == size[1..] + extension;
      FieldEndsAtSemicolon(size[1..], extension);
    }
  }

  lemma SizeLine(size: seq<byte>, extension: seq<byte>, n: nat)
    requires SizeOf(size, n) && ValidExtension(extension)
    ensures CrlfFree(size + extension) && SizeField(size + extension) == size
  {
    var line := size + extension;
    forall i | 0 <= i < |line|
      ensures !CrlfAt(line, i)
    {
      if i >= |size| {
        assert !CrlfAt(extension, i - |size|);
      }
    }
    FieldEndsAtSemicolon(size, extension);
  }

  // ----- every framing is accepted, and decodes to its payload

  lemma {:induction false} TrailersAreSkipped(trailers: seq<seq<byte>>, tail: seq<byte>)
    requires forall t :: t in trailers ==> ValidTrailer(t)
    ensures SkipTrailers(EncodeTrailers(trailers) + tail) == Ok([])
  {
    if trailers == [] {
      LineEnd([], tail);
      assert [] + CRLF + tail == CRLF + tail;
    } else {
      assert ValidTrailer(trailers[0]);
      var rest := EncodeTrailers(trailers[1..]) + tail;
      LineEnd(trailers[0], rest);
      assert EncodeTrailers(trailers) + tail == trailers[0] + CRLF + rest;
      TrailersAreSkipped(trailers[1..], tail);
    }
  }

  lemma ChunkIsRead(c: Chunk, next: seq<byte>)
    requires ValidChunk(c) && |c.data| + 2 <= USIZE_MAX
    ensures ReadChunk(EncodeChunk(c) + next) == Data(c.data, next)
  {
    SizeLine(c.size, c.extension, |c.data|);
    var rest := c.data + CRLF + next;
    assert rest[..|c.data|] == c.data && rest[|c.data|..|c.data| + 2] == CRLF && rest[|c.data| + 2..] == next;
    assert EncodeChunk(c) + next == (c.size + c.extension) + CRLF + rest;
    LineEnd(c.size + c.extension, rest);
  }

  lemma LastChunkIsRead(size: seq<byte>, extension: seq<byte>, rest: seq<byte>)
    requires SizeOf(size, 0) && ValidExtension(extension)
    ensures ReadChunk(size + extension + CRLF + rest) == Last(rest)
  {
    SizeLine(size, extension, 0);
    LineEnd(size + extension, rest);
  }

  lemma {:induction false} FramingIsAccepted(f: Framing, tail: seq<byte>)
    requires ValidFraming(f) && |Encode(f) + tail| <= ISIZE_MAX
    ensures Decode(Encode(f) + tail) == Ok(Payload(f.chunks))
    decreases |f.chunks|
  {
    if f.chunks == [] {
      var rest := EncodeTrailers(f.trailers) + tail;
      assert Encode(f) + tail == f.lastSize + f.lastExtension + CRLF + rest;
      LastChunkIsRead(f.lastSize, f.lastExtension, rest);
      TrailersAreSkipped(f.trailers, tail);
    } else {
      var f' := f.(chunks := f.chunks[1..]);
      assert Encode(f) + tail == EncodeChunk(f.chunks[0]) + (Encode(f') + tail);
      assert ValidChunk(f.chunks[0]);
      ChunkIsRead(f.chunks[0], Encode(f') + tail);
      FramingIsAccepted(f', tail);
    }
  }

  // ----- every accepted input is a framing followed by an ignored tail

  lemma SplitAtLineEnd(body: seq<byte>, end: nat)
    requires FirstCrlf(body) == Some(end)
    ensures body == body[..end] + CRLF + body[end + 2..] && CrlfFree(body[..end])
  {
    forall i | 0 <= i < end
      ensures !CrlfAt(body[..end], i)
    {
      if CrlfAt(body[..end], i) {
        assert CrlfAt(body, i);
      }
    }
  }

  lemma SplitSizeLine(line: seq<byte>) returns (extension: seq<byte>)
    requires CrlfFree(line)
    ensures line == SizeField(line) + extension && ValidExtension(extension)
  {
    var k := |SizeField(line)|;
    extension := line[k..];
    forall i | 0 <= i < |extension|
      ensures !CrlfAt(extension, i)
    {
      assert !CrlfAt(line, k + i);
    }
  }

  lemma {:induction false} SkippedIsTrailers(body: seq<byte>) returns (trailers: seq<seq<byte>>, tail: seq<byte>)
    requires SkipTrailers(body).Ok?
    ensures forall t :: t in trailers ==> ValidTrailer(t)
    ensures body == EncodeTrailers(trailers) + tail
    decreases |body|
  {
    var end := FirstCrlf(body).value;
    SplitAtLineEnd(body, end);
    if end == 0 {
      trailers, tail := [], body[2..];
    } else {
      trailers, tail := SkippedIsTrailers(body[end + 2..]);
      var t, more := body[..end], trailers;
      trailers := [t] + more;
      assert trailers[1..] == more;
      assert body == t + CRLF + (EncodeTrailers(more) + tail);
    }
  }

  lemma ReadIsChunk(body: seq<byte>) returns (c: Chunk)
    requires ReadChunk(body).Data?
    ensures ValidChunk(c) && c.data == ReadChunk(body).data
    ensures body == EncodeChunk(c) + ReadChunk(body).rest
  {
    var end := FirstCrlf(body).value;
    SplitAtLineEnd(body, end);
    var extension := SplitSizeLine(body[..end]);
    c := Chunk(SizeField(body[..end]), extension, ReadChunk(body).data);
    assert body[end + 2..] == c.data + CRLF + ReadChunk(body).rest;
    assert EncodeChunk(c) + ReadChunk(body).rest == (c.size + extension) + CRLF + (c.data + CRLF + ReadChunk(body).rest);
  }

  lemma ReadIsLast(body: seq<byte>) returns (size: seq<byte>, extension: seq<byte>)
    requires ReadChunk(body).Last?
    ensures SizeOf(size, 0) && ValidExtension(extension)
    ensures body == size + extension + CRLF + ReadChunk(body).rest
  {
    var end := FirstCrlf(body).value;
    SplitAtLineEnd(body, end);
    size := SizeField(body[..end]);
    extension := SplitSizeLine(body[..end]);
  }

  lemma {:induction false} AcceptedIsFraming(body: seq<byte>) returns (f: Framing, tail: seq<byte>)
    requires Decode(body).Ok?
    ensures ValidFraming(f) && body == Encode(f) + tail
    ensures Decode(body) == Ok(Payload(f.chunks))
    decreases |body|
  {
    match ReadChunk(body)
    case Last(rest) =>
      var size, extension := ReadIsLast(body);
      var trailers;
      trailers, tail := SkippedIsTrailers(rest);
      f := Framing([], size, extension, trailers);
      TrailersAreSkipped(trailers, tail);
      assert Encode(f) + tail == size + extension + CRLF + (EncodeTrailers(trailers) + tail);
    case Data(data, rest) =>
      var c := ReadIsChunk(body);
      var f';
      f', tail := AcceptedIsFraming(rest);
      f := f'.(chunks := [c] + f'.chunks);
      assert f.chunks[1..] == f'.chunks && f.(chunks := f.chunks[1..]) == f';
      assert Encode(f) + tail == EncodeChunk(c) + (Encode(f') + tail);
  }

  // The inputs the decoder accepts, and what it returns on them, in terms of the grammar alone.
  lemma AcceptsExactlyFramings(input: seq<byte>)
    requires |input| <= ISIZE_MAX
    ensures Decode(input).Ok? <==> exists f, tail :: ValidFraming(f) && input == Encode(f) + tail
    ensures forall f, tail :: ValidFraming(f) && input == Encode(f) + tail ==> Decode(input) == Ok(Payload(f.chunks))
  {
    forall f, tail | ValidFraming(f) && input == Encode(f) + tail
      ensures Decode(input) == Ok(Payload(f.chunks))
    {
      FramingIsAccepted(f, tail);
    }
    if Decode(input).Ok? {
      var f, tail := AcceptedIsFraming(input);
    }
  }

  // ----- size lines, as they are printed

  function HexDigit(d: nat, upper: bool): byte
    requires d < 16
  {
    var table := if upper
      then [48, 49, 50, 51, 52, 53, 54, 55, 56, 57, 65, 66, 67, 68, 69, 70]
      else [48, 49, 50, 51, 52, 53, 54, 55, 56, 57, 97, 98, 99, 100, 101, 102];
    table[d]
  }

  // A number to the base 16, without leading zeros.
  function HexDigits(n: nat, upper: bool): (s: seq<byte>)
    ensures s != []
  {
    if n < 16 then [HexDigit(n, upper)] else HexDigits(n / 16, upper) + [HexDigit(n % 16, upper)]
  }

  function Zeros(n: nat): seq<byte> {
    seq(n, _ => 48)
  }

  lemma DigitIsRead(d: nat, upper: bool)
    requires d < 16
    ensures IsHexDigit(HexDigit(d, upper)) && DigitValue(HexDigit(d, upper)) == d
  {
  }

  predicate Reads(s: seq<byte>, n: nat) {
    AllHexDigits(s) && HexNumber(s) == n
  }

  lemma ReadAppend(s: seq<byte>, n: nat, d: nat, upper: bool)
    requires Reads(s, n) && d < 16
    ensures Reads(s + [HexDigit(d, upper)], 16 * n + d)
  {
    DigitIsRead(d, upper);
    assert (s + [HexDigit(d, upper)])[..|s|] == s;
  }

  lemma {:induction false} ZerosAreRead(zeros: nat)
    ensures Reads(Zeros(zeros), 0)
  {
    if zeros > 0 {
      ZerosAreRead(zeros - 1);
      assert Zeros(zeros)[..zeros - 1] == Zeros(zeros - 1);
    }
  }

  // Every number is read back from its digits, in either case and after any leading zeros.
  lemma {:induction false} PrintedIsRead(n: nat, upper: bool, zeros: nat)
    ensures Reads(Zeros(zeros) + HexDigits(n, upper), n)
  {
    if n < 16 {
      ZerosAreRead(zeros);
      ReadAppend(Zeros(zeros), 0, n, upper);
    } else {
      var s := Zeros(zeros) + HexDigits(n / 16, upper);
      PrintedIsRead(n / 16, upper, zeros);
      ReadAppend(s, n / 16, n % 16, upper);
      assert Zeros(zeros) + HexDigits(n, upper) == s + [HexDigit(n % 16, upper)];
    }
  }

  function LowercaseByte(b: byte): byte {
    if 65 <= b <= 90 then b + 32 else b
  }

  function Lowercase(s: seq<byte>): seq<byte> {
    seq(|s|, i requires 0 <= i < |s| => LowercaseByte(s[i]))
  }

  lemma DigitIsPrinted(b: byte)
    requires IsHexDigit(b)
    ensures DigitValue(b) < 16 && HexDigit(DigitValue(b), false) == LowercaseByte(b)
  {
  }

  lemma HexDigitsAppend(n: nat, d: nat)
    requires d < 16
    ensures HexDigits(16 * n + d, false) == (if n == 0 then [] else HexDigits(n, false)) + [HexDigit(d, false)]
  {
    if n > 0 {
      assert (16 * n + d) / 16 == n && (16 * n + d) % 16 == d;
    }
  }

  // Whatever is read is, but for the case of its digits, a printed number.
  lemma {:induction false} ReadIsPrinted(s: seq<byte>) returns (zeros: nat)
    requires AllHexDigits(s) && s != []
    ensures Lowercase(s) == Zeros(zeros) + HexDigits(HexNumber(s), false)
  {
    var init, last := s[..|s| - 1], s[|s| - 1];
    DigitIsPrinted(last);
    assert Lowercase(s) == Lowercase(init) + [LowercaseByte(last)];
    HexDigitsAppend(HexNumber(init), DigitValue(last));
    if init == [] {
      zeros := 0;
    } else {
      zeros := ReadIsPrinted(init);
      if HexNumber(init) == 0 {
        assert Zeros(zeros) + [48] == Zeros(zeros + 1);
        zeros := zeros + 1;
      }
    }
  }

  // A body as a sender prints it: the length of each chunk before its data, and a last chunk of length zero.
  function PrintedBody(chunks: seq<seq<byte>>, upper: bool, zeros: nat): seq<byte> {
    if chunks == [] then Zeros(zeros) + HexDigits(0, upper) + CRLF + CRLF
    else Zeros(zeros) + HexDigits(|chunks[0]|, upper) + CRLF + chunks[0] + CRLF + PrintedBody(chunks[1..], upper, zeros)
  }

  function Concat(chunks: seq<seq<byte>>): seq<byte> {
    if chunks == [] then [] else chunks[0] + Concat(chunks[1..])
  }

  function AsFraming(chunks: seq<seq<byte>>, upper: bool, zeros: nat): Framing {
    if chunks == [] then Framing([], Zeros(zeros) + HexDigits(0, upper), [], [])
    else
      var rest := AsFraming(chunks[1..], upper, zeros);
      rest.(chunks := [Chunk(Zeros(zeros) + HexDigits(|chunks[0]|, upper), [], chunks[0])] + rest.chunks)
  }

  lemma {:induction false} PrintedIsFraming(chunks: seq<seq<byte>>, upper: bool, zeros: nat)
    requires forall i :: 0 <= i < |chunks| ==> chunks[i] != []
    ensures var f := AsFraming(chunks, upper, zeros);
      ValidFraming(f) && Encode(f) == PrintedBody(chunks, upper, zeros) && Payload(f.chunks) == Concat(chunks)
  {
    if chunks == [] {
      PrintedIsRead(0, upper, zeros);
      assert Zeros(zeros) + HexDigits(0, upper) + [] == Zeros(zeros) + HexDigits(0, upper);
    } else {
      var f, rest := AsFraming(chunks, upper, zeros), AsFraming(chunks[1..], upper, zeros);
      PrintedIsRead(|chunks[0]|, upper, zeros);
      PrintedIsFraming(chunks[1..], upper, zeros);
      var size := Zeros(zeros) + HexDigits(|chunks[0]|, upper);
      var c := Chunk(size, [], chunks[0]);
      assert ValidChunk(c) && f.chunks == [c] + rest.chunks;
      assert f.chunks[1..] == rest.chunks && f.(chunks := f.chunks[1..]) == rest;
      assert size + [] == size;
    }
  }

  // A body printed from its chunks decodes to what they hold, whatever follows it.
  lemma PrintedBodyIsDecoded(chunks: seq<seq<byte>>, upper: bool, zeros: nat, tail: seq<byte>)
    requires (forall i :: 0 <= i < |chunks| ==> chunks[i] != []) && |PrintedBody(chunks, upper, zeros) + tail| <= ISIZE_MAX
    ensures Decode(PrintedBody(chunks, upper, zeros) + tail) == Ok(Concat(chunks))
  {
    PrintedIsFraming(chunks, upper, zeros);
    FramingIsAccepted(AsFraming(chunks, upper, zeros), tail);
  }

  // ----- which error a refused body gives

  // Chunks are decoded one after the other, whatever comes of the rest.
  lemma {:induction false} ChunksComeFirst(chunks: seq<Chunk>, rest: seq<byte>)
    requires (forall c :: c in chunks ==> ValidChunk(c) && |c.data| + 2 <= USIZE_MAX)
    ensures Decode(EncodeChunks(chunks) + rest) == Prepend(Payload(chunks), Decode(rest))
  {
    if chunks == [] {
      assert EncodeChunks(chunks) + rest == rest;
      assert Decode(rest).Ok? ==> [] + Decode(rest).value == Decode(rest).value;
    } else {
      var more := EncodeChunks(chunks[1..]) + rest;
      assert EncodeChunks(chunks) + rest == EncodeChunk(chunks[0]) + more;
      ChunkIsRead(chunks[0], more);
      ChunksComeFirst(chunks[1..], rest);
      PrependTwice(chunks[0].data, Payload(chunks[1..]), Decode(rest));
    }
  }

  function EncodeChunks(chunks: seq<Chunk>): seq<byte> {
    if chunks == [] then [] else EncodeChunk(chunks[0]) + EncodeChunks(chunks[1..])
  }

  // A body without a line has no size, and a size that is not all digits, upper or lower case, is invalid.
  lemma BadSizeIsInvalid(body: seq<byte>, size: seq<byte>, extension: seq<byte>, rest: seq<byte>)
    requires ValidExtension(extension) && CrlfFree(size + extension) && SEMICOLON !in size
    requires size == [] || exists b :: b in size && !(48 <= b <= 57 || 65 <= b <= 70 || 97 <= b <= 102)
    ensures CrlfFree(body) ==> Decode(body) == Err(SizeTruncated)
    ensures Decode(size + extension + CRLF + rest) == Err(SizeInvalid)
  {
    LineEnd(size + extension, rest);
    FieldEndsAtSemicolon(size, extension);
  }

  // A size needs as many bytes of data, and a line end after them.
  lemma ShortDataIsMalformed(digits: seq<byte>, n: nat, extension: seq<byte>, rest: seq<byte>)
    requires SizeOf(digits, n) && ValidExtension(extension) && 0 < n <= ISIZE_MAX
    requires |rest| < n + 2 || rest[n] != CR || rest[n + 1] != LF
    ensures Decode(digits + extension + CRLF + rest) == Err(DataMalformed)
  {
    SizeLine(digits, extension, n);
    LineEnd(digits + extension, rest);
    assert |rest| >= n + 2 ==> rest[n..n + 2] == [rest[n], rest[n + 1]];
  }
}
