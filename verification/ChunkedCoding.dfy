/** Chunked transfer coding (section 7.1 of RFC 9112) as internal/httparser/parser.go reads and writes it. */
module ChunkedCoding {
  import opened Wrappers

  type Byte = b: int | 0 <= b < 256

  type Bytes = seq<Byte>

  const CR: Byte := 13
  const LF: Byte := 10
  const SEMICOLON: Byte := 59
  const MAX_LINE_LENGTH := 8192
  const BUFFER_SIZE := 32768
  const INT64_LIMIT := 0x8000_0000_0000_0000

  // ---------------------------------------------------------------- hexadecimal

  /** The value of a hexadecimal digit, either case. */
  function DigitValue(b: Byte): Option<nat> {
    if 48 <= b <= 57 then Some(b - 48)
    else if 97 <= b <= 102 then Some(b - 87)
    else if 65 <= b <= 70 then Some(b - 55)
    else None
  }

  function Digit(d: nat): Byte
    requires d < 16
  {
    if d < 10 then 48 + d else 87 + d
  }

  /** fmt's %x of a number. */
  function Hex(n: nat): (h: Bytes)
    ensures h != []
  {
    if n < 16 then [Digit(n)] else Hex(n / 16) + [Digit(n % 16)]
  }

  /** The value of a nonempty string of digits. */
  function HexValue(s: Bytes): Option<nat> {
    if s == [] then None
    else
      var last := DigitValue(s[|s| - 1]);
      if last.None? then None
      else if |s| == 1 then last
      else
        var rest := HexValue(s[..|s| - 1]);
        if rest.None? then None else Some(16 * rest.value + last.value)
  }

  /** strconv.ParseInt(s, 16, 64): an optional sign, digits, and a value that fits. */
  function ParseInt(s: Bytes): Option<int> {
    if s == [] then None
    else
      var signed := s[0] == 43 || s[0] == 45;
      var magnitude := HexValue(if signed then s[1..] else s);
      if magnitude.None? then None
      else if s[0] == 45 then (if magnitude.value <= INT64_LIMIT then Some(0 - magnitude.value) else None)
      else if magnitude.value < INT64_LIMIT then Some(magnitude.value)
      else None
  }

  // ---------------------------------------------------------------- lines

  /** Where the first line feed stands; |s| if there is none. */
  function LineEnd(s: Bytes): (n: nat)
    ensures n <= |s| && (n < |s| ==> s[n] == LF) && forall i | 0 <= i < n :: s[i] != LF
  {
    if s == [] || s[0] == LF then 0 else 1 + LineEnd(s[1..])
  }

  /** strings.TrimRight(s, "\r\n"). */
  function TrimNewline(s: Bytes): Bytes {
    if s != [] && (s[|s| - 1] == CR || s[|s| - 1] == LF) then TrimNewline(s[..|s| - 1]) else s
  }

  predicate IsSpace(b: Byte) {
    b == 32 || 9 <= b <= 13
  }

  function TrimLeft(s: Bytes): Bytes {
    if s != [] && IsSpace(s[0]) then TrimLeft(s[1..]) else s
  }

  function TrimRight(s: Bytes): Bytes {
    if s != [] && IsSpace(s[|s| - 1]) then TrimRight(s[..|s| - 1]) else s
  }

  /** What stands before the first semicolon. */
  function BeforeSemicolon(s: Bytes): Bytes {
    if s == [] || s[0] == SEMICOLON then [] else [s[0]] + BeforeSemicolon(s[1..])
  }

  /** The chunk size a line gives. */
  function ChunkSize(line: Bytes): Option<int> {
    ParseInt(TrimRight(TrimLeft(BeforeSemicolon(line))))
  }

  /** A line without its end, and the rest of the input; none when the input ends first or the line is too long. */
  function LineOf(input: Bytes): Option<(Bytes, Bytes)> {
    var n := LineEnd(input);
    if n == |input| || n + 1 > MAX_LINE_LENGTH then None
    else Some((TrimNewline(input[..n + 1]), input[n + 1..]))
  }

  /** Skips lines up to and including an empty one, or to the end of the input. */
  function SkipTrailers(input: Bytes): Bytes
    decreases |input|
  {
    var n := LineEnd(input);
    if n == |input| then []
    else if TrimNewline(input[..n + 1]) == [] then input[n + 1..]
    else SkipTrailers(input[n + 1..])
  }

  // ---------------------------------------------------------------- decoding, as a function

  datatype Problem = BadLine | BadSize | NegativeSize | TooLarge | ShortData | ShortCRLF | MissingCRLF

  datatype Decoded = Body(body: Bytes, rest: Bytes) | Malformed(problem: Problem)

  /** Decodes the chunks of `input` after `body`, which holds what earlier chunks declared. */
  function DecodeAfter(body: Bytes, input: Bytes, maxBytes: int): Decoded
    decreases |input|
  {
    var line := LineOf(input);
    if line.None? then Malformed(BadLine)
    else
      var (text, data) := line.value;
      var size := ChunkSize(text);
      if size.None? then Malformed(BadSize)
      else if size.value == 0 then Body(body, SkipTrailers(data))
      else if size.value < 0 then Malformed(NegativeSize)
      else if |body| + size.value > maxBytes then Malformed(TooLarge)
      else if |data| < size.value then Malformed(ShortData)
      else if |data| < size.value + 2 then Malformed(ShortCRLF)
      else if data[size.value] != CR || data[size.value + 1] != LF then Malformed(MissingCRLF)
      else DecodeAfter(body + data[..size.value], data[size.value + 2..], maxBytes)
  }

  function Decode(input: Bytes, maxBytes: int): Decoded {
    DecodeAfter([], input, maxBytes)
  }

  // ---------------------------------------------------------------- encoding, as a function

  function Chunk(data: Bytes): Bytes {
    Hex(|data|) + [CR, LF] + data + [CR, LF]
  }

  const LAST_CHUNK: Bytes := [48, CR, LF, CR, LF]

  function Chunks(pieces: seq<Bytes>): Bytes {
    if pieces == [] then []
    else if pieces[0] == [] then Chunks(pieces[1..])
    else Chunk(pieces[0]) + Chunks(pieces[1..])
  }

  function Encode(pieces: seq<Bytes>): Bytes {
    Chunks(pieces) + LAST_CHUNK
  }

  function Flatten(pieces: seq<Bytes>): Bytes {
    if pieces == [] then [] else pieces[0] + Flatten(pieces[1..])
  }

  // ---------------------------------------------------------------- hexadecimal round trip

  lemma DigitRoundTrip(d: nat)
    requires d < 16
    ensures DigitValue(Digit(d)) == Some(d)
    ensures Digit(d) != LF && Digit(d) != CR && Digit(d) != SEMICOLON && Digit(d) != 43 && Digit(d) != 45
        && !IsSpace(Digit(d))
  {
  }

  /** Hex digits, and nothing that a line treats specially. */
  ghost predicate Plain(s: Bytes) {
    forall b | b in s :: b != LF && b != CR && b != SEMICOLON && b != 43 && b != 45 && !IsSpace(b)
  }

  lemma {:induction false} HexRoundTrip(n: nat)
    ensures HexValue(Hex(n)) == Some(n) && Plain(Hex(n))
  {
    DigitRoundTrip(n % 16);
    if n >= 16 {
      HexRoundTrip(n / 16);
      var rest := Hex(n / 16);
      assert (rest + [Digit(n % 16)])[..|rest|] == rest;
    }
  }

  lemma {:induction false} HexIsShort(n: nat, digits: nat)
    requires digits >= 1 && n < Power16(digits)
    ensures |Hex(n)| <= digits
    decreases digits
  {
    if n >= 16 {
      assert digits > 1;
      HexIsShort(n / 16, digits - 1);
    }
  }

  function Power16(n: nat): nat {
    if n == 0 then 1 else 16 * Power16(n - 1)
  }

  // ---------------------------------------------------------------- lines round trip

  lemma {:induction false} PlainHasNoSemicolon(s: Bytes)
    requires Plain(s)
    ensures BeforeSemicolon(s) == s
  {
    if s != [] {
      assert s[0] in s && forall b | b in s[1..] :: b in s;
      PlainHasNoSemicolon(s[1..]);
      assert s == [s[0]] + s[1..];
    }
  }

  lemma {:induction false} FirstLineEnd(s: Bytes, rest: Bytes)
    requires forall b | b in s :: b != LF
    ensures LineEnd(s + [LF] + rest) == |s|
  {
    var t := s + [LF] + rest;
    if s != [] {
      assert s[0] in s && forall b | b in s[1..] :: b in s;
      FirstLineEnd(s[1..], rest);
      assert t[1..] == s[1..] + [LF] + rest;
    }
  }

  lemma TrimsNewline(s: Bytes)
    requires s == [] || (s[|s| - 1] != CR && s[|s| - 1] != LF)
    ensures TrimNewline(s + [CR, LF]) == s
  {
    var t := s + [CR, LF];
    assert t[..|t| - 1] == s + [CR];
    assert (s + [CR])[..|s|] == s;
    assert TrimNewline(s) == s;
    assert TrimNewline(s + [CR]) == s;
  }

  /** Lines that survive: without a line feed, not ending in a carriage return, and short enough with their end. */
  ghost predicate IsLineText(s: Bytes) {
    && (forall b | b in s :: b != LF)
    && (s != [] ==> s[|s| - 1] != CR)
    && |s| + 2 <= MAX_LINE_LENGTH
  }

  lemma {:induction false} TrimShortens(s: Bytes)
    ensures |TrimNewline(s)| <= |s|
    ensures s != [] && (s[|s| - 1] == CR || s[|s| - 1] == LF) ==> |TrimNewline(s)| < |s|
  {
    if s != [] && (s[|s| - 1] == CR || s[|s| - 1] == LF) {
      TrimShortens(s[..|s| - 1]);
    }
  }

  lemma WrittenLineIsRead(s: Bytes, rest: Bytes)
    requires IsLineText(s)
    ensures LineOf(s + [CR, LF] + rest) == Some((s, rest))
  {
    var input := s + [CR, LF] + rest;
    assert input == s + [CR] + [LF] + rest;
    FirstLineEnd(s + [CR], rest);
    assert s != [] ==> s[|s| - 1] in s;
    TrimsNewline(s);
    assert input[..|s| + 2] == s + [CR, LF] && input[|s| + 2..] == rest;
  }

  /** The reader takes a line written with its end back off the input if and only if it is such a text. */
  lemma LineRoundTrip(s: Bytes, rest: Bytes)
    ensures LineOf(s + [CR, LF] + rest) == Some((s, rest)) <==> IsLineText(s)
  {
    if IsLineText(s) {
      WrittenLineIsRead(s, rest);
    } else {
      var input := s + [CR, LF] + rest;
      var n := LineEnd(input);
      assert input[|s| + 1] == LF;
      TrimShortens(input[..n + 1]);
      if forall b | b in s :: b != LF {
        assert input == s + [CR] + [LF] + rest;
        FirstLineEnd(s + [CR], rest);
        assert input[..n + 1] == s + [CR] + [LF];
        TrimsTwo(s);
      } else {
        var i :| 0 <= i < |s| && s[i] == LF;
        assert input[i] == LF;
      }
    }
  }

  lemma TrimsTwo(s: Bytes)
    ensures TrimNewline(s + [CR] + [LF]) == TrimNewline(s)
    ensures s != [] && s[|s| - 1] == CR ==> |TrimNewline(s)| < |s|
  {
    var t := s + [CR] + [LF];
    assert t[..|t| - 1] == s + [CR] && (s + [CR])[..|s|] == s;
    TrimShortens(s);
  }

  lemma SizeRoundTrip(n: nat)
    requires n < INT64_LIMIT
    ensures ChunkSize(Hex(n)) == Some(n)
  {
    var h := Hex(n);
    HexRoundTrip(n);
    PlainHasNoSemicolon(h);
    assert h[0] in h && h[|h| - 1] in h;
    assert TrimLeft(h) == h && TrimRight(h) == h;
  }

  // ---------------------------------------------------------------- the round trip

  /** Pieces no longer than the writer's buffer; empty ones are not written. */
  ghost predicate Writable(pieces: seq<Bytes>) {
    forall p | p in pieces :: |p| <= BUFFER_SIZE
  }

  lemma ChunkRoundTrip(body: Bytes, data: Bytes, rest: Bytes, maxBytes: int)
    requires 0 < |data| <= BUFFER_SIZE && |body| + |data| <= maxBytes
    ensures DecodeAfter(body, Chunk(data) + rest, maxBytes) == DecodeAfter(body + data, rest, maxBytes)
  {
    var input, after := Chunk(data) + rest, data + [CR, LF] + rest;
    assert input == Hex(|data|) + [CR, LF] + after;
    HexIsShort(|data|, 4);
    HexRoundTrip(|data|);
    LineRoundTrip(Hex(|data|), after);
    SizeRoundTrip(|data|);
    assert after[..|data|] == data && after[|data| + 2..] == rest;
  }

  lemma LastChunkRoundTrip(body: Bytes, rest: Bytes, maxBytes: int)
    ensures DecodeAfter(body, LAST_CHUNK + rest, maxBytes) == Body(body, rest)
  {
    var input := LAST_CHUNK + rest;
    assert Hex(0) == [48];
    assert input == Hex(0) + [CR, LF] + ([CR, LF] + rest);
    HexRoundTrip(0);
    LineRoundTrip(Hex(0), [CR, LF] + rest);
    SizeRoundTrip(0);
    var data := [CR, LF] + rest;
    assert data == [CR] + [LF] + rest;
    FirstLineEnd([CR], rest);
    TrimsNewline([]);
    assert data[..2] == [] + [CR, LF] && data[2..] == rest;
  }

  lemma {:induction false} RoundTripAfter(body: Bytes, pieces: seq<Bytes>, rest: Bytes, maxBytes: int)
    requires Writable(pieces) && |body| + |Flatten(pieces)| <= maxBytes
    ensures DecodeAfter(body, Encode(pieces) + rest, maxBytes) == Body(body + Flatten(pieces), rest)
    decreases |pieces|
  {
    hide DecodeAfter;
    hide Chunk;
    if pieces == [] {
      assert Encode(pieces) == LAST_CHUNK;
      assert body + Flatten(pieces) == body;
      LastChunkRoundTrip(body, rest, maxBytes);
    } else {
      var first, others := pieces[0], pieces[1..];
      assert first in pieces && forall p | p in others :: p in pieces;
      assert body + first + Flatten(others) == body + Flatten(pieces);
      RoundTripAfter(body + first, others, rest, maxBytes);
      FirstPiece(pieces, rest);
      if first == [] {
        assert body + first == body && [] + (Encode(others) + rest) == Encode(others) + rest;
      } else {
        ChunkRoundTrip(body, first, Encode(others) + rest, maxBytes);
      }
    }
  }

  lemma FirstPiece(pieces: seq<Bytes>, rest: Bytes)
    requires pieces != []
    ensures Encode(pieces) + rest
         == (if pieces[0] == [] then [] else Chunk(pieces[0])) + (Encode(pieces[1..]) + rest)
  {
    hide Chunk;
    assert pieces[0] == [] ==> [] + (Encode(pieces[1..]) + rest) == Encode(pieces) + rest;
    assert pieces[0] != [] ==> Chunk(pieces[0]) + (Encode(pieces[1..]) + rest) == Encode(pieces) + rest;
  }

  /** Decoding what the writer wrote gives the bytes back and stops exactly behind it. */
  lemma RoundTrip(pieces: seq<Bytes>, rest: Bytes, maxBytes: int)
    requires Writable(pieces) && |Flatten(pieces)| <= maxBytes
    ensures Decode(Encode(pieces) + rest, maxBytes) == Body(Flatten(pieces), rest)
  {
    RoundTripAfter([], pieces, rest, maxBytes);
  }

  /** How the bytes are cut makes no difference. */
  lemma CuttingDoesNotMatter(a: seq<Bytes>, b: seq<Bytes>, rest: Bytes, maxBytes: int)
    requires Writable(a) && Writable(b) && Flatten(a) == Flatten(b) && |Flatten(a)| <= maxBytes
    ensures Decode(Encode(a) + rest, maxBytes) == Decode(Encode(b) + rest, maxBytes)
  {
    RoundTrip(a, rest, maxBytes);
    RoundTrip(b, rest, maxBytes);
  }

  // ---------------------------------------------------------------- what the decoder accepts

  /** A chunk as it stands on the wire: its line, line feed included, and its data. */
  datatype WireChunk = WireChunk(line: Bytes, data: Bytes)

  /** A whole line that gives this size. */
  ghost predicate IsSizeLine(line: Bytes, size: int) {
    LineOf(line).Some? && LineOf(line).value.1 == [] && ChunkSize(LineOf(line).value.0) == Some(size)
  }

  ghost predicate IsChunk(c: WireChunk) {
    c.data != [] && IsSizeLine(c.line, |c.data|)
  }

  function OnWire(chunks: seq<WireChunk>): Bytes {
    if chunks == [] then [] else chunks[0].line + chunks[0].data + [CR, LF] + OnWire(chunks[1..])
  }

  function DataOf(chunks: seq<WireChunk>): Bytes {
    if chunks == [] then [] else chunks[0].data + DataOf(chunks[1..])
  }

  /** The input is chunks of these data, a last chunk of size 0, and a tail of trailer lines and whatever follows. */
  ghost predicate IsMessage(input: Bytes, chunks: seq<WireChunk>, last: Bytes, tail: Bytes) {
    && (forall c | c in chunks :: IsChunk(c))
    && IsSizeLine(last, 0)
    && input == OnWire(chunks) + last + tail
  }

  lemma {:induction false} LineEndExtends(s: Bytes, rest: Bytes)
    requires LineEnd(s) < |s|
    ensures LineEnd(s + rest) == LineEnd(s)
  {
    if s[0] != LF {
      LineEndExtends(s[1..], rest);
      assert (s + rest)[1..] == s[1..] + rest;
    }
  }

  lemma LineExtends(line: Bytes, rest: Bytes)
    requires LineOf(line).Some? && LineOf(line).value.1 == []
    ensures LineOf(line + rest) == Some((LineOf(line).value.0, rest))
  {
    var n := LineEnd(line);
    LineEndExtends(line, rest);
    assert n + 1 == |line|;
    assert (line + rest)[..n + 1] == line == line[..n + 1] && (line + rest)[n + 1..] == rest;
  }

  /** One chunk is taken off the input. */
  lemma TakesChunk(body: Bytes, c: WireChunk, rest: Bytes, maxBytes: int)
    requires IsChunk(c) && |body| + |c.data| <= maxBytes
    ensures DecodeAfter(body, c.line + c.data + [CR, LF] + rest, maxBytes) == DecodeAfter(body + c.data, rest, maxBytes)
  {
    var after := c.data + [CR, LF] + rest;
    assert c.line + c.data + [CR, LF] + rest == c.line + after;
    LineExtends(c.line, after);
    assert after[..|c.data|] == c.data && after[|c.data| + 2..] == rest;
  }

  lemma FirstOnWire(body: Bytes, chunks: seq<WireChunk>, last: Bytes, tail: Bytes)
    requires chunks != []
    ensures var c, others := chunks[0], chunks[1..];
            && OnWire(chunks) + last + tail == c.line + c.data + [CR, LF] + (OnWire(others) + last + tail)
            && body + c.data + DataOf(others) == body + DataOf(chunks)
            && |body| + |c.data| <= |body + DataOf(chunks)|
  {
    var c, others := chunks[0], chunks[1..];
    var wire, data := OnWire(others), DataOf(others);
    assert OnWire(chunks) == c.line + c.data + [CR, LF] + wire && DataOf(chunks) == c.data + data;
    hide OnWire;
    hide DataOf;
    Joined(body, c.data, data, []);
    Joined(c.line + c.data + [CR, LF], wire, last, tail);
  }

  lemma Joined(a: Bytes, b: Bytes, c: Bytes, d: Bytes)
    ensures a + b + c + d == a + (b + c + d) && a + b + c == a + (b + c)
  {
  }

  lemma {:induction false} AcceptsAfter(body: Bytes, chunks: seq<WireChunk>, last: Bytes, tail: Bytes, maxBytes: int)
    requires (forall c | c in chunks :: IsChunk(c)) && IsSizeLine(last, 0)
    requires |body + DataOf(chunks)| <= maxBytes || chunks == []
    ensures DecodeAfter(body, OnWire(chunks) + last + tail, maxBytes) == Body(body + DataOf(chunks), SkipTrailers(tail))
    decreases |chunks|
  {
    if chunks == [] {
      assert OnWire(chunks) + last + tail == last + tail && body + DataOf(chunks) == body;
      LineExtends(last, tail);
    } else {
      hide DecodeAfter;
      hide SkipTrailers;
      hide IsChunk;
      var c, others := chunks[0], chunks[1..];
      assert c in chunks && forall d | d in others :: d in chunks;
      var rest := OnWire(others) + last + tail;
      FirstOnWire(body, chunks, last, tail);
      TakesChunk(body, c, rest, maxBytes);
      AcceptsAfter(body + c.data, others, last, tail, maxBytes);
    }
  }

  /** The first line of an input, line feed included. */
  lemma LineSplits(input: Bytes) returns (line: Bytes)
    requires LineOf(input).Some?
    ensures LineOf(line) == Some((LineOf(input).value.0, [])) && input == line + LineOf(input).value.1
    ensures forall size | ChunkSize(LineOf(input).value.0) == Some(size) :: IsSizeLine(line, size)
  {
    var n := LineEnd(input);
    line := input[..n + 1];
    LineEndOfPrefix(input, n + 1);
    assert line[..n + 1] == line && line[n + 1..] == [];
  }

  lemma {:induction false} LineEndOfPrefix(s: Bytes, n: nat)
    requires LineEnd(s) < n <= |s|
    ensures LineEnd(s[..n]) == LineEnd(s)
  {
    if s[0] != LF {
      LineEndOfPrefix(s[1..], n - 1);
      assert s[..n][1..] == s[1..][..n - 1];
    }
  }

  lemma {:induction false} AcceptedAfter(body: Bytes, input: Bytes, maxBytes: int)
    returns (chunks: seq<WireChunk>, last: Bytes, tail: Bytes)
    requires DecodeAfter(body, input, maxBytes).Body?
    ensures IsMessage(input, chunks, last, tail)
    ensures |body + DataOf(chunks)| <= maxBytes || chunks == []
    ensures DecodeAfter(body, input, maxBytes) == Body(body + DataOf(chunks), SkipTrailers(tail))
    decreases |input|
  {
    hide *;
    DecodesFirstChunk(body, input, maxBytes);
    var line := LineSplits(input);
    var data := LineOf(input).value.1;
    var size := ChunkSize(LineOf(input).value.0).value;
    if size == 0 {
      chunks, last, tail := [], line, data;
      LastChunkOnly(body, line, data);
    } else {
      var others;
      others, last, tail := AcceptedAfter(body + data[..size], data[size + 2..], maxBytes);
      chunks := [WireChunk(line, data[..size])] + others;
      OneChunkMore(body, line, data, size, others, last, tail);
    }
  }

  lemma DecodesFirstChunk(body: Bytes, input: Bytes, maxBytes: int)
    requires DecodeAfter(body, input, maxBytes).Body?
    ensures LineOf(input).Some? && |LineOf(input).value.1| < |input| && ChunkSize(LineOf(input).value.0).Some?
    ensures var data, size := LineOf(input).value.1, ChunkSize(LineOf(input).value.0).value;
            && size >= 0
            && (size == 0 ==> DecodeAfter(body, input, maxBytes) == Body(body, SkipTrailers(data)))
            && (size > 0 ==>
                 && |body| + size <= maxBytes && size + 2 <= |data| && data[size] == CR && data[size + 1] == LF
                 && DecodeAfter(body, input, maxBytes) == DecodeAfter(body + data[..size], data[size + 2..], maxBytes))
  {
    LineShortens(input);
    hide LineOf;
    hide ChunkSize;
    hide SkipTrailers;
  }

  lemma LastChunkOnly(body: Bytes, last: Bytes, tail: Bytes)
    requires IsSizeLine(last, 0)
    ensures IsMessage(last + tail, [], last, tail) && body + DataOf([]) == body
  {
    hide IsSizeLine;
    assert OnWire([]) + last + tail == last + tail;
  }

  lemma OneChunkMore(body: Bytes, line: Bytes, data: Bytes, size: nat, others: seq<WireChunk>, last: Bytes, tail: Bytes)
    requires 0 < size && size + 2 <= |data| && data[size] == CR && data[size + 1] == LF
    requires IsSizeLine(line, size) && IsMessage(data[size + 2..], others, last, tail)
    ensures var chunks := [WireChunk(line, data[..size])] + others;
            IsMessage(line + data, chunks, last, tail) && body + data[..size] + DataOf(others) == body + DataOf(chunks)
    ensures others == [] ==> body + DataOf([WireChunk(line, data[..size])] + others) == body + data[..size]
  {
    hide IsSizeLine;
    var c, rest := WireChunk(line, data[..size]), data[size + 2..];
    assert rest == OnWire(others) + last + tail;
    MessageWithOneMore(c, others, last, tail);
    hide OnWire;
    hide DataOf;
    hide IsMessage;
    assert data == c.data + [CR, LF] + rest;
    assert line + data == c.line + c.data + [CR, LF] + rest;
    assert body + c.data + DataOf(others) == body + (c.data + DataOf(others));
  }

  lemma MessageWithOneMore(c: WireChunk, others: seq<WireChunk>, last: Bytes, tail: Bytes)
    requires IsChunk(c) && IsMessage(OnWire(others) + last + tail, others, last, tail)
    ensures IsMessage(c.line + c.data + [CR, LF] + (OnWire(others) + last + tail), [c] + others, last, tail)
    ensures DataOf([c] + others) == c.data + DataOf(others)
  {
    hide IsChunk;
    hide IsSizeLine;
    assert ([c] + others)[1..] == others;
    assert OnWire([c] + others) + last + tail == c.line + c.data + [CR, LF] + (OnWire(others) + last + tail);
  }

  /** The decoder accepts exactly the messages whose data fit, gives their data, and stops behind the trailers. */
  lemma DecodesExactlyMessages(input: Bytes, maxBytes: int, body: Bytes, rest: Bytes)
    ensures Decode(input, maxBytes) == Body(body, rest)
       <==> exists chunks, last, tail ::
              && IsMessage(input, chunks, last, tail) && (|body| <= maxBytes || chunks == [])
              && body == DataOf(chunks) && rest == SkipTrailers(tail)
  {
    if Decode(input, maxBytes) == Body(body, rest) {
      var chunks, last, tail := AcceptedAfter([], input, maxBytes);
      assert [] + DataOf(chunks) == DataOf(chunks);
    }
    forall chunks, last, tail | IsMessage(input, chunks, last, tail) && (|DataOf(chunks)| <= maxBytes || chunks == [])
      ensures Decode(input, maxBytes) == Body(DataOf(chunks), SkipTrailers(tail))
    {
      assert [] + DataOf(chunks) == DataOf(chunks);
      AcceptsAfter([], chunks, last, tail, maxBytes);
    }
  }

  // ---------------------------------------------------------------- the reader

  lemma LineEndFrom(input: Bytes, n: nat)
    requires n < |input|
    ensures LineEnd(input[n..]) == if input[n] == LF then 0 else 1 + LineEnd(input[n + 1..])
    ensures input[..n + 1] == input[..n] + [input[n]] && input[n + 1..] == input[n..][1..]
  {
  }

  /** The chunk size a line gives: cut at a semicolon, trimmed, and parsed. */
  method ParseSize(line: Bytes) returns (size: Option<int>)
    ensures size == ChunkSize(line)
  {
    var chunkSizeStr := BeforeSemicolon(line);
    chunkSizeStr := TrimRight(TrimLeft(chunkSizeStr));
    return ParseInt(chunkSizeStr);
  }

  lemma LineShortens(input: Bytes)
    ensures LineOf(input).Some? ==> |LineOf(input).value.1| < |input|
  {
  }

  datatype Result = Done(body: Bytes) | Failed(problem: Problem)

  class Reader {
    var rest: Bytes   // what has not been read yet

    constructor (input: Bytes)
      ensures rest == input
    {
      rest := input;
    }

    /** Reads through the next line feed; to the end of the input if there is none. */
    method ReadString() returns (line: Bytes, ok: bool)
      modifies this
      ensures ok <==> LineEnd(old(rest)) < |old(rest)|
      ensures if ok then line == old(rest)[..LineEnd(old(rest)) + 1] && rest == old(rest)[LineEnd(old(rest)) + 1..]
              else line == old(rest) && rest == []
    {
      line := [];
      ghost var input, n := rest, 0;
      assert input[0..] == input && input[..0] == [];
      while rest != []
        invariant n <= |input| && line == input[..n] && rest == input[n..]
        invariant LineEnd(input) == n + LineEnd(rest)
        decreases |rest|
      {
        var b := rest[0];
        LineEndFrom(input, n);
        hide LineEnd;
        line := line + [b];
        rest := rest[1..];
        n := n + 1;
        if b == LF {
          return line, true;
        }
      }
      return line, false;
    }

    method ReadLine() returns (r: Option<Bytes>)
      modifies this
      ensures r == (if LineOf(old(rest)).Some? then Some(LineOf(old(rest)).value.0) else None)
      ensures r.Some? ==> rest == LineOf(old(rest)).value.1
    {
      var line, ok := ReadString();
      if !ok {
        return None;
      }
      if |line| > MAX_LINE_LENGTH {
        return None;
      }
      return Some(TrimNewline(line));
    }

    /** Fills `dst` from `from` to `to`, or reports that the input ends first. */
    method ReadFull(dst: array<Byte>, from: nat, to: nat) returns (ok: bool)
      requires from <= to <= dst.Length
      modifies this, dst
      ensures ok <==> |old(rest)| >= to - from
      ensures ok ==> dst[from..to] == old(rest)[..to - from] && rest == old(rest)[to - from..]
      ensures dst[..from] == old(dst[..from])
    {
      var at := from;
      ghost var input := rest;
      while at < to && rest != []
        invariant from <= at <= to && at - from <= |input| && rest == input[at - from..]
        invariant forall j | 0 <= j < at :: dst[j] == if j < from then old(dst[j]) else input[j - from]
      {
        dst[at] := rest[0];
        rest := rest[1..];
        at := at + 1;
      }
      assert dst[from..at] == input[..at - from];
      return at == to;
    }

    method ReadTrailerHeaders()
      modifies this
      ensures rest == SkipTrailers(old(rest))
    {
      while true
        invariant SkipTrailers(rest) == SkipTrailers(old(rest))
        decreases |rest|
      {
        var line, ok := ReadString();
        if !ok {
          return;
        }
        if TrimNewline(line) == [] {
          return;
        }
      }
    }

    /** A larger buffer with the same beginning. */
    method Grow(body: array<Byte>, length: nat, total: nat) returns (bigger: array<Byte>)
      requires length <= body.Length
      ensures fresh(bigger) && bigger.Length == (if body.Length * 2 < total then total else body.Length * 2)
      ensures length <= bigger.Length && bigger[..length] == body[..length]
    {
      var newCap := body.Length * 2;
      if newCap < total {
        newCap := total;
      }
      bigger := new Byte[newCap](i => 0);
      forall i | 0 <= i < length {
        bigger[i] := body[i];
      }
    }

    /** Reads the data of one chunk into the buffer, and the line end behind it. */
    method ReadData(body: array<Byte>, length: nat, size: nat, crlf: array<Byte>) returns (problem: Option<Problem>)
      requires length + size <= body.Length && crlf.Length == 2 && crlf != body
      modifies this, body, crlf
      ensures var data := old(rest);
              problem == if |data| < size then Some(ShortData)
                         else if |data| < size + 2 then Some(ShortCRLF)
                         else if data[size] != CR || data[size + 1] != LF then Some(MissingCRLF)
                         else None
      ensures problem == None ==>
                body[..length + size] == old(body[..length]) + old(rest)[..size] && rest == old(rest)[size + 2..]
    {
      ghost var data := rest;
      var ok := ReadFull(body, length, length + size);
      if !ok {
        return Some(ShortData);
      }
      assert body[..length + size] == body[..length] + body[length..length + size];
      ok := ReadFull(crlf, 0, 2);
      if !ok {
        return Some(ShortCRLF);
      }
      assert crlf[0..2][0] == crlf[0] && crlf[0..2][1] == crlf[1];
      if crlf[0] != CR || crlf[1] != LF {
        return Some(MissingCRLF);
      }
      return None;
    }

    /** Reads a chunked body. `declared` is the sum of the chunk sizes that were accepted, `capacity` the
        final size of the buffer, and `copied` how many bytes all regrowths together have moved. */
    method ReadChunkedBody(maxBytes: int) returns (r: Result, ghost declared: nat, ghost capacity: nat,
        ghost copied: nat)
      modifies this
      ensures match Decode(old(rest), maxBytes)
              case Body(body, behind) => r == Done(body) && rest == behind && declared == |body|
              case Malformed(problem) => r == Failed(problem)
      ensures declared > 0 ==> declared <= maxBytes
      ensures capacity <= 2 * declared && copied <= 2 * declared
    {
      hide LineOf;
      hide ChunkSize;
      hide SkipTrailers;
      var body := new Byte[0];
      var length, total := 0, 0;
      var crlf := new Byte[2](i => 0);
      declared, capacity, copied := 0, 0, 0;
      assert body[..length] == [];
      while true
        invariant length == total == declared <= body.Length == capacity
        invariant declared > 0 ==> declared <= maxBytes
        invariant fresh(body) && fresh(crlf) && crlf.Length == 2 && body != crlf
        invariant Decode(old(rest), maxBytes) == DecodeAfter(body[..length], rest, maxBytes)
        invariant capacity <= 2 * declared && copied <= capacity && copied <= 2 * declared
        decreases |rest|
      {
        LineShortens(rest);
        var line := ReadLine();
        if line.None? {
          return Failed(BadLine), declared, capacity, copied;
        }
        var chunkSize := ParseSize(line.value);
        if chunkSize.None? {
          return Failed(BadSize), declared, capacity, copied;
        }
        var size := chunkSize.value;
        if size == 0 {
          ReadTrailerHeaders();
          return Done(body[..length]), declared, capacity, copied;
        }
        if size < 0 {
          return Failed(NegativeSize), declared, capacity, copied;
        }
        total := total + size;
        if total > maxBytes {
          return Failed(TooLarge), declared, capacity, copied;
        }
        declared := total;
        if body.Length - length < size {
          copied := copied + length;
          body := Grow(body, length, total);
          capacity := body.Length;
        }
        var problem := ReadData(body, length, size, crlf);
        if problem.Some? {
          return Failed(problem.value), declared, capacity, copied;
        }
        length := length + size;
      }
    }
  }

  // ---------------------------------------------------------------- a message cut short

  lemma {:induction false} NoLineEnd(s: Bytes)
    requires forall b | b in s :: b != LF
    ensures LineEnd(s) == |s|
  {
    if s != [] {
      assert s[0] in s && forall b | b in s[1..] :: b in s;
      NoLineEnd(s[1..]);
    }
  }

  /** A chunk that is cut short anywhere is malformed. */
  lemma CutChunk(body: Bytes, data: Bytes, n: nat, maxBytes: int)
    requires 0 < |data| <= BUFFER_SIZE && |body| + |data| <= maxBytes && n < |Chunk(data)|
    ensures DecodeAfter(body, Chunk(data)[..n], maxBytes).Malformed?
  {
    var h, after := Hex(|data|), data + [CR, LF];
    HexIsShort(|data|, 4);
    HexRoundTrip(|data|);
    SizeRoundTrip(|data|);
    assert Chunk(data) == h + [CR, LF] + after;
    hide Hex;
    hide HexValue;
    hide ChunkSize;
    if n < |h| + 2 {
      CutLine(h, after, n);
    } else {
      var m := n - |h| - 2;
      assert Chunk(data)[..n] == h + [CR, LF] + after[..m];
      LineRoundTrip(h, after[..m]);
    }
  }

  lemma CutLine(h: Bytes, after: Bytes, n: nat)
    requires Plain(h) && n < |h| + 2
    ensures LineOf((h + [CR, LF] + after)[..n]) == None
  {
    var cut := (h + [CR, LF] + after)[..n];
    forall b | b in cut
      ensures b != LF
    {
      var i :| 0 <= i < n && cut[i] == b;
      assert i < |h| ==> b == h[i] && b in h;
    }
    NoLineEnd(cut);
  }

  /** A last chunk that lacks no more than its final two bytes ends the body; any other cut is malformed. */
  lemma CutLastChunk(body: Bytes, n: nat, maxBytes: int)
    requires n <= |LAST_CHUNK|
    ensures if n >= 3 then DecodeAfter(body, LAST_CHUNK[..n], maxBytes) == Body(body, [])
            else DecodeAfter(body, LAST_CHUNK[..n], maxBytes).Malformed?
  {
    HexRoundTrip(0);
    SizeRoundTrip(0);
    assert Hex(0) == [48];
    assert LAST_CHUNK == Hex(0) + [CR, LF] + [CR, LF];
    hide Hex;
    hide HexValue;
    hide ChunkSize;
    if n < 3 {
      CutLine(Hex(0), [CR, LF], n);
    } else {
      var tail: Bytes := [CR, LF][..n - 3];
      assert LAST_CHUNK[..n] == Hex(0) + [CR, LF] + tail;
      LineRoundTrip(Hex(0), tail);
      CutTrailer(n - 3);
    }
  }

  lemma CutTrailer(m: nat)
    requires m <= 2
    ensures SkipTrailers([CR, LF][..m]) == []
  {
    var tail: Bytes := [CR, LF][..m];
    if m < 2 {
      assert forall b | b in tail :: b != LF;
      NoLineEnd(tail);
    } else {
      assert tail == [CR] + [LF] + [];
      FirstLineEnd([CR], []);
      TrimsNewline([]);
      assert tail[..2] == [] + [CR, LF];
    }
  }

  lemma {:induction false} CutAfter(body: Bytes, pieces: seq<Bytes>, n: nat, maxBytes: int)
    requires Writable(pieces) && |body| + |Flatten(pieces)| <= maxBytes && n <= |Encode(pieces)|
    ensures var r := DecodeAfter(body, Encode(pieces)[..n], maxBytes);
            if n >= |Encode(pieces)| - 2 then r == Body(body + Flatten(pieces), []) else r.Malformed?
    decreases |pieces|
  {
    hide DecodeAfter;
    hide Chunk;
    if pieces == [] {
      assert Encode(pieces) == LAST_CHUNK && body + Flatten(pieces) == body;
      CutLastChunk(body, n, maxBytes);
    } else {
      var first, others := pieces[0], pieces[1..];
      var chunk := if first == [] then [] else Chunk(first);
      assert first in pieces && forall p | p in others :: p in pieces;
      assert body + first + Flatten(others) == body + Flatten(pieces);
      FirstPiece(pieces, []);
      assert Encode(pieces) == chunk + Encode(others);
      hide Encode;
      hide Flatten;
      if n < |chunk| {
        assert (chunk + Encode(others))[..n] == chunk[..n];
        CutChunk(body, first, n, maxBytes);
      } else {
        assert (chunk + Encode(others))[..n] == chunk + Encode(others)[..n - |chunk|];
        CutAfter(body + first, others, n - |chunk|, maxBytes);
        if first == [] {
          assert body + first == body && chunk + Encode(others)[..n] == Encode(others)[..n];
        } else {
          ChunkRoundTrip(body, first, Encode(others)[..n - |chunk|], maxBytes);
        }
      }
    }
  }

  /** However short a written message is cut, a reader never takes part of the data for the whole: it gets everything, when
      at most the final line end is missing, or reports the message as malformed. */
  lemma CutMessage(pieces: seq<Bytes>, n: nat, maxBytes: int)
    requires Writable(pieces) && |Flatten(pieces)| <= maxBytes && n <= |Encode(pieces)|
    ensures var r := Decode(Encode(pieces)[..n], maxBytes);
            if n >= |Encode(pieces)| - 2 then r == Body(Flatten(pieces), []) else r.Malformed?
  {
    assert [] + Flatten(pieces) == Flatten(pieces);
    CutAfter([], pieces, n, maxBytes);
  }

  // ---------------------------------------------------------------- the writer

  /** `out` is `before` and a beginning of `data`. */
  ghost predicate Began(before: Bytes, data: Bytes, out: Bytes) {
    before <= out <= before + data
  }

  lemma BeganFirst(before: Bytes, a: Bytes, b: Bytes, out: Bytes)
    requires Began(before, a, out)
    ensures Began(before, a + b, out)
  {
    assert before + a + b == before + (a + b);
    assert before + a <= before + a + b;
  }

  lemma BeganSecond(before: Bytes, a: Bytes, b: Bytes, out: Bytes)
    requires Began(before + a, b, out)
    ensures Began(before, a + b, out)
  {
    assert before + a + b == before + (a + b);
    assert before <= before + a;
  }

  lemma BeganAll(before: Bytes, data: Bytes)
    ensures Began(before, data, before + data)
  {
  }

  lemma Associate(a: Bytes, b: Bytes, c: Bytes)
    ensures a + b + c == a + (b + c)
  {
  }

  lemma NoBytes(b: Bytes)
    ensures b + [] == b && [] + b == b
  {
  }

  /** Where the writer writes. The n-th write of its life fails after `fails(n)` bytes, or succeeds if that is none. */
  class Sink {
    var out: Bytes
    var writes: nat
    const fails: nat -> Option<nat>

    constructor (fails: nat -> Option<nat>)
      ensures out == [] && writes == 0 && this.fails == fails
    {
      out, writes, this.fails := [], 0, fails;
    }

    /** The next n writes succeed. */
    predicate Takes(from: nat, n: nat)
    {
      forall i | from <= i < from + n :: fails(i).None?
    }

    method Write(data: Bytes) returns (ok: bool)
      modifies this
      ensures writes == old(writes) + 1 && (ok <==> fails(old(writes)).None?)
      ensures if ok then out == old(out) + data else Began(old(out), data, out)
    {
      var fault := fails(writes);
      writes := writes + 1;
      ok := fault.None?;
      var n := if ok || fault.value > |data| then |data| else fault.value;
      out := out + data[..n];
    }
  }

  /** One call of Read: the bytes it put into the buffer, and how it ended. */
  datatype Read = Read(data: Bytes, end: ReadEnd)

  datatype ReadEnd = More | EndOfStream | Broken

  /** The pieces a source gives before it ends; a source that runs out has ended. */
  function Pieces(src: seq<Read>): seq<Bytes> {
    if src == [] then []
    else [src[0].data] + (if src[0].end.More? then Pieces(src[1..]) else [])
  }

  predicate Breaks(src: seq<Read>) {
    src != [] && (src[0].end.Broken? || (src[0].end.More? && Breaks(src[1..])))
  }

  /** What is to be written for a source: the chunks it gives, and the last chunk unless it breaks. */
  function Written(src: seq<Read>): Bytes {
    if Breaks(src) then Chunks(Pieces(src)) else Encode(Pieces(src))
  }

  /** In how many writes: three for each nonempty piece, and one for the last chunk. */
  function WritesFor(src: seq<Read>): nat {
    if src == [] then 1
    else
      (if src[0].data == [] then 0 else 3)
      + match src[0].end
        case More => WritesFor(src[1..])
        case EndOfStream => 1
        case Broken => 0
  }

  method NewBuffer() returns (buf: array<Byte>)
    ensures fresh(buf) && buf.Length == BUFFER_SIZE
  {
    buf := new Byte[BUFFER_SIZE](i => 0);
  }

  /** What a read does to the buffer. */
  method FillBuffer(buf: array<Byte>, data: Bytes)
    requires |data| <= buf.Length
    modifies buf
    ensures buf[..|data|] == data
  {
    forall j | 0 <= j < |data| {
      buf[j] := data[j];
    }
  }

  /** Writes one chunk out of the first `n` bytes of the buffer; up to the first write that fails. */
  method WriteChunk(dst: Sink, buf: array<Byte>, n: nat) returns (ok: bool)
    requires n <= buf.Length
    modifies dst
    ensures ok <==> dst.Takes(old(dst.writes), 3)
    ensures if ok then dst.out == old(dst.out) + Chunk(buf[..n]) && dst.writes == old(dst.writes) + 3
            else Began(old(dst.out), Chunk(buf[..n]), dst.out)
  {
    ghost var before, line, data := dst.out, Hex(n) + [CR, LF], buf[..n];
    assert Chunk(data) == line + data + [CR, LF];
    hide Began;
    hide Hex;
    hide Chunk;
    ok := dst.Write(Hex(n) + [CR, LF]);
    if !ok {
      BeganFirst(before, line, data, dst.out);
      BeganFirst(before, line + data, [CR, LF], dst.out);
      return false;
    }
    ok := dst.Write(buf[..n]);
    if !ok {
      BeganSecond(before, line, data, dst.out);
      BeganFirst(before, line + data, [CR, LF], dst.out);
      return false;
    }
    Associate(before, line, data);
    ok := dst.Write([CR, LF]);
    if !ok {
      BeganSecond(before, line + data, [CR, LF], dst.out);
      return false;
    }
    Associate(before, line + data, [CR, LF]);
    return true;
  }

  /** Copies a source out in chunks. It succeeds exactly if the source does not break and no write fails; what is written
      is then the whole message, and otherwise a beginning of it. */
  method WriteChunkedStream(dst: Sink, src: seq<Read>) returns (ok: bool)
    requires forall r | r in src :: |r.data| <= BUFFER_SIZE
    modifies dst
    ensures ok <==> !Breaks(src) && dst.Takes(old(dst.writes), WritesFor(src))
    ensures dst.Takes(old(dst.writes), WritesFor(src)) ==> dst.out == old(dst.out) + Written(src)
    ensures Began(old(dst.out), Written(src), dst.out)
  {
    hide Chunk;
    hide Written;
    hide WritesFor;
    hide Breaks;
    hide Began;
    var buf := NewBuffer();
    hide BUFFER_SIZE;
    var i := 0;
    ghost var before, sent := dst.out, [];
    assert src[0..] == src;
    NoBytes(before);
    NoBytes(Written(src));
    while i < |src|
      invariant i <= |src| && fresh(buf) && buf.Length == BUFFER_SIZE
      invariant Breaks(src) == Breaks(src[i..])
      invariant dst.out == before + sent && Written(src) == sent + Written(src[i..])
      invariant dst.writes + WritesFor(src[i..]) == old(dst.writes) + WritesFor(src)
      invariant old(dst.writes) <= dst.writes && dst.Takes(old(dst.writes), dst.writes - old(dst.writes))
    {
      var n := |src[i].data|;
      assert src[i] in src;
      FillBuffer(buf, src[i].data);
      ghost var rest := Left(src, i);
      NextRead(src, i);
      NextWrites(src, i);
      if n > 0 {
        ghost var chunk := Chunk(src[i].data);
        var written := WriteChunk(dst, buf, n);
        if !written {
          BeganFirst(before + sent, chunk, rest, dst.out);
          BeganSecond(before, sent, chunk + rest, dst.out);
          return false;
        }
        Associate(before, sent, chunk);
        Associate(sent, chunk, rest);
        sent := sent + chunk;
      }
      if !src[i].end.More? {
        if src[i].end.EndOfStream? {
          break;
        }
        NoBytes(sent);
        BeganAll(before, sent);
        return false;
      }
      i := i + 1;
    }
    if i == |src| {
      NothingToRead(src);
    }
    ok := dst.Write(LAST_CHUNK);
    Associate(before, sent, LAST_CHUNK);
    if ok {
      BeganAll(before, sent + LAST_CHUNK);
    } else {
      BeganSecond(before, sent, LAST_CHUNK, dst.out);
    }
  }


  /** What is left to be written after the chunk of the i-th read. */
  function Left(src: seq<Read>, i: nat): Bytes
    requires i < |src|
  {
    match src[i].end
    case More => Written(src[i + 1..])
    case EndOfStream => LAST_CHUNK
    case Broken => []
  }

  /** What is left to be written before and after the i-th read. */
  lemma NextRead(src: seq<Read>, i: nat)
    requires i < |src|
    ensures Breaks(src[i..]) == (src[i].end.Broken? || (src[i].end.More? && Breaks(src[i + 1..])))
    ensures Written(src[i..]) == if src[i].data == [] then Left(src, i) else Chunk(src[i].data) + Left(src, i)
  {
    var rest := if src[i].end.More? then Pieces(src[i + 1..]) else [];
    var first := if src[i].data == [] then [] else Chunk(src[i].data);
    ReadUnfolds(src, i);
    FirstChunk(src[i].data, rest);
    assert Chunks([]) == [] && Encode(Pieces(src[i..])) == first + Chunks(rest) + LAST_CHUNK;
    assert Encode(rest) == Chunks(rest) + LAST_CHUNK;
    hide Chunk;
    hide Chunks;
    hide Pieces;
    hide Breaks;
    hide Encode;
    Associate(first, Chunks(rest), LAST_CHUNK);
    NoBytes(first);
    NoBytes(Chunks(rest));
    NoBytes(LAST_CHUNK);
    NoBytes(Chunks(rest) + LAST_CHUNK);
  }

  lemma ReadUnfolds(src: seq<Read>, i: nat)
    requires i < |src|
    ensures Pieces(src[i..]) == [src[i].data] + (if src[i].end.More? then Pieces(src[i + 1..]) else [])
    ensures Breaks(src[i..]) == (src[i].end.Broken? || (src[i].end.More? && Breaks(src[i + 1..])))
  {
    assert src[i..][1..] == src[i + 1..];
  }

  lemma NextWrites(src: seq<Read>, i: nat)
    requires i < |src|
    ensures WritesFor(src[i..])
         == (if src[i].data == [] then 0 else 3)
            + (if src[i].end.More? then WritesFor(src[i + 1..]) else if src[i].end.EndOfStream? then 1 else 0)
  {
    assert src[i..][1..] == src[i + 1..];
  }

  lemma FirstChunk(data: Bytes, rest: seq<Bytes>)
    ensures Chunks([data] + rest) == (if data == [] then [] else Chunk(data)) + Chunks(rest)
  {
    hide Chunk;
    assert ([data] + rest)[1..] == rest;
    assert [] + Chunks(rest) == Chunks(rest);
  }

  lemma NothingToRead(src: seq<Read>)
    ensures Written(src[|src|..]) == LAST_CHUNK && !Breaks(src[|src|..]) && WritesFor(src[|src|..]) == 1
  {
    NoBytes(LAST_CHUNK);
  }

  lemma {:induction false} PiecesFit(src: seq<Read>)
    requires forall r | r in src :: |r.data| <= BUFFER_SIZE
    ensures Writable(Pieces(src))
  {
    if src != [] {
      assert src[0] in src && forall r | r in src[1..] :: r in src;
      PiecesFit(src[1..]);
    }
  }

  lemma {:induction false} UnfinishedAfter(body: Bytes, pieces: seq<Bytes>, maxBytes: int)
    requires Writable(pieces) && |body| + |Flatten(pieces)| <= maxBytes
    ensures DecodeAfter(body, Chunks(pieces), maxBytes) == Malformed(BadLine)
    decreases |pieces|
  {
    if pieces == [] {
      assert LineOf([]) == None;
    } else {
      hide DecodeAfter;
      hide Chunk;
      var first, others := pieces[0], pieces[1..];
      assert first in pieces && forall p | p in others :: p in pieces;
      UnfinishedAfter(body + first, others, maxBytes);
      if first == [] {
        assert body + first == body;
      } else {
        ChunkRoundTrip(body, first, Chunks(others), maxBytes);
      }
    }
  }

  /** A reader gets back what a source gave; when the source broke, it never takes the stump for a whole message. */
  lemma StreamRoundTrip(src: seq<Read>, rest: Bytes, maxBytes: int)
    requires forall r | r in src :: |r.data| <= BUFFER_SIZE
    requires |Flatten(Pieces(src))| <= maxBytes
    ensures !Breaks(src) ==> Decode(Written(src) + rest, maxBytes) == Body(Flatten(Pieces(src)), rest)
    ensures Breaks(src) ==> Decode(Written(src), maxBytes) == Malformed(BadLine)
  {
    PiecesFit(src);
    RoundTrip(Pieces(src), rest, maxBytes);
    UnfinishedAfter([], Pieces(src), maxBytes);
  }

  /** Whatever a failing destination or a broken source left of a stream, a reader gets all data that were read, or reports
      the message as malformed. */
  lemma CutStream(src: seq<Read>, out: Bytes, maxBytes: int)
    requires forall r | r in src :: |r.data| <= BUFFER_SIZE
    requires |Flatten(Pieces(src))| <= maxBytes && Began([], Written(src), out)
    ensures Decode(out, maxBytes).Malformed? || Decode(out, maxBytes) == Body(Flatten(Pieces(src)), [])
  {
    PiecesFit(src);
    NoBytes(Written(src));
    assert Written(src) <= Encode(Pieces(src));
    CutMessage(Pieces(src), |out|, maxBytes);
    hide Encode;
    hide Decode;
    hide Written;
    assert out == Encode(Pieces(src))[..|out|];
  }
}
