/** What the chunk reader accepts, as a grammar: how sizes are written, how lines end, and where the trailers stop. The
    grammar is stated byte by byte and uses nothing of the reader; the reader accepts exactly its messages. */
module ChunkGrammar {
  import opened Wrappers
  import opened ChunkedCoding

  // ---------------------------------------------------------------- sizes

  /** The digit d, in either case. */
  ghost predicate Spells(b: Byte, d: nat) {
    if d < 10 then b == 48 + d else d < 16 && (b == 97 + (d - 10) || b == 65 + (d - 10))
  }

  ghost predicate SpellsAll(s: Bytes, digits: seq<nat>) {
    |s| == |digits| > 0 && forall i | 0 <= i < |s| :: Spells(s[i], digits[i])
  }

  /** The number with these digits, the most significant first. */
  ghost function Number(digits: seq<nat>): nat {
    if digits == [] then 0 else 16 * Number(digits[..|digits| - 1]) + digits[|digits| - 1]
  }

  /** Space, tab, line feed, vertical tab, form feed or carriage return. */
  ghost predicate Blank(s: Bytes) {
    forall b | b in s :: b == 32 || b == 9 || b == 10 || b == 11 || b == 12 || b == 13
  }

  /** The parts of a line that gives a size: white space around a number that may have a sign, and an extension that begins
      with a semicolon, or nothing. */
  datatype SizeText = SizeText(left: Bytes, sign: Bytes, number: Bytes, right: Bytes, extension: Bytes) {
    function Core(): Bytes {
      sign + number
    }

    function Text(): Bytes {
      left + Core() + right + extension
    }
  }

  ghost predicate IsSizeText(t: SizeText, digits: seq<nat>, n: int) {
    && Blank(t.left) && Blank(t.right)
    && (t.sign == [] || t.sign == [43] || t.sign == [45])
    && SpellsAll(t.number, digits)
    && (t.extension != [] ==> t.extension[0] == 59)
    && n == (if t.sign == [45] then 0 - Number(digits) else Number(digits))
    && -0x8000_0000_0000_0000 <= n < 0x8000_0000_0000_0000
  }

  ghost predicate GivesSize(line: Bytes, n: int) {
    exists t: SizeText, digits :: IsSizeText(t, digits, n) && t.Text() == line
  }

  lemma {:induction false} NumberIsRead(s: Bytes, digits: seq<nat>)
    requires SpellsAll(s, digits)
    ensures HexValue(s) == Some(Number(digits))
  {
    var n := |s| - 1;
    if n > 0 {
      NumberIsRead(s[..n], digits[..n]);
    } else {
      assert digits[..0] == [];
    }
  }

  lemma {:induction false} ReadIsNumber(s: Bytes) returns (digits: seq<nat>)
    requires HexValue(s).Some?
    ensures SpellsAll(s, digits) && Number(digits) == HexValue(s).value
  {
    var n := |s| - 1;
    var last := DigitValue(s[n]).value;
    if n > 0 {
      var front := ReadIsNumber(s[..n]);
      digits := front + [last];
      assert digits[..n] == front;
      assert forall i | 0 <= i < n :: s[..n][i] == s[i];
    } else {
      digits := [last];
      assert digits[..0] == [];
    }
  }

  lemma {:induction false} CutsExtension(a: Bytes, extension: Bytes)
    requires 59 !in a && (extension != [] ==> extension[0] == 59)
    ensures BeforeSemicolon(a + extension) == a
  {
    if a == [] {
      assert a + extension == extension;
    } else {
      assert (a + extension)[1..] == a[1..] + extension;
      CutsExtension(a[1..], extension);
      assert a == [a[0]] + a[1..];
    }
  }

  lemma {:induction false} ExtensionIsCut(s: Bytes) returns (extension: Bytes)
    ensures s == BeforeSemicolon(s) + extension && (extension != [] ==> extension[0] == 59)
    ensures 59 !in BeforeSemicolon(s)
  {
    if s == [] || s[0] == 59 {
      extension := s;
    } else {
      extension := ExtensionIsCut(s[1..]);
      assert s == [s[0]] + s[1..];
    }
  }

  lemma {:induction false} TrimsLeft(left: Bytes, core: Bytes)
    requires Blank(left) && core != [] && !Blank([core[0]])
    ensures TrimLeft(left + core) == core
  {
    if left == [] {
      assert left + core == core;
      assert core[0] in [core[0]];
    } else {
      assert (left + core)[1..] == left[1..] + core;
      assert left[0] in left && forall b | b in left[1..] :: b in left;
      TrimsLeft(left[1..], core);
    }
  }

  lemma {:induction false} LeftIsTrimmed(s: Bytes) returns (left: Bytes)
    ensures Blank(left) && s == left + TrimLeft(s)
  {
    left := [];
    if s != [] && IsSpace(s[0]) {
      var more := LeftIsTrimmed(s[1..]);
      left := [s[0]] + more;
      assert s == [s[0]] + s[1..];
    }
  }

  lemma {:induction false} TrimsRight(core: Bytes, right: Bytes)
    requires Blank(right) && core != [] && !Blank([core[|core| - 1]])
    ensures TrimRight(core + right) == core
  {
    var n := |right| - 1;
    if right == [] {
      assert core + right == core;
      assert core[|core| - 1] in [core[|core| - 1]];
    } else {
      var s := core + right;
      assert s[..|s| - 1] == core + right[..n];
      assert right[n] in right && forall b | b in right[..n] :: b in right;
      TrimsRight(core, right[..n]);
    }
  }

  lemma {:induction false} RightIsTrimmed(s: Bytes) returns (right: Bytes)
    ensures Blank(right) && s == TrimRight(s) + right
  {
    right := [];
    if s != [] && IsSpace(s[|s| - 1]) {
      var more := RightIsTrimmed(s[..|s| - 1]);
      right := more + [s[|s| - 1]];
      assert s == s[..|s| - 1] + [s[|s| - 1]];
    }
  }

  /** Digits are neither semicolons nor signs nor white space. */
  lemma SpelledIs(number: Bytes, digits: seq<nat>)
    requires SpellsAll(number, digits)
    ensures forall b | b in number :: b != 59 && b != 43 && b != 45 && !Blank([b])
  {
    forall b | b in number
      ensures b != 59 && b != 43 && b != 45 && !Blank([b])
    {
      var i :| 0 <= i < |number| && number[i] == b;
      assert Spells(number[i], digits[i]);
      assert b in [b];
    }
  }

  lemma CoreIsParsed(t: SizeText, digits: seq<nat>, n: int)
    requires IsSizeText(t, digits, n)
    ensures ParseInt(t.Core()) == Some(n) && t.Core() != []
    ensures 59 !in t.Core() && !Blank([t.Core()[0]]) && !Blank([t.Core()[|t.Core()| - 1]])
  {
    var core, number := t.Core(), t.number;
    NumberIsRead(number, digits);
    SpelledIs(number, digits);
    assert number[0] in number && number[|number| - 1] in number && core[|core| - 1] == number[|number| - 1];
    SignIsNotBlank();
    hide SpellsAll;
    hide Number;
    hide HexValue;
    hide Blank;
    if t.sign == [] {
      assert core == number;
    } else {
      assert core[0] == t.sign[0] && core[1..] == number;
    }
  }

  lemma SignIsNotBlank()
    ensures !Blank([43]) && !Blank([45])
  {
    assert 43 in [43] && 45 in [45];
  }

  lemma ParsedIsCore(core: Bytes, n: int) returns (t: SizeText, digits: seq<nat>)
    requires ParseInt(core) == Some(n)
    ensures IsSizeText(t, digits, n) && t.Core() == core && t.left == t.right == t.extension == []
  {
    var signed := core[0] == 43 || core[0] == 45;
    var sign, number := if signed then [core[0]] else [], if signed then core[1..] else core;
    t := SizeText([], sign, number, [], []);
    digits := ReadIsNumber(number);
    assert sign + number == core;
  }

  /** A line gives a size to the reader if and only if it is such a text for it. */
  lemma SizeIff(line: Bytes, n: int)
    ensures ChunkSize(line) == Some(n) <==> GivesSize(line, n)
  {
    if ChunkSize(line) == Some(n) {
      SizeIsText(line, n);
    }
    forall t: SizeText, digits | IsSizeText(t, digits, n) && t.Text() == line
      ensures ChunkSize(line) == Some(n)
    {
      TextIsSize(t, digits, n);
    }
  }

  lemma SizeIsText(line: Bytes, n: int)
    requires ChunkSize(line) == Some(n)
    ensures GivesSize(line, n)
  {
    var extension := ExtensionIsCut(line);
    var body := BeforeSemicolon(line);
    var left := LeftIsTrimmed(body);
    var right := RightIsTrimmed(TrimLeft(body));
    var core := TrimRight(TrimLeft(body));
    var c, digits := ParsedIsCore(core, n);
    var t := SizeText(left, c.sign, c.number, right, extension);
    assert t.Core() == core;
    hide BeforeSemicolon;
    hide TrimLeft;
    hide TrimRight;
    assert left + (core + right) == left + core + right;
    assert IsSizeText(t, digits, n) && t.Text() == line;
  }

  lemma TextIsSize(t: SizeText, digits: seq<nat>, n: int)
    requires IsSizeText(t, digits, n)
    ensures ChunkSize(t.Text()) == Some(n)
  {
    var core := t.Core();
    CoreIsParsed(t, digits, n);
    hide ParseInt;
    assert 59 !in t.left + core + t.right;
    CutsExtension(t.left + core + t.right, t.extension);
    assert t.left + core + t.right == t.left + (core + t.right);
    assert (core + t.right)[0] == core[0];
    TrimsLeft(t.left, core + t.right);
    TrimsRight(core, t.right);
  }

  // ---------------------------------------------------------------- lines

  ghost predicate OneLine(s: Bytes) {
    forall b | b in s :: b != 10
  }

  /** What is left when the carriage returns and line feeds at the end go. */
  lemma {:induction false} EndGoes(s: Bytes) returns (end: Bytes)
    ensures s == TrimNewline(s) + end && forall b | b in end :: b == 13 || b == 10
    ensures TrimNewline(s) != [] ==> var last := TrimNewline(s)[|TrimNewline(s)| - 1]; last != 13 && last != 10
  {
    end := [];
    if s != [] && (s[|s| - 1] == CR || s[|s| - 1] == LF) {
      var more := EndGoes(s[..|s| - 1]);
      end := more + [s[|s| - 1]];
      assert s == s[..|s| - 1] + [s[|s| - 1]];
    }
  }

  /** More carriage returns and line feeds at its end do not change the size that a line gives. */
  lemma LongerGivesSize(line: Bytes, end: Bytes, n: int)
    requires GivesSize(line, n) && forall b | b in end :: b == 13 || b == 10
    ensures GivesSize(line + end, n)
  {
    var t: SizeText, digits :| IsSizeText(t, digits, n) && t.Text() == line;
    var u := if t.extension == [] then t.(right := t.right + end) else t.(extension := t.extension + end);
    assert u.Core() == t.Core();
    assert u.Text() == line + end;
    assert IsSizeText(u, digits, n);
  }

  /** Nor do fewer. */
  lemma ShorterGivesSize(line: Bytes, n: int)
    requires GivesSize(line, n) && line != [] && (line[|line| - 1] == 13 || line[|line| - 1] == 10)
    ensures GivesSize(line[..|line| - 1], n)
  {
    var t: SizeText, digits :| IsSizeText(t, digits, n) && t.Text() == line;
    var e, r := |t.extension| - 1, |t.right| - 1;
    var front := line[..|line| - 1];
    if e >= 0 {
      var u := t.(extension := t.extension[..e]);
      assert t.extension[e] == line[|line| - 1];
      assert u.Text() == front;
      assert IsSizeText(u, digits, n);
    } else {
      CoreIsParsed(t, digits, n);
      var core := t.Core();
      assert t.Text() == t.left + core + t.right;
      assert core[|core| - 1] in [core[|core| - 1]];
      assert r >= 0;
      assert forall b | b in t.right[..r] :: b in t.right;
      var u := t.(right := t.right[..r]);
      assert u.Text() == front;
      assert IsSizeText(u, digits, n);
    }
  }

  lemma {:induction false} TrimmedGivesSize(line: Bytes, n: int)
    ensures GivesSize(TrimNewline(line), n) <==> GivesSize(line, n)
    decreases |line|
  {
    if line != [] && (line[|line| - 1] == CR || line[|line| - 1] == LF) {
      var front, last := line[..|line| - 1], line[|line| - 1];
      TrimmedGivesSize(front, n);
      assert front + [last] == line;
      if GivesSize(front, n) {
        LongerGivesSize(front, [last], n);
      }
      if GivesSize(line, n) {
        ShorterGivesSize(line, n);
      }
    }
  }

  /** A size line is a text for the size, on one line, with a line feed behind it, and not too long. */
  ghost predicate IsLineFor(line: Bytes, n: int) {
    0 < |line| <= 8192 && line[|line| - 1] == 10 && OneLine(line[..|line| - 1]) && GivesSize(line[..|line| - 1], n)
  }

  lemma SizeLineIff(line: Bytes, n: int)
    ensures IsSizeLine(line, n) <==> IsLineFor(line, n)
  {
    var k := LineEnd(line);
    if k < |line| {
      assert line[k] == LF;
      if k == |line| - 1 {
        WholeLine(line, n);
      } else {
        assert line[..|line| - 1][k] == LF && LF in line[..|line| - 1];
        assert |line[k + 1..]| > 0;
      }
    }
  }

  lemma WholeLine(line: Bytes, n: int)
    requires line != [] && LineEnd(line) == |line| - 1
    ensures IsSizeLine(line, n) <==> IsLineFor(line, n)
  {
    var k := |line| - 1;
    assert line[..k + 1] == line && line[k + 1..] == [];
    assert OneLine(line[..k]);
    assert TrimNewline(line) == TrimNewline(line[..k]);
    TrimmedGivesSize(line[..k], n);
    SizeIff(TrimNewline(line), n);
    hide ChunkSize;
    hide TrimNewline;
    hide GivesSize;
  }

  // ---------------------------------------------------------------- trailers

  /** A line, without its line feed, that is not only carriage returns. */
  ghost predicate IsTrailer(t: Bytes) {
    OneLine(t) && exists i | 0 <= i < |t| :: t[i] != 13
  }

  ghost predicate IsEmptyLine(t: Bytes) {
    forall b | b in t :: b == 13
  }

  function Lines(ts: seq<Bytes>): Bytes {
    if ts == [] then [] else ts[0] + [LF] + Lines(ts[1..])
  }

  /** The trailers of a message end with the first empty line; or, cut short, with the input. */
  ghost predicate EndsTrailers(tail: Bytes, ts: seq<Bytes>, end: Bytes, rest: Bytes) {
    && (forall t | t in ts :: IsTrailer(t))
    && (if IsEmptyLine(end) then tail == Lines(ts) + end + [LF] + rest || (rest == [] && tail == Lines(ts) + end)
        else OneLine(end) && rest == [] && tail == Lines(ts) + end)
  }

  lemma TrailerOrEmpty(t: Bytes)
    requires OneLine(t)
    ensures TrimNewline(t + [LF]) == [] <==> IsEmptyLine(t)
    ensures IsTrailer(t) <==> !IsEmptyLine(t)
  {
    if IsEmptyLine(t) {
      EmptyIsTrimmed(t);
      assert forall i | 0 <= i < |t| :: t[i] in t;
    } else {
      var b :| b in t && b != 13;
      var i :| 0 <= i < |t| && t[i] == b;
      assert b != 10;
      OtherIsKept(t, i);
    }
  }

  lemma {:induction false} EmptyIsTrimmed(t: Bytes)
    requires IsEmptyLine(t)
    ensures TrimNewline(t + [LF]) == []
  {
    assert (t + [LF])[..|t|] == t;
    ReturnsGo(t);
  }

  lemma {:induction false} ReturnsGo(t: Bytes)
    requires IsEmptyLine(t)
    ensures TrimNewline(t) == []
  {
    if t != [] {
      var front := t[..|t| - 1];
      assert t[|t| - 1] in t && t == front + [t[|t| - 1]];
      assert forall b | b in front :: b in t;
      ReturnsGo(front);
    }
  }

  lemma OtherIsKept(t: Bytes, i: nat)
    requires i < |t| && t[i] != 13 && t[i] != 10
    ensures TrimNewline(t + [LF]) != []
  {
    var line := t + [LF];
    var end := EndGoes(line);
    hide TrimNewline;
    assert line[i] == t[i];
    assert forall k | 0 <= k < |end| :: end[k] in end;
    assert TrimNewline(line) == [] ==> line == end;
  }

  lemma SkipsOne(t: Bytes, more: Bytes)
    requires OneLine(t)
    ensures SkipTrailers(t + [LF] + more) == if IsEmptyLine(t) then more else SkipTrailers(more)
  {
    var input := t + [LF] + more;
    FirstLineEnd(t, more);
    TrailerOrEmpty(t);
    assert input[..|t| + 1] == t + [LF] && input[|t| + 1..] == more;
  }

  lemma {:induction false} EndsAreSkipped(tail: Bytes, ts: seq<Bytes>, end: Bytes, rest: Bytes)
    requires EndsTrailers(tail, ts, end, rest)
    ensures SkipTrailers(tail) == rest
    decreases |ts|
  {
    if ts == [] {
      if tail == Lines(ts) + end {
        assert tail == end;
        assert OneLine(end);
        NoLineEnd(end);
      } else {
        assert tail == end + [LF] + rest;
        SkipsOne(end, rest);
      }
    } else {
      var t, others := ts[0], ts[1..];
      assert t in ts && forall u | u in others :: u in ts;
      var more := if tail == Lines(ts) + end then Lines(others) + end else Lines(others) + end + [LF] + rest;
      OneMoreLine(ts, end, rest);
      assert tail == t + [LF] + more;
      TrailerOrEmpty(t);
      SkipsOne(t, more);
      hide SkipTrailers;
      hide Lines;
      EndsAreSkipped(more, others, end, rest);
    }
  }

  lemma OneMoreLine(ts: seq<Bytes>, end: Bytes, rest: Bytes)
    requires ts != []
    ensures Lines(ts) + end == ts[0] + [LF] + (Lines(ts[1..]) + end)
    ensures Lines(ts) + end + [LF] + rest == ts[0] + [LF] + (Lines(ts[1..]) + end + [LF] + rest)
  {
    var lines := Lines(ts[1..]);
    assert Lines(ts) == ts[0] + [LF] + lines;
    hide Lines;
  }

  lemma {:induction false} SkippedHaveEnd(tail: Bytes) returns (ts: seq<Bytes>, end: Bytes)
    ensures EndsTrailers(tail, ts, end, SkipTrailers(tail))
    decreases |tail|
  {
    var n := LineEnd(tail);
    var t := tail[..n];
    assert OneLine(t);
    if n == |tail| {
      ts, end := [], tail;
      assert tail == [] + tail;
    } else {
      var more := tail[n + 1..];
      assert tail == t + [LF] + more;
      hide LineEnd;
      TrailerOrEmpty(t);
      SkipsOne(t, more);
      hide *;
      if IsEmptyLine(t) {
        ts, end := [], t;
        EndsHere(t, more);
      } else {
        var others;
        others, end := SkippedHaveEnd(more);
        ts := [t] + others;
        EndsLater(t, more, others, end, SkipTrailers(more));
      }
    }
  }

  lemma EndsHere(t: Bytes, more: Bytes)
    requires IsEmptyLine(t)
    ensures EndsTrailers(t + [LF] + more, [], t, more)
  {
    assert t + [LF] + more == [] + t + [LF] + more;
  }

  lemma EndsLater(t: Bytes, more: Bytes, others: seq<Bytes>, end: Bytes, rest: Bytes)
    requires IsTrailer(t) && EndsTrailers(more, others, end, rest)
    ensures EndsTrailers(t + [LF] + more, [t] + others, end, rest)
  {
    assert ([t] + others)[1..] == others;
    OneMoreLine([t] + others, end, rest);
    hide IsTrailer;
    hide Lines;
  }

  // ---------------------------------------------------------------- messages

  datatype Part = Part(line: Bytes, data: Bytes)

  function Message(parts: seq<Part>): Bytes {
    if parts == [] then [] else parts[0].line + parts[0].data + [13, 10] + Message(parts[1..])
  }

  function Contents(parts: seq<Part>): Bytes {
    if parts == [] then [] else parts[0].data + Contents(parts[1..])
  }

  /** Chunks whose lines give the sizes of their data, a line that gives 0, and trailers. */
  ghost predicate InGrammar(input: Bytes, parts: seq<Part>, last: Bytes, tail: Bytes, ts: seq<Bytes>, end: Bytes, rest: Bytes) {
    && (forall p | p in parts :: p.data != [] && IsLineFor(p.line, |p.data|))
    && IsLineFor(last, 0)
    && EndsTrailers(tail, ts, end, rest)
    && input == Message(parts) + last + tail
  }

  function Chunked(parts: seq<Part>): seq<WireChunk> {
    seq(|parts|, i requires 0 <= i < |parts| => WireChunk(parts[i].line, parts[i].data))
  }

  lemma {:induction false} ChunkedIs(parts: seq<Part>)
    ensures OnWire(Chunked(parts)) == Message(parts) && DataOf(Chunked(parts)) == Contents(parts)
  {
    if parts != [] {
      ChunkedIs(parts[1..]);
      assert Chunked(parts)[1..] == Chunked(parts[1..]);
    }
  }

  /** The reader accepts exactly the messages of the grammar whose data fit, gives their data, and stops behind them. */
  lemma DecodesExactlyGrammar(input: Bytes, maxBytes: int, body: Bytes, rest: Bytes)
    ensures Decode(input, maxBytes) == Body(body, rest)
       <==> exists parts, last, tail, ts, end ::
              && InGrammar(input, parts, last, tail, ts, end, rest)
              && body == Contents(parts) && (|body| <= maxBytes || parts == [])
  {
    DecodesExactlyMessages(input, maxBytes, body, rest);
    if Decode(input, maxBytes) == Body(body, rest) {
      var chunks, last, tail :| IsMessage(input, chunks, last, tail) && (|body| <= maxBytes || chunks == [])
                                && body == DataOf(chunks) && rest == SkipTrailers(tail);
      var parts, ts, end := MessageIsGrammar(input, chunks, last, tail);
      assert InGrammar(input, parts, last, tail, ts, end, rest) && body == Contents(parts);
    }
    forall parts, last, tail, ts, end |
      InGrammar(input, parts, last, tail, ts, end, rest) && body == Contents(parts) && (|body| <= maxBytes || parts == [])
      ensures Decode(input, maxBytes) == Body(body, rest)
    {
      GrammarIsRead(input, maxBytes, parts, last, tail, ts, end, rest);
    }
  }

  lemma GrammarIsRead(input: Bytes, maxBytes: int, parts: seq<Part>, last: Bytes, tail: Bytes, ts: seq<Bytes>, end: Bytes,
      rest: Bytes)
    requires InGrammar(input, parts, last, tail, ts, end, rest) && (|Contents(parts)| <= maxBytes || parts == [])
    ensures Decode(input, maxBytes) == Body(Contents(parts), rest)
  {
    GrammarIsMessage(input, parts, last, tail, ts, end, rest);
    assert IsMessage(input, Chunked(parts), last, tail);
    DecodesExactlyMessages(input, maxBytes, Contents(parts), rest);
  }

  lemma MessageIsGrammar(input: Bytes, chunks: seq<WireChunk>, last: Bytes, tail: Bytes)
    returns (parts: seq<Part>, ts: seq<Bytes>, end: Bytes)
    requires IsMessage(input, chunks, last, tail)
    ensures InGrammar(input, parts, last, tail, ts, end, SkipTrailers(tail))
    ensures Contents(parts) == DataOf(chunks) && |parts| == |chunks|
  {
    parts := seq(|chunks|, i requires 0 <= i < |chunks| => Part(chunks[i].line, chunks[i].data));
    ts, end := SkippedHaveEnd(tail);
    assert Chunked(parts) == chunks;
    ChunkedIs(parts);
    SizeLineIff(last, 0);
    hide IsSizeLine;
    hide IsLineFor;
    hide EndsTrailers;
    hide OnWire;
    hide Message;
    hide DataOf;
    hide Contents;
    forall p | p in parts
      ensures p.data != [] && IsLineFor(p.line, |p.data|)
    {
      var i :| 0 <= i < |parts| && parts[i] == p;
      assert chunks[i] in chunks;
      SizeLineIff(p.line, |p.data|);
    }
  }

  lemma GrammarIsMessage(input: Bytes, parts: seq<Part>, last: Bytes, tail: Bytes, ts: seq<Bytes>, end: Bytes, rest: Bytes)
    requires InGrammar(input, parts, last, tail, ts, end, rest)
    ensures IsMessage(input, Chunked(parts), last, tail) && SkipTrailers(tail) == rest
    ensures DataOf(Chunked(parts)) == Contents(parts) && (parts == [] ==> Chunked(parts) == [])
  {
    EndsAreSkipped(tail, ts, end, rest);
    ChunkedIs(parts);
    SizeLineIff(last, 0);
    hide IsSizeLine;
    hide IsLineFor;
    hide EndsTrailers;
    hide SkipTrailers;
    hide OnWire;
    hide Message;
    hide DataOf;
    hide Contents;
    forall c | c in Chunked(parts)
      ensures IsChunk(c)
    {
      var i :| 0 <= i < |parts| && Chunked(parts)[i] == c;
      assert parts[i] in parts;
      SizeLineIff(c.line, |c.data|);
    }
  }

  // ---------------------------------------------------------------- what is reported

  ghost predicate AreChunks(parts: seq<Part>) {
    forall p | p in parts :: p.data != [] && IsLineFor(p.line, |p.data|)
  }

  lemma {:induction false} PartsAreTaken(body: Bytes, parts: seq<Part>, input: Bytes, maxBytes: int)
    requires AreChunks(parts) && (|body + Contents(parts)| <= maxBytes || parts == [])
    ensures DecodeAfter(body, Message(parts) + input, maxBytes) == DecodeAfter(body + Contents(parts), input, maxBytes)
    decreases |parts|
  {
    if parts == [] {
      assert Message(parts) + input == input && body + Contents(parts) == body;
    } else {
      var p, others := parts[0], parts[1..];
      assert p in parts && forall q | q in others :: q in parts;
      SizeLineIff(p.line, |p.data|);
      FirstPart(body, parts, input);
      hide DecodeAfter;
      hide IsLineFor;
      hide IsSizeLine;
      hide Message;
      hide Contents;
      TakesChunk(body, WireChunk(p.line, p.data), Message(others) + input, maxBytes);
      PartsAreTaken(body + p.data, others, input, maxBytes);
    }
  }

  lemma FirstPart(body: Bytes, parts: seq<Part>, input: Bytes)
    requires parts != []
    ensures var p, others := parts[0], parts[1..];
            && Message(parts) + input == p.line + p.data + [CR, LF] + (Message(others) + input)
            && body + Contents(parts) == body + p.data + Contents(others)
            && |body| + |p.data| <= |body + Contents(parts)|
  {
    var p, message, contents := parts[0], Message(parts[1..]), Contents(parts[1..]);
    assert Message(parts) == p.line + p.data + [CR, LF] + message && Contents(parts) == p.data + contents;
    hide Message;
    hide Contents;
    Joined(p.line + p.data + [CR, LF], message, input, []);
    Joined(body, p.data, contents, []);
  }

  /** What is reported of a chunk behind good ones: a negative size; a size beyond the limit; data that end too soon,
      inside the chunk or inside its end; another end than CR LF. */
  lemma BrokenChunk(parts: seq<Part>, line: Bytes, n: int, data: Bytes, maxBytes: int)
    requires AreChunks(parts) && (|Contents(parts)| <= maxBytes || parts == []) && IsLineFor(line, n)
    ensures var decoded, fits := Decode(Message(parts) + (line + data), maxBytes), |Contents(parts)| + n <= maxBytes;
            && (n < 0 ==> decoded == Malformed(NegativeSize))
            && (n > 0 && !fits ==> decoded == Malformed(TooLarge))
            && (n > 0 && fits && |data| < n ==> decoded == Malformed(ShortData))
            && (n > 0 && fits && n <= |data| < n + 2 ==> decoded == Malformed(ShortCRLF))
            && (n > 0 && fits && n + 2 <= |data| && (data[n] != 13 || data[n + 1] != 10) ==>
                  decoded == Malformed(MissingCRLF))
  {
    var body := Contents(parts);
    assert [] + body == body;
    PartsAreTaken([], parts, line + data, maxBytes);
    SizeLineIff(line, n);
    hide IsLineFor;
    hide AreChunks;
    hide Contents;
    hide Message;
    LineExtends(line, data);
    hide LineOf;
    hide ChunkSize;
    hide SkipTrailers;
  }

  /** What is reported of a line behind good chunks: no line feed within its first 8192 bytes; no size in it. */
  lemma BrokenLine(parts: seq<Part>, input: Bytes, maxBytes: int)
    requires AreChunks(parts) && (|Contents(parts)| <= maxBytes || parts == [])
    ensures var decoded := Decode(Message(parts) + input, maxBytes);
            && ((forall i | 0 <= i < |input| && i < 8192 :: input[i] != 10) ==> decoded == Malformed(BadLine))
            && forall k | 0 <= k < |input| && k < 8192 && input[k] == 10 && OneLine(input[..k])
                          && (forall n :: !GivesSize(input[..k], n)) :: decoded == Malformed(BadSize)
  {
    var body := Contents(parts);
    assert [] + body == body;
    PartsAreTaken([], parts, input, maxBytes);
    hide AreChunks;
    hide Contents;
    hide Message;
    var e := LineEnd(input);
    if e < |input| && e < 8192 {
      assert input[e] == 10;
      forall k | 0 <= k < |input| && k < 8192 && input[k] == 10 && OneLine(input[..k])
        ensures k == e
      {
        NotBefore(input, k, e);
      }
      if forall n :: !GivesSize(input[..e], n) {
        NoSizeThere(input, e);
      }
    }
    hide SkipTrailers;
    hide ChunkSize;
    hide GivesSize;
  }

  lemma NotBefore(input: Bytes, k: nat, e: nat)
    requires k <= |input| && e < |input| && OneLine(input[..k]) && input[e] == 10
    ensures k <= e
  {
    assert forall i | 0 <= i < k :: input[..k][i] == input[i] && input[i] in input[..k];
  }

  lemma NoSizeThere(input: Bytes, e: nat)
    requires e == LineEnd(input) < |input| && forall n :: !GivesSize(input[..e], n)
    ensures ChunkSize(TrimNewline(input[..e + 1])).None?
  {
    var line := input[..e];
    assert input[..e + 1][..e] == line;
    assert TrimNewline(input[..e + 1]) == TrimNewline(line);
    var size := ChunkSize(TrimNewline(line));
    if size.Some? {
      SizeIff(TrimNewline(line), size.value);
      TrimmedGivesSize(line, size.value);
    }
    hide TrimNewline;
    hide ChunkSize;
  }

  /** The writer's size is written with digits 0 to 9 and a to f, and begins with 0 only if it is 0. */
  lemma {:induction false} HexIsWrittenSo(n: nat) returns (digits: seq<nat>)
    ensures SpellsAll(Hex(n), digits) && Number(digits) == n
    ensures forall b | b in Hex(n) :: 48 <= b <= 57 || 97 <= b <= 102
    ensures digits[0] == 0 <==> n == 0
  {
    var d := n % 16;
    if n < 16 {
      digits := [d];
      assert digits[..0] == [];
    } else {
      var front := HexIsWrittenSo(n / 16);
      digits := front + [d];
      assert digits[..|front|] == front;
      var h := Hex(n / 16);
      assert forall i | 0 <= i < |h| :: Hex(n)[i] == h[i];
    }
  }

  // ---------------------------------------------------------------- messages as they are usually written

  /** A text for the size that fits on one line. */
  ghost predicate Writable(line: Bytes, n: int) {
    GivesSize(line, n) && OneLine(line) && |line| + 2 <= 8192
  }

  function WithEnds(parts: seq<Part>): seq<Part> {
    seq(|parts|, i requires 0 <= i < |parts| => Part(parts[i].line + [13, 10], parts[i].data))
  }

  function WithReturns(ts: seq<Bytes>): seq<Bytes> {
    seq(|ts|, i requires 0 <= i < |ts| => ts[i] + [13])
  }

  lemma WrittenLine(line: Bytes, n: int)
    requires Writable(line, n)
    ensures IsLineFor(line + [13, 10], n)
  {
    var whole := line + [13, 10];
    assert whole[..|whole| - 1] == line + [13];
    LongerGivesSize(line, [13], n);
    hide GivesSize;
  }

  lemma {:induction false} SameContents(parts: seq<Part>)
    ensures Contents(WithEnds(parts)) == Contents(parts)
  {
    if parts != [] {
      SameContents(parts[1..]);
      assert WithEnds(parts)[1..] == WithEnds(parts[1..]);
    }
  }

  /** Chunks with sizes in either case, white space, signs and extensions, then trailers, an empty line and anything else:
      the reader gives the data and stops at what follows the empty line. */
  lemma WrittenMessageIsRead(parts: seq<Part>, last: Bytes, trailers: seq<Bytes>, rest: Bytes, maxBytes: int)
    requires (forall p | p in parts :: p.data != [] && Writable(p.line, |p.data|)) && Writable(last, 0)
    requires (forall t | t in trailers :: IsTrailer(t)) && |Contents(parts)| <= maxBytes
    ensures var tail := Lines(WithReturns(trailers)) + [13] + [LF] + rest;
            Decode(Message(WithEnds(parts)) + (last + [13, 10]) + tail, maxBytes) == Body(Contents(parts), rest)
  {
    var tail := Lines(WithReturns(trailers)) + [13] + [LF] + rest;
    hide *;
    WrittenLine(last, 0);
    WrittenParts(parts);
    WrittenTrailers(trailers, rest);
    SameContents(parts);
    AllInGrammar(WithEnds(parts), last + [13, 10], tail, WithReturns(trailers), [13], rest);
    GrammarIsRead(Message(WithEnds(parts)) + (last + [13, 10]) + tail, maxBytes, WithEnds(parts), last + [13, 10], tail,
                  WithReturns(trailers), [13], rest);
  }

  lemma AllInGrammar(parts: seq<Part>, last: Bytes, tail: Bytes, ts: seq<Bytes>, end: Bytes, rest: Bytes)
    requires (forall p | p in parts :: p.data != [] && IsLineFor(p.line, |p.data|)) && IsLineFor(last, 0)
    requires EndsTrailers(tail, ts, end, rest)
    ensures InGrammar(Message(parts) + last + tail, parts, last, tail, ts, end, rest)
  {
  }

  lemma WrittenParts(parts: seq<Part>)
    requires forall p | p in parts :: p.data != [] && Writable(p.line, |p.data|)
    ensures forall p | p in WithEnds(parts) :: p.data != [] && IsLineFor(p.line, |p.data|)
  {
    hide Writable;
    hide IsLineFor;
    forall p | p in WithEnds(parts)
      ensures p.data != [] && IsLineFor(p.line, |p.data|)
    {
      var i :| 0 <= i < |parts| && WithEnds(parts)[i] == p;
      assert parts[i] in parts;
      WrittenLine(parts[i].line, |p.data|);
    }
  }

  lemma WrittenTrailers(trailers: seq<Bytes>, rest: Bytes)
    requires forall t | t in trailers :: IsTrailer(t)
    ensures EndsTrailers(Lines(WithReturns(trailers)) + [13] + [LF] + rest, WithReturns(trailers), [13], rest)
  {
    hide Lines;
    forall t | t in WithReturns(trailers)
      ensures IsTrailer(t)
    {
      var i :| 0 <= i < |trailers| && WithReturns(trailers)[i] == t;
      assert trailers[i] in trailers;
      var k :| 0 <= k < |trailers[i]| && trailers[i][k] != 13;
      assert t[k] == trailers[i][k];
    }
  }
}
