/** The lengths of bodies and chunks: the numbers that were written, never wrapped and never
    the sentinel, and chunks that arrive as they were sent.

    Numbers are read digit by digit into a field; a limit tested before each digit keeps it
    below the sentinel. */
module HttpLengths {
  import opened Bytes
  import opened HttpTables
  import opened HttpTurns
  import opened HttpMachine
  import opened HttpBody
  import opened HttpBuilder

  predicate DigitsAndSpaces(s: seq<byte>) {
    forall i | 0 <= i < |s| :: IsDigit(s[i]) || s[i] == ' '
  }

  /** The decimal number of the digits, spaces skipped, after a number v. */
  function Decimal(v: nat, s: seq<byte>): nat
    requires DigitsAndSpaces(s)
    decreases |s|
  {
    if s == [] then v
    else assert IsDigit(s[0]) || s[0] == ' '; Decimal(if s[0] == ' ' then v else 10 * v + Digit(s[0]), s[1..])
  }

  /** No digit follows a number above the limit. */
  predicate DecimalFits(v: nat, s: seq<byte>)
    requires DigitsAndSpaces(s)
    decreases |s|
  {
    if s == [] then true
    else
      assert IsDigit(s[0]) || s[0] == ' ';
      if s[0] == ' ' then DecimalFits(v, s[1..])
      else v <= (ULLONG_MAX - 10) / 10 && DecimalFits(10 * v + Digit(s[0]), s[1..])
  }

  /** One more digit, or space, at the end of a number. */
  lemma {:induction false} DecimalMore(v: nat, s: seq<byte>, c: byte)
    requires DigitsAndSpaces(s + [c])
    ensures DigitsAndSpaces(s) && (IsDigit(c) || c == ' ')
    ensures Decimal(v, s + [c]) == if c == ' ' then Decimal(v, s) else 10 * Decimal(v, s) + Digit(c)
    ensures DecimalFits(v, s + [c]) <==> DecimalFits(v, s) && (c == ' ' || Decimal(v, s) <= (ULLONG_MAX - 10) / 10)
    decreases |s|
  {
    var t := s + [c];
    assert t[|s|] == c && forall i | 0 <= i < |s| :: t[i] == s[i];
    assert t[0] == if s == [] then c else s[0];
    assert IsDigit(t[0]) || t[0] == ' ';
    if s == [] {
      assert t == [c] && t[1..] == [];
    } else {
      assert t[1..] == s[1..] + [c];
      DecimalMore(if s[0] == ' ' then v else 10 * v + Digit(s[0]), s[1..], c);
    }
  }

  predicate InContentLength(f: Fields) {
    f.state == Value && f.header == Matched(ContentLength) && f.contentLength < ULLONG_MAX
  }

  lemma LengthByte(m: Machine, ch: byte)
    requires m.end == Running && InContentLength(m.f) && (IsDigit(ch) || ch == ' ')
    ensures var r := OnByte(m, ch);
            if m.f.nread + 1 > HTTP_MAX_HEADER_SIZE then r.end == Failed(HEADER_OVERFLOW)
            else if ch != ' ' && m.f.contentLength > (ULLONG_MAX - 10) / 10 then r.end == Failed(INVALID_CONTENT_LENGTH)
            else && r.end == Running && InContentLength(r.f) && r.f.nread == m.f.nread + 1
                 && r.f.contentLength == if ch == ' ' then m.f.contentLength else 10 * m.f.contentLength + Digit(ch)
  {
  }

  /** A Content-Length value is the number its digits write; it is refused exactly when it
      is over the limit (or the headers are too long). */
  lemma {:induction false} ContentLengthIsNumber(m: Machine, s: seq<byte>)
    requires m.end == Running && InContentLength(m.f) && DigitsAndSpaces(s)
    requires m.f.nread + |s| <= HTTP_MAX_HEADER_SIZE
    ensures var r := Run(m, s);
            && (r.end == Running <==> DecimalFits(m.f.contentLength, s))
            && (r.end == Running ==> InContentLength(r.f) && r.f.contentLength == Decimal(m.f.contentLength, s))
            && (r.end != Running ==> r.end == Failed(INVALID_CONTENT_LENGTH))
    decreases |s|
  {
    hide OnByte, InContentLength;
    if s != [] {
      assert IsDigit(s[0]) || s[0] == ' ';
      LengthByte(m, s[0]);
      var r := OnByte(m, s[0]);
      if r.end == Running { ContentLengthIsNumber(r, s[1..]); }
    }
  }

  // ---------- chunks ----------

  predicate IsHex(s: seq<byte>) {
    forall i | 0 <= i < |s| :: Unhex(s[i]) >= 0
  }

  /** The number of the hexadecimal digits after a number v, as the unhex table reads them. */
  function Hex(v: nat, s: seq<byte>): nat
    requires IsHex(s)
    decreases |s|
  {
    if s == [] then v else assert Unhex(s[0]) >= 0; Hex(16 * v + Unhex(s[0]), s[1..])
  }

  /** No digit follows a number above the limit. */
  predicate HexFits(v: nat, s: seq<byte>)
    requires IsHex(s)
    decreases |s|
  {
    if s == [] then true
    else assert Unhex(s[0]) >= 0; v <= (ULLONG_MAX - 16) / 16 && HexFits(16 * v + Unhex(s[0]), s[1..])
  }

  predicate InChunkSize(f: Fields) {
    f.state == ChunkSize && f.flags.chunked && f.contentLength < ULLONG_MAX
  }

  lemma SizeByte(m: Machine, ch: byte)
    requires m.end == Running && InChunkSize(m.f) && Unhex(ch) >= 0 && m.f.nread < HTTP_MAX_HEADER_SIZE
    ensures var r := OnByte(m, ch);
            if m.f.contentLength > (ULLONG_MAX - 16) / 16 then r.end == Failed(INVALID_CONTENT_LENGTH)
            else r == Machine(m.f.(nread := m.f.nread + 1, contentLength := 16 * m.f.contentLength + Unhex(ch)),
                              m.log, Running, m.read + 1)
                 && InChunkSize(r.f)
  {
  }

  /** A chunk size is the number its digits write; it is refused exactly when it is over the
      limit. */
  lemma {:induction false} ChunkSizeIsNumber(m: Machine, s: seq<byte>)
    requires m.end == Running && InChunkSize(m.f) && IsHex(s) && m.f.nread + |s| <= HTTP_MAX_HEADER_SIZE
    ensures var r := Run(m, s);
            && (r.end == Running <==> HexFits(m.f.contentLength, s))
            && (r.end == Running ==>
                  InChunkSize(r.f)
                  && r == Machine(m.f.(nread := m.f.nread + |s|, contentLength := Hex(m.f.contentLength, s)),
                                  m.log, Running, m.read + |s|))
            && (r.end != Running ==> r.end == Failed(INVALID_CONTENT_LENGTH))
    decreases |s|
  {
    hide OnByte;
    if s != [] {
      assert Unhex(s[0]) >= 0;
      SizeByte(m, s[0]);
      var r := OnByte(m, s[0]);
      if r.end == Running { ChunkSizeIsNumber(r, s[1..]); }
    }
  }

  /** What may follow the digits of a size: nothing, or something of any kind up to the end
      of the line, its first character excepted. */
  predicate IsExtension(ext: seq<byte>) {
    ext == [] || ((ext[0] == ';' || ext[0] == ' ') && CR !in ext)
  }

  datatype Chunk = Chunk(size: seq<byte>, ext: seq<byte>, data: seq<byte>)

  predicate SizeFits(size: seq<byte>, ext: seq<byte>) {
    && size != [] && IsHex(size) && HexFits(0, size) && IsExtension(ext)
    && |size| + |ext| + 2 <= HTTP_MAX_HEADER_SIZE
  }

  /** A chunk with the size of its data in front. */
  predicate GoodChunk(c: Chunk) {
    SizeFits(c.size, c.ext) && Hex(0, c.size) == |c.data| > 0
  }

  function SizeLineText(size: seq<byte>, ext: seq<byte>): seq<byte> {
    size + ext + CRLF
  }

  function Encoded(c: Chunk): seq<byte> {
    SizeLineText(c.size, c.ext) + c.data + CRLF
  }

  predicate AtChunk(f: Fields) {
    f.state == ChunkSizeStart && f.flags.chunked && f.nread == 0
  }

  lemma FirstSizeByte(m: Machine, ch: byte)
    requires m.end == Running && AtChunk(m.f) && Unhex(ch) >= 0
    ensures var g := m.f.(nread := 1, contentLength := Unhex(ch), state := ChunkSize);
            OnByte(m, ch) == Machine(g, m.log, Running, m.read + 1) && InChunkSize(g)
  {
  }

  /** The parser at the end of a size line. */
  predicate InSizeLine(f: Fields) {
    (f.state == ChunkSize || f.state == ChunkParameters) && f.flags.chunked && f.contentLength < ULLONG_MAX
  }

  lemma ParameterByte(m: Machine, ch: byte)
    requires m.end == Running && InSizeLine(m.f) && ch != CR && m.f.nread < HTTP_MAX_HEADER_SIZE
    requires m.f.state == ChunkSize ==> ch == ';' || ch == ' '
    ensures OnByte(m, ch) == Machine(m.f.(nread := m.f.nread + 1, state := ChunkParameters), m.log, Running, m.read + 1)
  {
  }

  /** An extension changes nothing but the state. */
  lemma {:induction false} ExtensionRead(m: Machine, ext: seq<byte>)
    requires m.end == Running && InSizeLine(m.f) && CR !in ext && m.f.nread + |ext| <= HTTP_MAX_HEADER_SIZE
    requires m.f.state == ChunkSize ==> IsExtension(ext)
    ensures var next := if ext == [] then m.f.state else ChunkParameters;
            Run(m, ext) == Machine(m.f.(nread := m.f.nread + |ext|, state := next), m.log, Running, m.read + |ext|)
    decreases |ext|
  {
    hide OnByte;
    if ext != [] {
      ParameterByte(m, ext[0]);
      ExtensionRead(OnByte(m, ext[0]), ext[1..]);
    }
  }

  lemma SizeLineEnd(m: Machine)
    requires m.end == Running && InSizeLine(m.f) && m.f.nread + 2 <= HTTP_MAX_HEADER_SIZE
    ensures var g := if m.f.contentLength == 0
                     then m.f.(nread := 0, flags := m.f.flags.(trailing := true), state := FieldStart)
                     else m.f.(nread := 0, state := ChunkData);
            Run(m, CRLF) == Machine(g, m.log, Running, m.read + 2)
  {
    hide OnByte, Run;
    SizeLineReturn(m);
    SizeLineFeed(OnByte(m, CR));
    RunTwo(m, CR, LF);
  }

  lemma SizeLineReturn(m: Machine)
    requires m.end == Running && InSizeLine(m.f) && m.f.nread + 2 <= HTTP_MAX_HEADER_SIZE
    ensures OnByte(m, CR) == Machine(m.f.(nread := m.f.nread + 1, state := ChunkSizeAlmostDone), m.log, Running,
                                     m.read + 1)
  {
  }

  lemma SizeLineFeed(m: Machine)
    requires m.end == Running && m.f.state == ChunkSizeAlmostDone && m.f.flags.chunked
    requires m.f.nread + 1 <= HTTP_MAX_HEADER_SIZE
    ensures var g := if m.f.contentLength == 0
                     then m.f.(nread := 0, flags := m.f.flags.(trailing := true), state := FieldStart)
                     else m.f.(nread := 0, state := ChunkData);
            OnByte(m, LF) == Machine(g, m.log, Running, m.read + 1)
  {
  }

  /** The size line of a chunk, with an extension or without. */
  lemma SizeLine(m: Machine, size: seq<byte>, ext: seq<byte>)
    requires m.end == Running && AtChunk(m.f) && SizeFits(size, ext)
    ensures var n := Hex(0, size);
            var g := if n == 0
                     then m.f.(nread := 0, contentLength := 0, flags := m.f.flags.(trailing := true),
                               state := FieldStart)
                     else m.f.(nread := 0, contentLength := n, state := ChunkData);
            n < ULLONG_MAX && Run(m, SizeLineText(size, ext))
            == Machine(g, m.log, Running, m.read + |SizeLineText(size, ext)|)
  {
    hide OnByte, Run;
    assert Unhex(size[0]) >= 0;
    FirstSizeByte(m, size[0]);
    var m1 := OnByte(m, size[0]);
    ChunkSizeIsNumber(m1, size[1..]);
    RunFirst(m, size);
    var m2 := Run(m, size);
    ExtensionRead(m2, ext);
    var m3 := Run(m2, ext);
    SizeLineEnd(m3);
    RunSplit(m, size, ext);
    RunSplit(m, size + ext, CRLF);
  }

  lemma DataEnd(m: Machine)
    requires m.end == Running && m.f.state == ChunkDataAlmostDone && m.f.flags.chunked && m.f.contentLength == 0
    ensures Run(m, CRLF) == Machine(m.f.(nread := 0, state := ChunkSizeStart), m.log, Running, m.read + 2)
  {
    hide OnByte, Run;
    DataReturn(m);
    DataFeed(OnByte(m, CR));
    RunTwo(m, CR, LF);
  }

  lemma DataReturn(m: Machine)
    requires m.end == Running && m.f.state == ChunkDataAlmostDone && m.f.flags.chunked && m.f.contentLength == 0
    ensures OnByte(m, CR) == Machine(m.f.(state := ChunkDataDone), m.log, Running, m.read + 1)
  {
  }

  lemma DataFeed(m: Machine)
    requires m.end == Running && m.f.state == ChunkDataDone && m.f.flags.chunked
    ensures OnByte(m, LF) == Machine(m.f.(nread := 0, state := ChunkSizeStart), m.log, Running, m.read + 1)
  {
  }

  /** A chunk delivers its bytes and leads to the next chunk. */
  lemma ChunkArrives(m: Machine, c: Chunk)
    requires m.end == Running && AtChunk(m.f) && GoodChunk(c)
    ensures Run(m, Encoded(c)) == Machine(m.f.(contentLength := 0), Emit(m.log, Text(BodyText, c.data)), Running,
                                          m.read + |Encoded(c)|)
  {
    hide OnByte, Run, Emit, SizeLineText, HexFits;
    SizeLine(m, c.size, c.ext);
    var line := SizeLineText(c.size, c.ext);
    var m1 := Run(m, line);
    RunData(m1, c.data);
    var m2 := Run(m1, c.data);
    DataEnd(m2);
    RunSplit(m, line, c.data);
    RunSplit(m, line + c.data, CRLF);
  }

  function EncodedAll(chunks: seq<Chunk>): seq<byte> {
    if chunks == [] then [] else Encoded(chunks[0]) + EncodedAll(chunks[1..])
  }

  function Contents(chunks: seq<Chunk>): string {
    if chunks == [] then "" else chunks[0].data + Contents(chunks[1..])
  }

  lemma {:induction false} ChunksArrive(m: Machine, chunks: seq<Chunk>)
    requires m.end == Running && AtChunk(m.f)
    requires forall i | 0 <= i < |chunks| :: GoodChunk(chunks[i])
    ensures var r := Run(m, EncodedAll(chunks));
            && r.end == Running && AtChunk(r.f) && r.f == m.f.(contentLength := r.f.contentLength)
            && Build(r.log) == Build(m.log).(body := Build(m.log).body + Contents(chunks))
    decreases |chunks|
  {
    hide OnByte, Run, Emit, Build, GoodChunk, Encoded;
    RunZero(m);
    if chunks == [] {
      assert Build(m.log).body + "" == Build(m.log).body;
    } else {
      ChunkArrives(m, chunks[0]);
      var m1 := Run(m, Encoded(chunks[0]));
      BuildEmit(m.log, Text(BodyText, chunks[0].data));
      ChunksArrive(m1, chunks[1..]);
      RunSplit(m, Encoded(chunks[0]), EncodedAll(chunks[1..]));
      assert Build(m.log).body + chunks[0].data + Contents(chunks[1..]) == Build(m.log).body + Contents(chunks);
    }
  }

  /** A body with a Content-Length: the request has exactly the bytes that follow, that many. */
  lemma IdentityBody(m: Machine, d: seq<byte>)
    requires m.end == Running && m.f.state == BodyIdentity && 0 < |d| == m.f.contentLength < ULLONG_MAX
    ensures var r := Run(m, d);
            var b := Build(m.log);
            && r.end == Running && r.f.state == NewMessage(m.f) && r.f.nread == m.f.nread && r.read == m.read + |d|
            && Build(r.log).requests == b.requests + [Request(m.f.verb, b.rawUrl, BeforeQuery(b.rawUrl), b.headers,
                                                              b.body + d)]
  {
    hide OnByte, Run, Build, Emit, BeforeQuery;
    RunData(m, d);
    var r := Run(m, d);
    BuildEmit(m.log, Text(BodyText, d));
    BuildAppend(Emit(m.log, Text(BodyText, d)), Told(MessageComplete, r.f));
  }

  /** Before its end such a body is not complete, however many of its bytes have come. */
  lemma UnfinishedBody(m: Machine, d: seq<byte>)
    requires m.end == Running && m.f.state == BodyIdentity && 0 < |d| < m.f.contentLength < ULLONG_MAX
    ensures var r := Run(m, d);
            && r.end == Running && r.f.state == BodyIdentity && r.f.contentLength == m.f.contentLength - |d|
            && Build(r.log) == Build(m.log).(body := Build(m.log).body + d)
  {
    hide OnByte, Run, Build, Emit;
    RunData(m, d);
    BuildEmit(m.log, Text(BodyText, d));
  }
}
