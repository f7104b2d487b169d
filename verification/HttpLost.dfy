/** Inputs that show how headers are lost: one without a value that is not the last, and the
    last trailer.

    Each input is the text of a written request, so that what arrives of it follows from
    HttpRequests.RequestArrives. Which headers arrive in general is said by
    HttpRequests.HeadersArrive. */
module HttpLost {
  import opened Bytes
  import opened HttpTables
  import opened HttpTurns
  import opened HttpMachine
  import opened HttpInvariant
  import opened HttpBuilder
  import opened HttpLengths
  import opened HttpNames
  import opened HttpValues
  import opened HttpLines
  import opened HttpHeaders
  import opened HttpUrl
  import opened HttpFirstLine
  import opened HttpRequests

  lemma ShortName(h: Header)
    requires |h.name| < 7 && IsToken(h.name) && h.pad == " " && (h.value == [] || IsValue(h.value)) && h.folds == []
    ensures GoodHeader(h) && forall e :: LineEffect(h, e) == e
  {
    assert |Lowered(h.name)| < 7;
    assert h.pad[1..] == "";
  }

  lemma OneLine(h: Header)
    requires h.folds == [] && h.eol == CrLf
    ensures ValueOf(h) == h.value && LineText(h) == h.name + [':'] + h.pad + h.value + CRLF
  {
    assert h.value + [] == h.value;
  }

  lemma TwoHeaders(a: Header, b: Header)
    requires GoodHeader(a) && GoodHeader(b)
    ensures GoodHeaders([a, b]) && HeaderText([a, b]) == LineText(a) + LineText(b)
    ensures Stored([a, b]) == (if ValueOf(a) != [] then [Pair(a)] else []) + [Pair(b)]
    ensures forall e :: Effects([a, b], e) == LineEffect(b, LineEffect(a, e))
  {
    hide LineText, GoodHeader, LineEffect, ValueOf;
    assert [a, b][..1] == [a] && [a][..0] == [];
    OneHeader(a);
  }

  lemma OneHeader(a: Header)
    requires GoodHeader(a)
    ensures GoodHeaders([a]) && HeaderText([a]) == LineText(a)
            && Valued([a]) == (if ValueOf(a) != [] then [Pair(a)] else [])
    ensures Stored([a]) == [Pair(a)] && Kept([a]) == []
    ensures forall e :: Effects([a], e) == LineEffect(a, e)
  {
    hide LineText, GoodHeader, LineEffect, ValueOf;
    assert [a][..0] == [];
  }

  const WITHOUT_VALUE: seq<byte> := "GET / HTTP/1.1\r\nA: \r\nB: x\r\n\r\n"

  const A_HEADER: Header := Header("A", " ", "", [], CrLf)
  const B_HEADER: Header := Header("B", " ", "x", [], CrLf)
  const ONE_ONE: Version := Numbered(0, "1", "1")
  const HOME_LINE: FirstLine := FirstLine([], GET, "GET", 0, "/", ONE_ONE, CrLf)
  const HOME: Written := Written(HOME_LINE, [A_HEADER, B_HEADER], CrLf, NoBody)

  lemma OneOne()
    ensures GoodVersion(ONE_ONE) && MajorOf(ONE_ONE) == 1 && MinorOf(ONE_ONE) == 1
    ensures AfterUrl(ONE_ONE, CrLf) == " HTTP/1.1\r\n"
  {
    assert "1"[1..] == "";
  }

  lemma HomeHeaders()
    ensures GoodHeaders(HOME.headers)
            && Said(HOME.headers) == Effect(Flags(false, false, false, false, false), ULLONG_MAX)
    ensures HeaderText(HOME.headers) == "A: \r\nB: x\r\n" && Stored(HOME.headers) == [("B", "x")]
  {
    hide LineEffect, FieldWord, Stored, HeaderText, Effects, GoodHeader, LineText, ValueOf;
    ShortName(A_HEADER);
    ShortName(B_HEADER);
    OneLine(A_HEADER);
    OneLine(B_HEADER);
    TwoHeaders(A_HEADER, B_HEADER);
    assert LineText(A_HEADER) == "A: \r\n" && LineText(B_HEADER) == "B: x\r\n";
  }

  lemma HomeText()
    requires HeaderText(HOME.headers) == "A: \r\nB: x\r\n"
    ensures RequestText(HOME) == HeadText(HOME) == WITHOUT_VALUE
  {
    hide HeaderText, FirstLineText;
    LinesWritten();
  }

  lemma HomeIsGood()
    ensures GoodRequest(HOME) && RequestText(HOME) == HeadText(HOME) == WITHOUT_VALUE
    ensures Received(HOME) == Request(GET, "/", "/", [("B", "x")], "")
  {
    hide GoodUrl, GoodVersion, Said, GoodHeaders, HeaderText, Stored, RequestText, HeadText;
    HomeHeaders();
    HomeText();
    OneOne();
    OriginForm(GET, "/");
  }

  /** An input whose first header is lost. */
  lemma HeaderWithoutValue(m: Machine)
    requires m.end == Running && m.f.state == StartReq && MachineOk(m, 0) && m.f.nread + 31 <= HTTP_MAX_HEADER_SIZE
    ensures Build(Run(m, WITHOUT_VALUE).log).requests
            == Build(m.log).requests + [Request(GET, "/", "/", [("B", "x")], "")]
  {
    hide Run, Build, MachineOk, GoodRequest, RequestText, Received, HeadText, KeepsAlive;
    HomeIsGood();
    RequestArrives(m, HOME);
  }

  const UPLOAD_LINE: seq<byte> := "POST / HTTP/1.1\r\n"
  const UPLOAD_HEADERS: seq<byte> := "Transfer-Encoding: chunked\r\n"
  const UPLOAD_CHUNKS: seq<byte> := "1\r\nx\r\n0\r\nT: y\r\n\r\n"
  const WITH_TRAILER: seq<byte> := UPLOAD_LINE + UPLOAD_HEADERS + "\r\n" + UPLOAD_CHUNKS

  const CODING: Header := Header("Transfer-Encoding", " ", "chunked", [], CrLf)
  const T_HEADER: Header := Header("T", " ", "y", [], CrLf)
  const PIECES: Pieces := Pieces([Chunk("1", "", "x")], "0", "", [T_HEADER], CrLf)
  const POST_LINE: FirstLine := FirstLine([], POST, "POST", 0, "/", ONE_ONE, CrLf)
  const UPLOAD: Written := Written(POST_LINE, [CODING], CrLf, InChunks(PIECES))

  lemma {:induction false} LoweredEach(name: seq<byte>)
    ensures forall i | 0 <= i < |name| :: Lowered(name)[i] == Token(name[i])
    decreases |name|
  {
    hide Token;
    if name != [] {
      var n := |name| - 1;
      LoweredEach(name[..n]);
      assert Lowered(name)[..n] == Lowered(name[..n]);
      forall i | 0 <= i < |name| ensures Lowered(name)[i] == Token(name[i]) {
        if i < n { assert Lowered(name[..n])[i] == Token(name[..n][i]); }
      }
    }
  }

  lemma TokenOf(c: byte)
    ensures 'a' <= c <= 'z' || c == '-' ==> Token(c) == c
    ensures 'A' <= c <= 'Z' ==> Token(c) == (c as int + 32) as char
  {
  }

  lemma CodingName()
    ensures Lowered(CODING.name) == "transfer-encoding" && IsToken(CODING.name)
  {
    hide Lowered, Token;
    var n := CODING.name;
    LoweredEach(n);
    forall i | 0 <= i < |n| ensures 'a' <= n[i] <= 'z' || n[i] == '-' || 'A' <= n[i] <= 'Z' {
    }
    forall i | 0 <= i < |n| ensures Token(n[i]) == if 'A' <= n[i] <= 'Z' then (n[i] as int + 32) as char else n[i] {
      TokenOf(n[i]);
    }
  }

  lemma CodingSays()
    ensures Says(CODING.value, Chunked) && IsValue(CODING.value)
  {
    var v := CODING.value;
    assert v[0] == 'c' && v[1] == 'h' && v[2] == 'u' && v[3] == 'n' && v[4] == 'k' && v[5] == 'e' && v[6] == 'd';
  }

  lemma CodingIsKnown()
    ensures GoodHeader(CODING) && forall e: Effect :: LineEffect(CODING, e) == e.(flags := e.flags.(chunked := true))
  {
    hide Lowered, Token, IsToken, IsValue, Says, Spelling;
    CodingName();
    CodingSays();
    SpelledCoding();
    assert FieldWord(CODING.name) == Matched(TransferEncoding);
  }

  lemma SpelledCoding()
    ensures Spelling(TransferEncoding) == "transfer-encoding" && |Spelling(ContentLength)| == 14
            && |Spelling(Connection)| == 10
    ensures |Spelling(ProxyConnection)| == 16
  {
  }

  lemma UploadHeaders()
    ensures GoodHeaders(UPLOAD.headers)
            && Said(UPLOAD.headers) == Effect(Flags(true, false, false, false, false), ULLONG_MAX)
    ensures HeaderText(UPLOAD.headers) == UPLOAD_HEADERS && Stored(UPLOAD.headers) == [("Transfer-Encoding", "chunked")]
  {
    hide LineEffect, FieldWord, Stored, HeaderText, Effects, GoodHeader, LineText, ValueOf;
    CodingIsKnown();
    OneLine(CODING);
    OneHeader(CODING);
    assert LineText(CODING) == UPLOAD_HEADERS;
  }

  lemma OneDigit(c: byte)
    requires IsDigit(c)
    ensures IsHex([c]) && HexFits(0, [c]) && Hex(0, [c]) == Digit(c) && SizeFits([c], "")
  {
    assert [c][1..] == [];
  }

  lemma OneChunk(c: Chunk)
    ensures EncodedAll([c]) == Encoded(c) && Contents([c]) == c.data
  {
    hide Encoded;
    assert [c][1..] == [] && Encoded(c) + [] == Encoded(c) && c.data + "" == c.data;
  }

  lemma PiecesWritten()
    ensures EncodedAll(PIECES.chunks) == "1\r\nx\r\n" && Contents(PIECES.chunks) == "x"
    ensures SizeLineText(PIECES.size, PIECES.ext) == "0\r\n"
  {
    hide EncodedAll, Contents;
    OneChunk(PIECES.chunks[0]);
    assert SizeLineText("1", "") == "1\r\n";
  }

  lemma TrailersWritten()
    ensures GoodHeaders(PIECES.trailers) && HeaderText(PIECES.trailers) == "T: y\r\n" && Kept(PIECES.trailers) == []
  {
    hide GoodHeader, HeaderText, Kept, GoodHeaders, LineText, ValueOf, LineEffect, Effects;
    ShortName(T_HEADER);
    OneLine(T_HEADER);
    OneHeader(T_HEADER);
  }

  lemma PiecesAreGood()
    ensures GoodPieces(PIECES) && PiecesText(PIECES) == UPLOAD_CHUNKS
    ensures Contents(PIECES.chunks) == "x" && Kept(PIECES.trailers) == []
  {
    hide HeaderText, Kept, GoodHeaders, SizeFits, Hex, HexFits, EncodedAll, Contents, SizeLineText;
    OneDigit('0');
    OneDigit('1');
    PiecesWritten();
    TrailersWritten();
    assert "1\r\nx\r\n" + "0\r\n" + "T: y\r\n" + "\r\n" == UPLOAD_CHUNKS;
  }

  lemma LinesWritten()
    ensures FirstLineText(HOME_LINE) == "GET / HTTP/1.1\r\n" && FirstLineText(POST_LINE) == UPLOAD_LINE
  {
    hide AfterUrl;
    OneOne();
  }

  lemma UploadText()
    requires HeaderText(UPLOAD.headers) == UPLOAD_HEADERS
    requires PiecesText(PIECES) == UPLOAD_CHUNKS
    ensures RequestText(UPLOAD) == WITH_TRAILER && |HeadText(UPLOAD)| <= 47
  {
    hide HeaderText, PiecesText, FirstLineText;
    LinesWritten();
  }

  lemma UploadIsGood()
    ensures GoodRequest(UPLOAD) && RequestText(UPLOAD) == WITH_TRAILER && |HeadText(UPLOAD)| <= 47
    ensures Received(UPLOAD) == Request(POST, "/", "/", [("Transfer-Encoding", "chunked")], "x")
  {
    hide GoodUrl, GoodVersion, Said, GoodHeaders, HeaderText, Stored, RequestText, HeadText, GoodPieces, PiecesText;
    hide Kept, Contents;
    UploadHeaders();
    PiecesAreGood();
    UploadText();
    OneOne();
    OriginForm(POST, "/");
  }

  /** An input whose trailer is lost. */
  lemma TrailerIsLost(m: Machine)
    requires m.end == Running && m.f.state == StartReq && MachineOk(m, 0) && m.f.nread + 47 <= HTTP_MAX_HEADER_SIZE
    ensures Build(Run(m, WITH_TRAILER).log).requests
            == Build(m.log).requests + [Request(POST, "/", "/", [("Transfer-Encoding", "chunked")], "x")]
  {
    hide Run, Build, MachineOk, GoodRequest, RequestText, Received, HeadText, KeepsAlive;
    UploadIsGood();
    RequestArrives(m, UPLOAD);
  }
}
