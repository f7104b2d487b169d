/** Whole requests: what arrives of a request that was written, with any headers, a body of a
    given length, a chunked body with trailers or none, and of any number of them on one
    connection.

    The parts are read by modules HttpFirstLine, HttpHeaders and HttpLengths. */
module HttpRequests {
  import opened Bytes
  import opened HttpTables
  import opened HttpTurns
  import opened HttpMachine
  import opened HttpInvariant
  import opened HttpBuilder
  import opened HttpLengths
  import opened HttpValues
  import opened HttpLines
  import opened HttpHeaders
  import opened HttpFirstLine

  /** What follows the head. */
  datatype Payload = NoBody | Sized(data: seq<byte>) | InChunks(p: Pieces)

  /** A request to be written: its first line, headers, the end of the blank line, and body. */
  datatype Written = Written(line: FirstLine, headers: seq<Header>, blank: Eol, payload: Payload)

  /** What the headers say of the body and the connection. */
  function Said(hs: seq<Header>): Effect
    requires GoodHeaders(hs)
  {
    Effects(hs, Effect(Flags(false, false, false, false, false), ULLONG_MAX))
  }

  /** The headers announce the body that follows. */
  predicate Announced(e: Effect, payload: Payload) {
    match payload
    case NoBody => !e.flags.chunked && (e.contentLength == 0 || e.contentLength == ULLONG_MAX)
    case Sized(d) => !e.flags.chunked && 0 < |d| == e.contentLength < ULLONG_MAX
    case InChunks(p) => e.flags.chunked && GoodPieces(p)
  }

  predicate GoodRequest(q: Written) {
    && q.line.verb != CONNECT && GoodFirstLine(q.line)
    && GoodHeaders(q.headers) && !Said(q.headers).flags.upgrade && Announced(Said(q.headers), q.payload)
  }

  function HeadText(q: Written): seq<byte> {
    FirstLineText(q.line) + (HeaderText(q.headers) + EolText(q.blank))
  }

  function PayloadText(payload: Payload): seq<byte> {
    match payload
    case NoBody => []
    case Sized(d) => d
    case InChunks(p) => PiecesText(p)
  }

  function RequestText(q: Written): seq<byte> {
    HeadText(q) + PayloadText(q.payload)
  }

  function Trailers(payload: Payload): seq<Header> {
    if payload.InChunks? then payload.p.trailers else []
  }

  function Data(payload: Payload): string {
    match payload
    case NoBody => ""
    case Sized(d) => d
    case InChunks(p) => Contents(p.chunks)
  }

  /** The request that is handed over. */
  function Received(q: Written): Request {
    Request(q.line.verb, q.line.url, BeforeQuery(q.line.url), Stored(q.headers) + Kept(Trailers(q.payload)),
            Data(q.payload))
  }

  /** Version 1.1, or any with two numbers above zero. */
  predicate IsLate(v: Version) {
    GoodVersion(v) && MajorOf(v) > 0 && MinorOf(v) > 0
  }

  /** The connection stays open after the request: unless it is told to close from HTTP/1.1
      on, only if it is told to be kept before. Trailers can say so too. */
  predicate KeepsAlive(q: Written) {
    var all := q.headers + Trailers(q.payload);
    if IsLate(q.line.version) then !SomeSays(all, Connection, Close) else SomeSays(all, Connection, KeepAlive)
  }

  /** The header bytes still counted after the request: those of the trailers. */
  function Counts(q: Written): nat {
    if q.payload.InChunks? then |HeaderText(q.payload.p.trailers)| + |EolText(q.payload.p.blank)| else 0
  }

  // ---------- the head ----------

  /** The fields after the head. */
  predicate HeadFields(q: Written, f: Fields)
    requires GoodRequest(q)
  {
    var e := Said(q.headers);
    && f.verb == q.line.verb && f.major == MajorOf(q.line.version) && f.minor == MinorOf(q.line.version) && f.nread == 0
    && f.flags == e.flags && f.contentLength == e.contentLength && f.state == AfterHead(f)
  }

  lemma HeadRead(m: Machine, q: Written) returns (r: Machine)
    requires m.end == Running && m.f.state == StartReq && MachineOk(m, 0) && GoodRequest(q)
    requires m.f.nread + |HeadText(q)| <= HTTP_MAX_HEADER_SIZE
    ensures r == Run(m, HeadText(q)) && r.end == Running && MachineOk(r, 0) && HeadFields(q, r.f)
    ensures var b := Fresh.(requests := Build(m.log).requests, rawUrl := q.line.url, headers := Stored(q.headers));
            Build(r.log) == if q.payload == NoBody then OnNotice(b, MessageComplete, r.f) else b
  {
    hide OnByte, Run, Build, MachineOk, OnNotice, WithHeaders, FirstLineText, GoodFirstLine, GoodPieces, GoodHeader;
    hide LineEffect;
    hide NewMessage, HeaderText, MajorOf, MinorOf, LogOk, EolText;
    var line, t := FirstLineText(q.line), HeaderText(q.headers);
    LineIsGood(q);
    var m1 := FirstLineRead(m, q.line);
    RunOk(m, line);
    var m2 := HeadersRead(m1, q.headers, EolText(q.blank));
    EffectsBound(q.headers, EffectOf(m1.f));
    BlankLine(m2, q.blank);
    r := Run(m2, EolText(q.blank));
    SameNewMessage(m2.f, r.f);
    RunSplit(m, line, t + EolText(q.blank));
    RunOk(m, HeadText(q));
    NamesAreThere(q.headers);
    AllCollected(Build(m1.log), q.headers, r.f);
  }

  lemma LineIsGood(q: Written)
    requires GoodRequest(q)
    ensures GoodFirstLine(q.line) && GoodVersion(q.line.version)
  {
  }

  lemma NamesAreThere(hs: seq<Header>)
    requires GoodHeaders(hs)
    ensures forall i | 0 <= i < |hs| :: hs[i].name != []
  {
    hide IsPad, IsValue, FieldWord, IsLength;
    forall i | 0 <= i < |hs| ensures hs[i].name != [] {
      assert GoodHeader(hs[i]);
    }
  }

  // ---------- the whole text ----------

  lemma HeadMeans(q: Written, f: Fields)
    requires GoodRequest(q) && HeadFields(q, f)
    ensures match q.payload
            case NoBody => f.state == NewMessage(f)
            case Sized(d) => f.state == BodyIdentity && 0 < |d| == f.contentLength < ULLONG_MAX
            case InChunks(p) => AtChunk(f) && GoodPieces(p)
  {
    hide NewMessage, GoodFirstLine, GoodPieces, GoodHeader, LineEffect;
  }

  /** The flags after the whole request. */
  function FlagsAtEnd(q: Written): Flags
    requires GoodRequest(q)
  {
    var flags := Said(q.headers).flags;
    if q.payload.InChunks? then TrailerFlags(q.payload.p, flags) else flags
  }

  lemma SayEither(a: seq<Header>, b: seq<Header>, name: Word, w: Word)
    ensures SomeSays(a + b, name, w) <==> SomeSays(a, name, w) || SomeSays(b, name, w)
    decreases |b|
  {
    hide SomeSays;
    NoneSays();
    if b == [] {
      assert a + b == a;
    } else {
      var n := |b| - 1;
      assert (a + b)[..|a + b| - 1] == a + b[..n] && (a + b)[|a + b| - 1] == b[n];
      SayEither(a, b[..n], name, w);
      SayMore(a + b, name, w);
      SayMore(b, name, w);
    }
  }

  lemma TrailersAreGood(q: Written)
    requires GoodRequest(q)
    ensures GoodHeaders(Trailers(q.payload))
  {
    hide GoodFirstLine, GoodHeader, Effects;
  }

  lemma FlagsMean(q: Written)
    requires GoodRequest(q)
    ensures var all := q.headers + Trailers(q.payload);
            && (FlagsAtEnd(q).close <==> SomeSays(all, Connection, Close))
            && (FlagsAtEnd(q).keepAlive <==> SomeSays(all, Connection, KeepAlive))
  {
    hide SomeSays, GoodFirstLine, Effects, GoodHeaders, Announced;
    var none := Flags(false, false, false, false, false);
    TrailersAreGood(q);
    EffectsSay(q.headers, Effect(none, ULLONG_MAX));
    EffectsSay(Trailers(q.payload), Effect(Said(q.headers).flags.(trailing := true), 0));
    NoneSays();
    SayEither(q.headers, Trailers(q.payload), Connection, Close);
    SayEither(q.headers, Trailers(q.payload), Connection, KeepAlive);
  }

  lemma StaysOpen(q: Written, f: Fields)
    requires GoodRequest(q) && f.flags == FlagsAtEnd(q)
    requires f.major == MajorOf(q.line.version) && f.minor == MinorOf(q.line.version)
    ensures NewMessage(f) == if KeepsAlive(q) then StartReq else Dead
  {
    hide SomeSays, FlagsAtEnd, GoodHeaders, Announced, MajorOf, MinorOf;
    FlagsMean(q);
  }

  lemma NoTrailers(hs: seq<(string, string)>)
    ensures hs + Kept([]) == hs
  {
  }

  /** The body, or the chunks and trailers, after the head. */
  lemma PayloadArrives(m: Machine, q: Written)
    requires m.end == Running && MachineOk(m, 0) && GoodRequest(q) && HeadFields(q, m.f)
    requires q.payload != NoBody && Settled(Build(m.log))
    ensures var r := Run(m, PayloadText(q.payload));
            var b := Build(m.log);
            && r.end == Running && r.f.nread == Counts(q)
            && r.f.state == NewMessage(m.f.(flags := FlagsAtEnd(q)))
            && Build(r.log).requests
               == b.requests + [Request(m.f.verb, b.rawUrl, BeforeQuery(b.rawUrl),
                                        b.headers + Kept(Trailers(q.payload)),
                                        b.body + Data(q.payload))]
  {
    hide OnByte, Run, Build, MachineOk, NewMessage, BeforeQuery, GoodRequest, AtChunk, GoodPieces, Kept, Effects;
    HeadMeans(q, m.f);
    match q.payload
    case Sized(d) =>
      IdentityBody(m, d);
      NoTrailers(Build(m.log).headers);
    case InChunks(p) =>
      ChunkedBody(m, p);
  }

  /** A well-formed request is handed over as Received says, and the parser is ready for the
      next one exactly if the connection stays open. */
  lemma RequestArrives(m: Machine, q: Written)
    requires m.end == Running && m.f.state == StartReq && MachineOk(m, 0) && GoodRequest(q)
    requires m.f.nread + |HeadText(q)| <= HTTP_MAX_HEADER_SIZE
    ensures var r := Run(m, RequestText(q));
            && r.end == Running && r.f.nread == Counts(q) && MachineOk(r, 0)
            && r.f.state == (if KeepsAlive(q) then StartReq else Dead)
            && Build(r.log).requests == Build(m.log).requests + [Received(q)]
  {
    hide OnByte, Run, Build, MachineOk, HeadText, BeforeQuery, GoodRequest, NewMessage, KeepsAlive, PayloadText, Kept;
    hide Stored;
    hide FlagsAtEnd, Said, Data, Trailers, MajorOf, MinorOf;
    LineIsGood(q);
    var r := HeadRead(m, q);
    RunSplit(m, HeadText(q), PayloadText(q.payload));
    RunOk(m, RequestText(q));
    HeadMeans(q, r.f);
    StaysOpen(q, r.f.(flags := FlagsAtEnd(q)));
    if q.payload == NoBody {
      NothingFollows(q, r);
      assert Stored(q.headers) + [] == Stored(q.headers);
    } else {
      PayloadArrives(r, q);
      assert "" + Data(q.payload) == Data(q.payload);
    }
  }

  lemma NothingFollows(q: Written, r: Machine)
    requires GoodRequest(q) && q.payload == NoBody
    ensures Run(r, PayloadText(q.payload)) == r && Data(q.payload) == "" && Kept(Trailers(q.payload)) == []
    ensures FlagsAtEnd(q) == Said(q.headers).flags
  {
    hide GoodRequest, Said;
    RunZero(r);
  }

  // ---------- another protocol ----------

  /** A head that asks for an upgrade, whatever body it announces. */
  predicate GoodUpgrade(q: Written) {
    && q.line.verb != CONNECT && GoodFirstLine(q.line)
    && GoodHeaders(q.headers) && Said(q.headers).flags.upgrade
  }

  /** A request that asks for an upgrade is handed over without a body, and the parser leaves
      what follows unread. */
  lemma UpgradeArrives(m: Machine, q: Written, more: seq<byte>)
    requires m.end == Running && m.f.state == StartReq && MachineOk(m, 0) && GoodUpgrade(q)
    requires m.f.nread + |HeadText(q)| <= HTTP_MAX_HEADER_SIZE
    ensures var r := Run(m, HeadText(q) + more);
            && r.end == Left && r.read == m.read + |HeadText(q)|
            && Build(r.log).requests
               == Build(m.log).requests
                  + [Request(q.line.verb, q.line.url, BeforeQuery(q.line.url), Stored(q.headers), "")]
  {
    hide OnByte, Run, Build, MachineOk, OnNotice, WithHeaders, FirstLineText, GoodFirstLine, GoodHeader, LineEffect;
    hide NewMessage, HeaderText, MajorOf, MinorOf, LogOk, EolText, BeforeQuery, Stored;
    var line, t, end := FirstLineText(q.line), HeaderText(q.headers), EolText(q.blank);
    UpgradeLine(q);
    var m1 := FirstLineRead(m, q.line);
    RunOk(m, line);
    EndNotBlank(q.blank, more);
    var m2 := HeadersRead(m1, q.headers, end + more);
    EffectsBound(q.headers, EffectOf(m1.f));
    UpgradeLeaves(m2, q.blank, more);
    RunSplit(m, line, t + (end + more));
    assert HeadText(q) + more == line + (t + (end + more));
    NamesAreThere(q.headers);
    var r := Run(m, HeadText(q) + more);
    AllCollected(Build(m1.log), q.headers, r.f);
    HandedOver(Fresh.(requests := Build(m.log).requests, rawUrl := q.line.url, headers := Stored(q.headers)), r.f);
  }

  lemma UpgradeLine(q: Written)
    requires GoodUpgrade(q)
    ensures GoodFirstLine(q.line) && GoodVersion(q.line.version)
  {
  }

  lemma EndNotBlank(eol: Eol, more: seq<byte>)
    ensures EolText(eol) + more != [] && !IsBlank((EolText(eol) + more)[0])
  {
  }

  lemma HandedOver(b: Builder, f: Fields)
    requires b.body == ""
    ensures OnNotice(b, MessageComplete, f).requests
            == b.requests + [Request(f.verb, b.rawUrl, BeforeQuery(b.rawUrl), b.headers, "")]
  {
  }

  // ---------- what is lost ----------

  /** Everything that was written arrives exactly if every header but the last has a value
      and no trailers were sent. */
  lemma HeadersArrive(m: Machine, q: Written)
    requires m.end == Running && m.f.state == StartReq && MachineOk(m, 0) && GoodRequest(q)
    requires m.f.nread + |HeadText(q)| <= HTTP_MAX_HEADER_SIZE
    ensures var r := Build(Run(m, RequestText(q)).log).requests;
            && r != []
            && (r[|r| - 1].headers == Pairs(q.headers) + Pairs(Trailers(q.payload))
                <==> HaveValues(ButLast(q.headers)) && Trailers(q.payload) == [])
  {
    hide Run, Build, MachineOk, HeadText, RequestText, GoodRequest, Stored, Kept, Pairs, BeforeQuery, KeepsAlive;
    RequestArrives(m, q);
    HeadersAreStored(q.headers, Trailers(q.payload));
  }

  // ---------- requests one after the other ----------

  function RequestsText(qs: seq<Written>): seq<byte> {
    if qs == [] then [] else RequestText(qs[0]) + RequestsText(qs[1..])
  }

  function AllReceived(qs: seq<Written>): seq<Request> {
    if qs == [] then [] else [Received(qs[0])] + AllReceived(qs[1..])
  }

  /** Good requests whose heads are short enough, after n counted header bytes; each but the
      last leaves the connection open. */
  predicate InLine(n: nat, qs: seq<Written>)
    decreases |qs|
  {
    qs != [] ==> HeadFits(n, qs[0]) && (|qs| > 1 ==> KeepsAlive(qs[0])) && InLine(Counts(qs[0]), qs[1..])
  }

  predicate HeadFits(n: nat, q: Written) {
    GoodRequest(q) && n + |HeadText(q)| <= HTTP_MAX_HEADER_SIZE
  }

  lemma InLineFirst(n: nat, qs: seq<Written>)
    requires qs != [] && InLine(n, qs)
    ensures HeadFits(n, qs[0]) && (|qs| > 1 ==> KeepsAlive(qs[0])) && InLine(Counts(qs[0]), qs[1..])
  {
    hide HeadFits, KeepsAlive, Counts;
  }

  lemma FirstReceived(before: seq<Request>, qs: seq<Written>)
    requires qs != []
    ensures before + [Received(qs[0])] + AllReceived(qs[1..]) == before + AllReceived(qs)
  {
    hide Received;
  }

  /** Any number of requests on one connection are handed over in order. */
  lemma {:induction false} RequestsArrive(m: Machine, qs: seq<Written>)
    requires m.end == Running && m.f.state == StartReq && MachineOk(m, 0) && InLine(m.f.nread, qs)
    ensures var r := Run(m, RequestsText(qs));
            && r.end == Running && Build(r.log).requests == Build(m.log).requests + AllReceived(qs)
            && r.f.state == if qs == [] || KeepsAlive(qs[|qs| - 1]) then StartReq else Dead
    decreases |qs|
  {
    hide Run, Build, MachineOk, RequestText, KeepsAlive, Received, Counts, InLine, GoodRequest, HeadText;
    if qs == [] {
      RunZero(m);
    } else {
      hide AllReceived;
      InLineFirst(m.f.nread, qs);
      RequestArrives(m, qs[0]);
      var m1 := Run(m, RequestText(qs[0]));
      RunSplit(m, RequestText(qs[0]), RequestsText(qs[1..]));
      FirstReceived(Build(m.log).requests, qs);
      if |qs| == 1 {
        NoneLeft(m1);
      } else {
        RequestsArrive(m1, qs[1..]);
      }
    }
  }

  lemma NoneLeft(m: Machine)
    ensures Run(m, RequestsText([])) == m && AllReceived([]) == []
  {
    RunZero(m);
  }

  /** After a message that closes the connection nothing more is delivered: line ends are
      skipped, any other byte is an error, and so is an endless run of line ends. */
  lemma {:induction false} NothingAfterClose(m: Machine, data: seq<byte>)
    requires m.end == Running && m.f.state == Dead && m.f.nread <= HTTP_MAX_HEADER_SIZE
    ensures var r := Run(m, data);
            && r.log == m.log && Build(r.log).requests == Build(m.log).requests
            && (r.end == Running <==> m.f.nread + |data| <= HTTP_MAX_HEADER_SIZE
                                      && forall i | 0 <= i < |data| :: data[i] == CR || data[i] == LF)
            && (r.end != Running ==> r.end == Failed(CLOSED_CONNECTION) || r.end == Failed(HEADER_OVERFLOW))
    decreases |data|
  {
    hide Build, TurnStart, TurnMethod, TurnUrl, TurnVersion, TurnHeader, TurnHeadersEnd, TurnData, TurnChunk;
    if data != [] {
      var r := OnByte(m, data[0]);
      if r.end == Running {
        NothingAfterClose(r, data[1..]);
        assert data == [data[0]] + data[1..];
      }
    }
  }
}
