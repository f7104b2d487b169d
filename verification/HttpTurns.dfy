/** The transitions of the HTTP request parser: what one visit of one state does with a
    byte. Strict mode; callbacks return 0.

    One function a group of states, in the order of the switch; Turn says how a visit ends
    and Act what it delivers. RankFalls bounds the jumps back to the switch. */
module HttpTurns {
  import opened Bytes
  import opened HttpTables

  datatype State =
    | Dead | StartReq | ReqMethod | SpacesBeforeUrl
    | Schema | SchemaSlash | SchemaSlashSlash | ServerStart | Server | ServerWithAt
    | Path | QueryStringStart | QueryString | FragmentStart | Fragment
    | HttpStart | HttpH | HttpHT | HttpHTT | HttpHTTP | FirstMajor | Major | FirstMinor | Minor | LineAlmostDone
    | FieldStart | Field | DiscardWs | DiscardWsAlmostDone | DiscardLws | ValueStart | Value | ValueLws
    | HeaderAlmostDone
    | ChunkSizeStart | ChunkSize | ChunkParameters | ChunkSizeAlmostDone
    | HeadersAlmostDone | HeadersDone
    | ChunkData | ChunkDataAlmostDone | ChunkDataDone | BodyIdentity | MessageDone

  /** PARSING_HEADER */
  predicate ParsingHeader(s: State) {
    !(s.ChunkData? || s.ChunkDataAlmostDone? || s.ChunkDataDone? || s.BodyIdentity? || s.MessageDone?)
  }

  /** The words a header name or value is matched against. */
  datatype Word =
    | Connection | ProxyConnection | ContentLength | TransferEncoding | Upgrade
    | Chunked | KeepAlive | Close

  function Spelling(w: Word): string {
    match w
    case Connection => "connection" case ProxyConnection => "proxy-connection"
    case ContentLength => "content-length" case TransferEncoding => "transfer-encoding"
    case Upgrade => "upgrade" case Chunked => "chunked" case KeepAlive => "keep-alive" case Close => "close"
  }

  datatype HeaderState = General | C | CO | CON | Matching(w: Word) | Matched(w: Word)

  datatype Flags = Flags(chunked: bool, keepAlive: bool, close: bool, trailing: bool, upgrade: bool)

  datatype Fields = Fields(
    state: State, header: HeaderState, index: nat, nread: nat, contentLength: nat,
    major: nat, minor: nat, verb: Method, flags: Flags, upgrade: bool)

  datatype Errno =
    | OK | INVALID_EOF_STATE | HEADER_OVERFLOW | CLOSED_CONNECTION | INVALID_VERSION | INVALID_METHOD | INVALID_URL
    | LF_EXPECTED | INVALID_HEADER_TOKEN | INVALID_CONTENT_LENGTH | INVALID_CHUNK_SIZE | INVALID_CONSTANT | STRICT

  /** What the data callbacks deliver. */
  datatype Kind = UrlText | FieldText | ValueText | BodyText

  datatype Notice = MessageBegin | HeadersComplete | MessageComplete

  /** What a visit does besides changing the fields: nothing; the byte starts or continues
      an element; the element before the byte is delivered; an empty value is delivered;
      a notification. */
  datatype Act = Pass | Start(k: Kind) | Keep(k: Kind) | Flush(k: Kind) | EmptyValue | Tell(n: Notice)

  /** The end of a visit: an error, a failed internal assertion, the next byte, the same
      byte again, or leaving the parser. */
  datatype Turn =
    | Fail(e: Errno) | Broken
    | Go(f: Fields, act: Act) | Again(f: Fields, act: Act) | Exit(f: Fields, act: Act)

  /** Decreases with every `goto reexecute_byte`. */
  function Rank(s: State): nat {
    match s
    case Value | ValueLws | DiscardLws => 3
    case FieldStart => 2
    case HeadersAlmostDone | BodyIdentity => 1
    case _ => 0
  }

  predicate ShouldKeepAlive(f: Fields) {
    if f.major > 0 && f.minor > 0 then !f.flags.close else f.flags.keepAlive
  }

  /** NEW_MESSAGE in strict mode */
  function NewMessage(f: Fields): State {
    if ShouldKeepAlive(f) then StartReq else Dead
  }

  // ---------- request line ----------

  function MethodOf(ch: byte): (m: (bool, Method))
    ensures m.0 ==> MethodName(m.1)[0] == ch
  {
    match ch
    case 'C' => (true, CONNECT) case 'D' => (true, DELETE) case 'G' => (true, GET) case 'H' => (true, HEAD)
    case 'L' => (true, LOCK) case 'M' => (true, MKCOL) case 'N' => (true, NOTIFY) case 'O' => (true, OPTIONS)
    case 'P' => (true, POST) case 'R' => (true, REPORT) case 'S' => (true, SUBSCRIBE) case 'T' => (true, TRACE)
    case 'U' => (true, UNLOCK) case _ => (false, DELETE)
  }

  function TurnStart(f: Fields, ch: byte): Turn {
    if ch == CR || ch == LF then Go(f, Pass)
    else if !MethodOf(ch).0 then Fail(INVALID_METHOD)
    else Go(f.(flags := Flags(false, false, false, false, false), contentLength := ULLONG_MAX,
               verb := MethodOf(ch).1, index := 1, state := ReqMethod), Tell(MessageBegin))
  }

  /** The other method that a letter out of place leads to. */
  function Switch(m: Method, index: nat, ch: byte): (r: (bool, Method)) {
    if m == CONNECT then
      if index == 1 && ch == 'H' then (true, CHECKOUT)
      else if index == 2 && ch == 'P' then (true, COPY) else (false, m)
    else if m == MKCOL then
      if index == 1 && ch == 'O' then (true, MOVE)
      else if index == 1 && ch == 'E' then (true, MERGE)
      else if index == 1 && ch == '-' then (true, MSEARCH)
      else if index == 2 && ch == 'A' then (true, MKACTIVITY)
      else if index == 3 && ch == 'A' then (true, MKCALENDAR) else (false, m)
    else if m == SUBSCRIBE then
      if index == 1 && ch == 'E' then (true, SEARCH) else (false, m)
    else if index == 1 && m == POST then
      if ch == 'R' then (true, PROPFIND)
      else if ch == 'U' then (true, PUT)
      else if ch == 'A' then (true, PATCH) else (false, m)
    else if index == 2 then
      if m == PUT && ch == 'R' then (true, PURGE)
      else if m == UNLOCK && ch == 'S' then (true, UNSUBSCRIBE) else (false, m)
    else if index == 4 && m == PROPFIND && ch == 'P' then (true, PROPPATCH)
    else (false, m)
  }

  function TurnMethod(f: Fields, ch: byte): Turn {
    var name := MethodName(f.verb);
    if ch == '\0' then Fail(INVALID_METHOD)
    else if f.index > |name| then Broken
    else if ch == ' ' && At(name, f.index) == '\0' then Go(f.(state := SpacesBeforeUrl, index := f.index + 1), Pass)
    else if ch == At(name, f.index) then Go(f.(index := f.index + 1), Pass)
    else
      var s := Switch(f.verb, f.index, ch);
      if s.0 then Go(f.(verb := s.1, index := f.index + 1), Pass) else Fail(INVALID_METHOD)
  }

  predicate IsUrlState(s: State) {
    || s.Schema? || s.SchemaSlash? || s.SchemaSlashSlash? || s.ServerStart? || s.Server? || s.ServerWithAt?
    || s.Path? || s.QueryStringStart? || s.QueryString? || s.FragmentStart? || s.Fragment?
  }

  /** parse_url_char */
  function ParseUrlChar(s: State, ch: byte): (t: State)
    ensures t == Dead || IsUrlState(t)
  {
    if ch == ' ' || ch == CR || ch == LF || ch == '\t' || ch == FF then Dead
    else match s
      case SpacesBeforeUrl =>
        if ch == '/' || ch == '*' then Path else if IsAlpha(ch) then Schema else Dead
      case Schema =>
        if IsAlpha(ch) then Schema else if ch == ':' then SchemaSlash else Dead
      case SchemaSlash => if ch == '/' then SchemaSlashSlash else Dead
      case SchemaSlashSlash => if ch == '/' then ServerStart else Dead
      case ServerWithAt | ServerStart | Server =>
        if s == ServerWithAt && ch == '@' then Dead
        else if ch == '/' then Path
        else if ch == '?' then QueryStringStart
        else if ch == '@' then ServerWithAt
        else if IsUserinfoChar(ch) || ch == '[' || ch == ']' then Server else Dead
      case Path =>
        if IsUrlChar(ch) then Path
        else if ch == '?' then QueryStringStart
        else if ch == '#' then FragmentStart else Dead
      case QueryStringStart | QueryString =>
        if IsUrlChar(ch) || ch == '?' then QueryString
        else if ch == '#' then FragmentStart else Dead
      case FragmentStart =>
        if IsUrlChar(ch) || ch == '?' then Fragment
        else if ch == '#' then FragmentStart else Dead
      case Fragment =>
        if IsUrlChar(ch) || ch == '?' || ch == '#' then Fragment else Dead
      case _ => Dead
  }

  function TurnUrl(f: Fields, ch: byte): Turn {
    if f.state == SpacesBeforeUrl && ch == ' ' then Go(f, Pass)
    else if f.state == SpacesBeforeUrl then
      var s := ParseUrlChar(if f.verb == CONNECT then ServerStart else SpacesBeforeUrl, ch);
      if s == Dead then Fail(INVALID_URL) else Go(f.(state := s), Start(UrlText))
    else if f.state.Schema? || f.state.SchemaSlash? || f.state.SchemaSlashSlash? || f.state.ServerStart? then
      var s := ParseUrlChar(f.state, ch);
      if ch == ' ' || ch == CR || ch == LF || s == Dead then Fail(INVALID_URL) else Go(f.(state := s), Keep(UrlText))
    else if ch == ' ' then Go(f.(state := HttpStart), Flush(UrlText))
    else if ch == CR || ch == LF then
      Go(f.(major := 0, minor := 9, state := if ch == CR then LineAlmostDone else FieldStart), Flush(UrlText))
    else
      var s := ParseUrlChar(f.state, ch);
      if s == Dead then Fail(INVALID_URL) else Go(f.(state := s), Keep(UrlText))
  }

  function Expect(f: Fields, ch: byte, c: char, next: State): Turn {
    if ch != c then Fail(STRICT) else Go(f.(state := next), Pass)
  }

  function TurnVersion(f: Fields, ch: byte): Turn {
    match f.state
    case HttpStart =>
      if ch == 'H' then Go(f.(state := HttpH), Pass) else if ch == ' ' then Go(f, Pass) else Fail(INVALID_CONSTANT)
    case HttpH => Expect(f, ch, 'T', HttpHT)
    case HttpHT => Expect(f, ch, 'T', HttpHTT)
    case HttpHTT => Expect(f, ch, 'P', HttpHTTP)
    case HttpHTTP => Expect(f, ch, '/', FirstMajor)
    case FirstMajor =>
      if !('1' <= ch <= '9') then Fail(INVALID_VERSION) else Go(f.(major := Digit(ch), state := Major), Pass)
    case Major =>
      if ch == '.' then Go(f.(state := FirstMinor), Pass)
      else if !IsDigit(ch) || f.major * 10 + Digit(ch) > 999 then Fail(INVALID_VERSION)
      else Go(f.(major := f.major * 10 + Digit(ch)), Pass)
    case FirstMinor =>
      if !IsDigit(ch) then Fail(INVALID_VERSION) else Go(f.(minor := Digit(ch), state := Minor), Pass)
    case Minor =>
      if ch == CR then Go(f.(state := LineAlmostDone), Pass)
      else if ch == LF then Go(f.(state := FieldStart), Pass)
      else if !IsDigit(ch) || f.minor * 10 + Digit(ch) > 999 then Fail(INVALID_VERSION)
      else Go(f.(minor := f.minor * 10 + Digit(ch)), Pass)
    case LineAlmostDone =>
      if ch != LF then Fail(LF_EXPECTED) else Go(f.(state := FieldStart), Pass)
    case _ => Broken
  }

  // ---------- header lines ----------

  function TurnFieldStart(f: Fields, ch: byte): Turn {
    if ch == CR then Go(f.(state := HeadersAlmostDone), Pass)
    else if ch == LF then Again(f.(state := HeadersAlmostDone), Pass)
    else
      var c := Token(ch);
      if c == '\0' then Fail(INVALID_HEADER_TOKEN)
      else
        Go(f.(index := 0, state := Field,
              header := if c == 'c' then C
                        else if c == 'p' then Matching(ProxyConnection)
                        else if c == 't' then Matching(TransferEncoding)
                        else if c == 'u' then Matching(Upgrade) else General),
           Start(FieldText))
  }

  /** One more character against a word: the next index and whether it still matches or is complete. */
  function MatchWord(w: Word, index: nat, c: char): HeaderState {
    if index + 1 > |Spelling(w)| || c != At(Spelling(w), index + 1) then General
    else if index + 1 == |Spelling(w)| - 1 then Matched(if w == ProxyConnection then Connection else w)
    else Matching(w)
  }

  predicate IsFieldWord(w: Word) {
    w.Connection? || w.ProxyConnection? || w.ContentLength? || w.TransferEncoding? || w.Upgrade?
  }

  predicate IsValueWord(w: Word) {
    w.Chunked? || w.KeepAlive? || w.Close?
  }

  function TurnField(f: Fields, ch: byte): Turn {
    var c := Token(ch);
    if c != '\0' then
      match f.header
      case General => Go(f, Keep(FieldText))
      case C => Go(f.(index := f.index + 1, header := if c == 'o' then CO else General), Keep(FieldText))
      case CO => Go(f.(index := f.index + 1, header := if c == 'n' then CON else General), Keep(FieldText))
      case CON =>
        Go(f.(index := f.index + 1,
              header := if c == 'n' then Matching(Connection)
                        else if c == 't' then Matching(ContentLength) else General), Keep(FieldText))
      case Matching(w) =>
        if IsFieldWord(w) then Go(f.(index := f.index + 1, header := MatchWord(w, f.index, c)), Keep(FieldText))
        else Broken
      case Matched(w) =>
        if IsFieldWord(w) then Go(if ch != ' ' then f.(header := General) else f, Keep(FieldText)) else Broken
    else if ch == ':' then Go(f.(state := DiscardWs), Flush(FieldText))
    else if ch == CR then Go(f.(state := HeaderAlmostDone), Flush(FieldText))
    else if ch == LF then Go(f.(state := FieldStart), Flush(FieldText))
    else Fail(INVALID_HEADER_TOKEN)
  }

  function TurnValueStart(f: Fields, ch: byte): Turn {
    var c := Lower(ch);
    var g := f.(state := Value, index := 0);
    match f.header
    case Matched(Upgrade) => Go(g.(flags := f.flags.(upgrade := true), header := General), Start(ValueText))
    case Matched(TransferEncoding) =>
      Go(g.(header := if c == 'c' then Matching(Chunked) else General), Start(ValueText))
    case Matched(ContentLength) =>
      if !IsDigit(ch) then Fail(INVALID_CONTENT_LENGTH) else Go(g.(contentLength := Digit(ch)), Start(ValueText))
    case Matched(Connection) =>
      Go(g.(header := if c == 'k' then Matching(KeepAlive) else if c == 'c' then Matching(Close) else General),
         Start(ValueText))
    case _ => Go(g.(header := General), Start(ValueText))
  }

  /** The next Content-Length: a space is skipped, and a limit keeps the number below ULLONG_MAX. */
  function TurnContentLength(f: Fields, ch: byte): Turn {
    if ch == ' ' then Go(f, Keep(ValueText))
    else if !IsDigit(ch) || (ULLONG_MAX - 10) / 10 < f.contentLength then Fail(INVALID_CONTENT_LENGTH)
    else Go(f.(contentLength := (f.contentLength * 10 + Digit(ch)) % (ULLONG_MAX + 1)), Keep(ValueText))
  }

  function TurnValue(f: Fields, ch: byte): Turn {
    if ch == CR then Go(f.(state := HeaderAlmostDone), Flush(ValueText))
    else if ch == LF then Again(f.(state := HeaderAlmostDone), Flush(ValueText))
    else
      match f.header
      case General => Go(f, Keep(ValueText))
      case Matched(w) =>
        if w == Connection || w == TransferEncoding then Broken
        else if w == ContentLength then TurnContentLength(f, ch)
        else Go(if ch != ' ' || !IsValueWord(w) then f.(header := General) else f, Keep(ValueText))
      case Matching(w) =>
        if IsValueWord(w) then
          Go(f.(index := f.index + 1, header := MatchWord(w, f.index, Lower(ch))), Keep(ValueText))
        else Go(f.(header := General), Keep(ValueText))
      case _ => Go(f.(header := General), Keep(ValueText))
  }

  function TurnLws(f: Fields, ch: byte): Turn {
    if ch == ' ' || ch == '\t' then Again(f.(state := ValueStart), Pass)
    else
      var g := f.(state := FieldStart);
      match f.header
      case Matched(KeepAlive) => Again(g.(flags := f.flags.(keepAlive := true)), Pass)
      case Matched(Close) => Again(g.(flags := f.flags.(close := true)), Pass)
      case Matched(Chunked) => Again(g.(flags := f.flags.(chunked := true)), Pass)
      case _ => Again(g, Pass)
  }

  function TurnHeader(f: Fields, ch: byte): Turn {
    match f.state
    case FieldStart => TurnFieldStart(f, ch)
    case Field => TurnField(f, ch)
    case DiscardWs =>
      if ch == ' ' || ch == '\t' then Go(f, Pass)
      else if ch == CR then Go(f.(state := DiscardWsAlmostDone), Pass)
      else if ch == LF then Go(f.(state := DiscardLws), Pass)
      else TurnValueStart(f, ch)
    case ValueStart => TurnValueStart(f, ch)
    case Value => TurnValue(f, ch)
    case HeaderAlmostDone => Expect(f, ch, LF, ValueLws)
    case ValueLws => TurnLws(f, ch)
    case DiscardWsAlmostDone => Expect(f, ch, LF, DiscardLws)
    case DiscardLws =>
      if ch == ' ' || ch == '\t' then Go(f.(state := DiscardWs), Pass)
      else Again(f.(state := FieldStart), EmptyValue)
    case _ => Broken
  }

  // ---------- the end of the headers and bodies ----------

  function TurnHeadersEnd(f: Fields, ch: byte): Turn {
    if ch != LF then Fail(STRICT)
    else if f.state == HeadersAlmostDone then
      if f.flags.trailing then Go(f.(state := NewMessage(f)), Tell(MessageComplete))
      else Again(f.(state := HeadersDone, upgrade := f.flags.upgrade || f.verb == CONNECT), Tell(HeadersComplete))
    else
      var g := f.(nread := 0);
      if f.upgrade then Exit(g.(state := NewMessage(f)), Tell(MessageComplete))
      else if f.flags.chunked then Go(g.(state := ChunkSizeStart), Pass)
      else if f.contentLength == 0 then Go(g.(state := NewMessage(f)), Tell(MessageComplete))
      else if f.contentLength != ULLONG_MAX then Go(g.(state := BodyIdentity), Pass)
      else Go(g.(state := NewMessage(f)), Tell(MessageComplete))
  }

  /** The states that take body bytes, one byte at a time. */
  function TurnData(f: Fields, ch: byte): Turn {
    if f.contentLength == 0 || f.contentLength == ULLONG_MAX then Broken
    else
      var g := f.(contentLength := f.contentLength - 1);
      if f.state == BodyIdentity then
        if g.contentLength == 0 then Again(g.(state := MessageDone), Start(BodyText)) else Go(g, Start(BodyText))
      else if !f.flags.chunked then Broken
      else if g.contentLength == 0 then Go(g.(state := ChunkDataAlmostDone), Start(BodyText))
      else Go(g, Start(BodyText))
  }

  function TurnChunkSize(f: Fields, ch: byte): Turn {
    if ch == CR then Go(f.(state := ChunkSizeAlmostDone), Pass)
    else if Unhex(ch) == -1 then
      if ch == ';' || ch == ' ' then Go(f.(state := ChunkParameters), Pass) else Fail(INVALID_CHUNK_SIZE)
    else if (ULLONG_MAX - 16) / 16 < f.contentLength then Fail(INVALID_CONTENT_LENGTH)
    else Go(f.(contentLength := (f.contentLength * 16 + Unhex(ch)) % (ULLONG_MAX + 1)), Pass)
  }

  function TurnChunk(f: Fields, ch: byte): Turn {
    if !f.flags.chunked then Broken
    else
      match f.state
      case ChunkSizeStart =>
        if f.nread != 1 then Broken
        else if Unhex(ch) == -1 then Fail(INVALID_CHUNK_SIZE)
        else Go(f.(contentLength := Unhex(ch), state := ChunkSize), Pass)
      case ChunkSize => TurnChunkSize(f, ch)
      case ChunkParameters => if ch == CR then Go(f.(state := ChunkSizeAlmostDone), Pass) else Go(f, Pass)
      case ChunkSizeAlmostDone =>
        if ch != LF then Fail(STRICT)
        else if f.contentLength == 0 then
          Go(f.(nread := 0, flags := f.flags.(trailing := true), state := FieldStart), Pass)
        else Go(f.(nread := 0, state := ChunkData), Pass)
      case ChunkDataAlmostDone =>
        if f.contentLength != 0 then Broken
        else if ch != CR then Fail(STRICT) else Go(f.(state := ChunkDataDone), Flush(BodyText))
      case ChunkDataDone =>
        if ch != LF then Fail(STRICT) else Go(f.(nread := 0, state := ChunkSizeStart), Pass)
      case _ => Broken
  }

  /** One visit of the switch. */
  function OneTurn(f: Fields, ch: byte): Turn {
    match f.state
    case Dead => if ch == CR || ch == LF then Go(f, Pass) else Fail(CLOSED_CONNECTION)
    case StartReq => TurnStart(f, ch)
    case ReqMethod => TurnMethod(f, ch)
    case HttpStart | HttpH | HttpHT | HttpHTT | HttpHTTP | FirstMajor | Major | FirstMinor | Minor | LineAlmostDone =>
      TurnVersion(f, ch)
    case FieldStart | Field | DiscardWs | DiscardWsAlmostDone | DiscardLws | ValueStart | Value | ValueLws
       | HeaderAlmostDone => TurnHeader(f, ch)
    case HeadersAlmostDone | HeadersDone => TurnHeadersEnd(f, ch)
    case BodyIdentity | ChunkData => TurnData(f, ch)
    case MessageDone => Go(f.(state := NewMessage(f)), Tell(MessageComplete))
    case ChunkSizeStart | ChunkSize | ChunkParameters | ChunkSizeAlmostDone | ChunkDataAlmostDone | ChunkDataDone =>
      TurnChunk(f, ch)
    case _ => TurnUrl(f, ch)
  }

  /** `goto reexecute_byte` always goes to a state of lower rank. */
  lemma RankFalls(f: Fields, ch: byte)
    ensures OneTurn(f, ch).Again? ==> Rank(OneTurn(f, ch).f.state) < Rank(f.state)
  {
    hide TurnStart, TurnMethod, TurnUrl, TurnVersion, TurnHeader, TurnHeadersEnd, TurnData, TurnChunk;
    NoAgain(f, ch);
    AgainFalls(f, ch);
  }

  predicate MovesOn(t: Turn) {
    !t.Again? && !t.Exit?
  }

  lemma NoAgain(f: Fields, ch: byte)
    ensures MovesOn(TurnStart(f, ch)) && MovesOn(TurnMethod(f, ch)) && MovesOn(TurnUrl(f, ch))
    ensures MovesOn(TurnVersion(f, ch)) && MovesOn(TurnChunk(f, ch))
  {
    hide TurnStart, TurnMethod, TurnUrl, TurnVersion, TurnChunk, MovesOn;
    RequestMovesOn(f, ch);
    ChunkMovesOn(f, ch);
  }

  lemma RequestMovesOn(f: Fields, ch: byte)
    ensures MovesOn(TurnStart(f, ch)) && MovesOn(TurnMethod(f, ch)) && MovesOn(TurnUrl(f, ch))
  {
    hide ParseUrlChar, MethodOf, Switch, MethodName;
  }

  lemma ChunkMovesOn(f: Fields, ch: byte)
    ensures MovesOn(TurnVersion(f, ch)) && MovesOn(TurnChunk(f, ch))
  {
    hide Unhex;
  }

  lemma AgainFalls(f: Fields, ch: byte)
    ensures TurnHeader(f, ch).Again? ==> Rank(TurnHeader(f, ch).f.state) < Rank(f.state)
    ensures (f.state.HeadersAlmostDone? || f.state.HeadersDone?) && TurnHeadersEnd(f, ch).Again?
            ==> Rank(TurnHeadersEnd(f, ch).f.state) < Rank(f.state)
    ensures TurnData(f, ch).Again? ==> Rank(TurnData(f, ch).f.state) < Rank(f.state)
  {
    hide Token, Lower, MatchWord;
  }

  /** Outside a body, a byte that is met again is not yet part of anything, and body bytes
      are never met by jumping back. */
  lemma AgainIsNoData(f: Fields, ch: byte)
    ensures (OneTurn(f, ch).Again? && !f.state.BodyIdentity?) || OneTurn(f, ch).Exit?
            ==> !OneTurn(f, ch).act.Start? && !OneTurn(f, ch).act.Keep?
    ensures OneTurn(f, ch).Again? ==> !OneTurn(f, ch).f.state.BodyIdentity? && !OneTurn(f, ch).f.state.ChunkData?
  {
    hide TurnStart, TurnMethod, TurnUrl, TurnVersion, TurnHeader, TurnHeadersEnd, TurnData, TurnChunk;
    NoAgain(f, ch);
    HeaderAgain(f, ch);
    EndAgain(f, ch);
  }

  predicate NoBytes(t: Turn) {
    t.Again? || t.Exit? ==> !t.act.Start? && !t.act.Keep? && !t.f.state.BodyIdentity? && !t.f.state.ChunkData?
  }

  lemma HeaderAgain(f: Fields, ch: byte)
    ensures NoBytes(TurnHeader(f, ch)) && !TurnHeader(f, ch).Exit?
  {
    hide Token, Lower, MatchWord, TurnValueStart;
    ValueStartGoes(f, ch);
  }

  lemma EndAgain(f: Fields, ch: byte)
    ensures f.state.HeadersAlmostDone? || f.state.HeadersDone? ==> NoBytes(TurnHeadersEnd(f, ch))
    ensures f.state.BodyIdentity? || f.state.ChunkData? ==>
              var t := TurnData(f, ch);
              !t.Exit? && (t.Again? ==> f.state.BodyIdentity? && t.f.state.MessageDone?)
  {
  }

  lemma ValueStartGoes(f: Fields, ch: byte)
    ensures MovesOn(TurnValueStart(f, ch))
  {
    hide Lower;
  }
}
