/** What holds in every reachable state of the HTTP parser: no internal assertion can fail,
    lengths stay below the sentinel, and the method is the one spelled out.

    Each group of states has its own lemma about one visit; EveryTurnOk and EveryTurnFits
    put them together, and RunOk follows for every input. */
module HttpInvariant {
  import opened Bytes
  import opened HttpTables
  import opened HttpTurns
  import opened HttpMachine

  /** What a visit guarantees: no internal assertion fails, and the fields stay in range. */
  predicate TurnOk(t: Turn) {
    match t
    case Fail(e) => e != OK
    case Broken => false
    case Go(f, _) => FieldsOk(f, 0)
    case Again(f, _) => FieldsOk(f, 1)
    case Exit(f, _) => FieldsOk(f, 0)
  }

  /** The names agree on the letters before this one, and the second has this letter here. */
  predicate Continues(from: Method, to: Method, index: nat, ch: char) {
    var a, b := MethodName(from), MethodName(to);
    index < |b| && b[index] == ch && index <= |a| && forall i | 0 <= i < index :: a[i] == b[i]
  }

  /** The other method agrees up to and including the letter, so the index stays inside its name. */
  lemma SwitchOk(m: Method, index: nat, ch: byte)
    ensures Switch(m, index, ch).0 ==> Continues(m, Switch(m, index, ch).1, index, ch)
  {
    hide MethodName, Continues;
    SwitchNames();
  }

  lemma SwitchNames()
    ensures Continues(CONNECT, CHECKOUT, 1, 'H') && Continues(CONNECT, COPY, 2, 'P')
    ensures Continues(MKCOL, MOVE, 1, 'O') && Continues(MKCOL, MERGE, 1, 'E') && Continues(MKCOL, MSEARCH, 1, '-')
    ensures Continues(MKCOL, MKACTIVITY, 2, 'A') && Continues(MKCOL, MKCALENDAR, 3, 'A')
    ensures Continues(SUBSCRIBE, SEARCH, 1, 'E')
    ensures Continues(POST, PROPFIND, 1, 'R') && Continues(POST, PUT, 1, 'U') && Continues(POST, PATCH, 1, 'A')
    ensures Continues(PUT, PURGE, 2, 'R') && Continues(UNLOCK, UNSUBSCRIBE, 2, 'S')
    ensures Continues(PROPFIND, PROPPATCH, 4, 'P')
  {
    hide MethodName, Continues;
    NamesC();
    NamesM();
    NamesMk();
    NamesS();
    NamesP();
    NamesU();
    NamesProp();
  }

  lemma NamesC()
    ensures Continues(CONNECT, CHECKOUT, 1, 'H') && Continues(CONNECT, COPY, 2, 'P')
  {
  }

  lemma NamesM()
    ensures Continues(MKCOL, MOVE, 1, 'O') && Continues(MKCOL, MERGE, 1, 'E') && Continues(MKCOL, MSEARCH, 1, '-')
  {
  }

  lemma NamesMk()
    ensures Continues(MKCOL, MKACTIVITY, 2, 'A') && Continues(MKCOL, MKCALENDAR, 3, 'A')
  {
  }

  lemma NamesS()
    ensures Continues(SUBSCRIBE, SEARCH, 1, 'E')
  {
  }

  lemma NamesP()
    ensures Continues(POST, PROPFIND, 1, 'R') && Continues(POST, PUT, 1, 'U') && Continues(POST, PATCH, 1, 'A')
  {
  }

  lemma NamesU()
    ensures Continues(PUT, PURGE, 2, 'R') && Continues(UNLOCK, UNSUBSCRIBE, 2, 'S')
  {
  }

  lemma NamesProp()
    ensures Continues(PROPFIND, PROPPATCH, 4, 'P')
  {
  }

  /** The states at which only the length bound is claimed. */
  predicate Plain(s: State) {
    !(s.Field? || s.Value? || s.ReqMethod? || s.ChunkSizeStart? || s.ChunkSize? || s.ChunkParameters?
      || s.ChunkSizeAlmostDone? || s.ChunkData? || s.ChunkDataAlmostDone? || s.ChunkDataDone? || s.BodyIdentity?)
  }

  lemma PlainOk(f: Fields)
    requires Plain(f.state) && f.contentLength <= ULLONG_MAX
    ensures forall n :: FieldsOk(f, n)
  {
    hide MethodName;
  }

  lemma FieldOk(f: Fields, n: nat)
    requires f.state == Field && f.contentLength <= ULLONG_MAX
    ensures FieldsOk(f, n) <==> match f.header
                                case Matching(w) => IsFieldWord(w)
                                case Matched(w) => IsFieldWord(w)
                                case _ => true
  {
    hide MethodName, IsFieldWord;
  }

  lemma ValueOk(f: Fields, n: nat)
    requires f.state == Value && f.contentLength <= ULLONG_MAX
    ensures FieldsOk(f, n) <==> match f.header
                                case Matching(w) => IsValueWord(w)
                                case Matched(w) => IsValueWord(w)
                                  || (w == ContentLength && f.contentLength < ULLONG_MAX)
                                case _ => f.header == General
  {
    hide MethodName, IsValueWord;
  }

  lemma MethodFieldsOk(f: Fields, n: nat)
    requires f.state == ReqMethod && f.contentLength <= ULLONG_MAX
    ensures FieldsOk(f, n) <==> 0 < f.index <= |MethodName(f.verb)|
  {
    hide MethodName;
  }

  lemma StartTurnOk(f: Fields, ch: byte)
    requires FieldsOk(f, 1) && f.state == StartReq
    ensures TurnOk(TurnStart(f, ch))
  {
    hide MethodOf, FieldsOk, MethodName;
    LengthOk(f);
    PlainOk(f);
    if TurnStart(f, ch).Go? && TurnStart(f, ch).f.state == ReqMethod {
      MethodFieldsOk(TurnStart(f, ch).f, 0);
      NamesAreNames(MethodOf(ch).1);
    }
  }

  lemma NamesAreNames(m: Method)
    ensures |MethodName(m)| > 0
  {
  }

  lemma LengthOk(f: Fields)
    requires FieldsOk(f, 1)
    ensures f.contentLength <= ULLONG_MAX
  {
  }

  lemma MethodTurnOk(f: Fields, ch: byte)
    requires FieldsOk(f, 1) && f.state == ReqMethod
    ensures TurnOk(TurnMethod(f, ch))
  {
    hide Switch, FieldsOk, MethodName;
    LengthOk(f);
    MethodFieldsOk(f, 1);
    SwitchOk(f.verb, f.index, ch);
    var t := TurnMethod(f, ch);
    if t.Go? {
      if t.f.state == ReqMethod { MethodFieldsOk(t.f, 0); } else { PlainOk(t.f); }
    }
  }

  lemma UrlTurnOk(f: Fields, ch: byte)
    requires FieldsOk(f, 1) && (f.state == SpacesBeforeUrl || IsUrlState(f.state))
    ensures TurnOk(TurnUrl(f, ch))
  {
    hide ParseUrlChar, MethodName, FieldsOk;
    LengthOk(f);
    var t := TurnUrl(f, ch);
    if t.Go? { PlainOk(t.f); }
  }

  lemma VersionTurnOk(f: Fields, ch: byte)
    requires FieldsOk(f, 1) && IsLineState(f.state)
    ensures TurnOk(TurnVersion(f, ch))
  {
    hide MethodName, FieldsOk;
    LengthOk(f);
    var t := TurnVersion(f, ch);
    if t.Go? { PlainOk(t.f); }
  }

  predicate IsLineState(s: State) {
    || s.HttpStart? || s.HttpH? || s.HttpHT? || s.HttpHTT? || s.HttpHTTP?
    || s.FirstMajor? || s.Major? || s.FirstMinor? || s.Minor? || s.LineAlmostDone?
  }

  lemma FieldStartTurnOk(f: Fields, ch: byte)
    requires FieldsOk(f, 1) && f.state == FieldStart
    ensures TurnOk(TurnFieldStart(f, ch))
  {
    hide FieldsOk, Token;
    LengthOk(f);
    var t := TurnFieldStart(f, ch);
    if t.Go? && t.f.state == Field { FieldOk(t.f, 0); }
    else if t.Go? || t.Again? { PlainOk(t.f); }
  }

  lemma FieldTurnOk(f: Fields, ch: byte)
    requires FieldsOk(f, 1) && f.state == Field
    ensures TurnOk(TurnField(f, ch))
  {
    hide FieldsOk, Token, Spelling;
    LengthOk(f);
    FieldOk(f, 1);
    var t := TurnField(f, ch);
    if t.Go? && t.f.state == Field { FieldOk(t.f, 0); }
    else if t.Go? { PlainOk(t.f); }
  }

  lemma ValueStartTurnOk(f: Fields, ch: byte)
    requires FieldsOk(f, 1)
    ensures TurnOk(TurnValueStart(f, ch))
  {
    hide FieldsOk, Lower;
    LengthOk(f);
    var t := TurnValueStart(f, ch);
    if t.Go? { ValueOk(t.f, 0); }
  }

  lemma ValueTurnOk(f: Fields, ch: byte)
    requires FieldsOk(f, 1) && f.state == Value
    ensures TurnOk(TurnValue(f, ch))
  {
    hide FieldsOk, Lower, Spelling;
    LengthOk(f);
    ValueOk(f, 1);
    var t := TurnValue(f, ch);
    if t.Go? && t.f.state == Value { ValueOk(t.f, 0); }
    else if t.Go? || t.Again? { PlainOk(t.f); }
  }

  lemma SpaceTurnOk(f: Fields, ch: byte)
    requires FieldsOk(f, 1)
    requires f.state.DiscardWs? || f.state.DiscardWsAlmostDone? || f.state.DiscardLws? || f.state.ValueLws?
             || f.state.HeaderAlmostDone?
    ensures TurnOk(TurnHeader(f, ch))
  {
    hide FieldsOk, TurnValueStart, TurnFieldStart, TurnField, TurnValue;
    LengthOk(f);
    ValueStartTurnOk(f, ch);
    var t := TurnHeader(f, ch);
    if t != TurnValueStart(f, ch) && (t.Go? || t.Again?) { PlainOk(t.f); }
  }

  lemma EndTurnOk(f: Fields, ch: byte)
    requires FieldsOk(f, 1) && (f.state == HeadersAlmostDone || f.state == HeadersDone)
    ensures TurnOk(TurnHeadersEnd(f, ch))
  {
    hide MethodName;
  }

  lemma DataTurnOk(f: Fields, ch: byte)
    requires FieldsOk(f, 1) && (f.state == BodyIdentity || f.state == ChunkData)
    ensures TurnOk(TurnData(f, ch))
  {
    hide MethodName;
  }

  lemma ChunkTurnOk(f: Fields, ch: byte)
    requires FieldsOk(f, 1)
    requires f.state.ChunkSizeStart? || f.state.ChunkSize? || f.state.ChunkParameters? || f.state.ChunkSizeAlmostDone?
             || f.state.ChunkDataAlmostDone? || f.state.ChunkDataDone?
    ensures TurnOk(TurnChunk(f, ch))
  {
    hide MethodName, Unhex;
  }

  /** No visit of a reachable state breaks an internal assertion. */
  lemma EveryTurnOk(f: Fields, ch: byte)
    requires FieldsOk(f, 1)
    ensures TurnOk(OneTurn(f, ch))
  {
    hide TurnStart, TurnMethod, TurnUrl, TurnVersion, TurnFieldStart, TurnField, TurnValueStart, TurnValue, TurnLws;
    hide TurnHeadersEnd, TurnData, TurnChunk, FieldsOk;
    LengthOk(f);
    match f.state
    case Dead => PlainOk(f);
    case MessageDone => PlainOk(f.(state := NewMessage(f)));
    case StartReq => StartTurnOk(f, ch);
    case ReqMethod => MethodTurnOk(f, ch);
    case HttpStart | HttpH | HttpHT | HttpHTT | HttpHTTP | FirstMajor | Major | FirstMinor | Minor | LineAlmostDone =>
      VersionTurnOk(f, ch);
    case FieldStart => FieldStartTurnOk(f, ch);
    case Field => FieldTurnOk(f, ch);
    case ValueStart => ValueStartTurnOk(f, ch);
    case Value => ValueTurnOk(f, ch);
    case DiscardWs | DiscardWsAlmostDone | DiscardLws | ValueLws | HeaderAlmostDone => SpaceTurnOk(f, ch);
    case HeadersAlmostDone | HeadersDone => EndTurnOk(f, ch);
    case BodyIdentity | ChunkData => DataTurnOk(f, ch);
    case ChunkSizeStart | ChunkSize | ChunkParameters | ChunkSizeAlmostDone | ChunkDataAlmostDone | ChunkDataDone =>
      ChunkTurnOk(f, ch);
    case SpacesBeforeUrl | Schema | SchemaSlash | SchemaSlashSlash | ServerStart | Server | ServerWithAt
       | Path | QueryStringStart | QueryString | FragmentStart | Fragment => UrlTurnOk(f, ch);
  }

  // ---------- visits and elements ----------

  /** How what a visit does agrees with the element before and after it. */
  predicate Fits(s: State, act: Act, s': State) {
    match act
    case Keep(k) => k != BodyText && ElementOf(s) == ElementOf(s') == Element(k)
    case Start(k) => if k == BodyText then (s == BodyIdentity || s == ChunkData)
      && ElementOf(s') in {NoElement, Element(BodyText)}
                     else ElementOf(s) == NoElement && ElementOf(s') == Element(k)
    case Flush(k) => ElementOf(s) == Element(k) && ElementOf(s') == NoElement
    case _ => ElementOf(s) == NoElement && ElementOf(s') in {NoElement, Element(BodyText)}
  }

  predicate TurnFits(s: State, t: Turn) {
    t.Fail? || t.Broken? || Fits(s, t.act, t.f.state)
  }

  lemma UrlFits(f: Fields, ch: byte)
    requires f.state == SpacesBeforeUrl || IsUrlState(f.state)
    ensures TurnFits(f.state, TurnUrl(f, ch))
  {
    hide ParseUrlChar;
  }

  lemma VersionFits(f: Fields, ch: byte)
    requires IsLineState(f.state)
    ensures TurnFits(f.state, TurnVersion(f, ch))
  {
  }

  lemma HeaderFits(f: Fields, ch: byte)
    ensures f.state == Field ==> TurnFits(f.state, TurnField(f, ch))
    ensures f.state == Value ==> TurnFits(f.state, TurnValue(f, ch))
    ensures f.state == FieldStart ==> TurnFits(f.state, TurnFieldStart(f, ch))
    ensures f.state == ValueStart || f.state == DiscardWs ==> TurnFits(f.state, TurnValueStart(f, ch))
  {
    hide Token, Lower, MatchWord;
  }

  lemma SpaceFits(f: Fields, ch: byte)
    requires f.state.DiscardWs? || f.state.DiscardWsAlmostDone? || f.state.DiscardLws? || f.state.ValueLws?
             || f.state.HeaderAlmostDone?
    ensures TurnFits(f.state, TurnHeader(f, ch))
  {
    hide TurnValueStart;
    HeaderFits(f, ch);
  }

  lemma ChunkFits(f: Fields, ch: byte)
    ensures TurnFits(f.state, TurnChunk(f, ch))
  {
    hide Unhex;
  }

  lemma EveryTurnFits(f: Fields, ch: byte)
    ensures TurnFits(f.state, OneTurn(f, ch))
  {
    hide TurnUrl, TurnVersion, TurnFieldStart, TurnField, TurnValueStart, TurnValue, TurnLws, TurnChunk, MethodName;
    hide MethodOf, Switch;
    match f.state
    case HttpStart | HttpH | HttpHT | HttpHTT | HttpHTTP | FirstMajor | Major | FirstMinor | Minor | LineAlmostDone =>
      VersionFits(f, ch);
    case FieldStart | Field | ValueStart | Value => HeaderFits(f, ch);
    case DiscardWs | DiscardWsAlmostDone | DiscardLws | ValueLws | HeaderAlmostDone => SpaceFits(f, ch);
    case ChunkSizeStart | ChunkSize | ChunkParameters | ChunkSizeAlmostDone | ChunkDataAlmostDone | ChunkDataDone =>
      ChunkFits(f, ch);
    case SpacesBeforeUrl | Schema | SchemaSlash | SchemaSlashSlash | ServerStart | Server | ServerWithAt
       | Path | QueryStringStart | QueryString | FragmentStart | Fragment => UrlFits(f, ch);
    case _ =>
  }

  lemma DataOnlyAtData(s: State, act: Act, s': State)
    requires Fits(s, act, s') && !s.BodyIdentity? && !s.ChunkData?
    ensures act != Start(BodyText)
  {
  }

  lemma LogKept(s: State, log: Log, act: Act, f: Fields, ch: byte)
    requires Fits(s, act, f.state)
    ensures LogOk(f.state, Logged(log, f, act, ch))
  {
    hide ElementOf;
  }

  // ---------- every run ----------

  predicate MachineOk(m: Machine, nread: nat) {
    && (m.end == Running || m.end == Left ==> FieldsOk(m.f, nread) && LogOk(m.f.state, m.log))
    && (m.end.Failed? ==> m.end.e != OK)
  }

  lemma {:induction false} TurnsOk(m: Machine, ch: byte)
    requires m.end == Running && FieldsOk(m.f, 1) && LogOk(m.f.state, m.log)
    ensures Turns(m, ch).end != Crashed && MachineOk(Turns(m, ch), 0)
    decreases Rank(m.f.state)
  {
    hide OneTurn, FieldsOk, Rank, Logged;
    EveryTurnOk(m.f, ch);
    EveryTurnFits(m.f, ch);
    RankFalls(m.f, ch);
    var t := OneTurn(m.f, ch);
    if t.Go? || t.Again? || t.Exit? {
      LogKept(m.f.state, m.log, t.act, t.f, ch);
    }
    if t.Again? {
      TurnsOk(Machine(t.f, Logged(m.log, t.f, t.act, ch), m.end, m.read), ch);
    }
  }

  lemma CountedOk(f: Fields)
    requires FieldsOk(f, 0)
    ensures FieldsOk(Counted(f), 1)
  {
    hide MethodName;
  }

  lemma OnByteOk(m: Machine, ch: byte)
    requires m.end == Running && MachineOk(m, 0)
    ensures OnByte(m, ch).end != Crashed && MachineOk(OnByte(m, ch), 0)
  {
    hide FieldsOk, Turns;
    CountedOk(m.f);
    if !(ParsingHeader(m.f.state) && m.f.nread + 1 > HTTP_MAX_HEADER_SIZE) {
      TurnsOk(m.(f := Counted(m.f)), ch);
    }
  }

  /** In every reachable state the fields are in range, and no internal assertion fails. */
  lemma {:induction false} RunOk(m: Machine, data: seq<byte>)
    requires m.end != Crashed && MachineOk(m, 0)
    ensures Run(m, data).end != Crashed && MachineOk(Run(m, data), 0)
    decreases |data|
  {
    hide OnByte, MachineOk;
    if data != [] && m.end == Running {
      OnByteOk(m, data[0]);
      RunOk(OnByte(m, data[0]), data[1..]);
    }
  }
}
