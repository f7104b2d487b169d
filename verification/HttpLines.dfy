/** Header lines: what a well-formed one does to the parser and its log.

    A line delivers its name and its value, which may be empty. Lines of a recognised name
    also do what modules HttpValues and HttpLengths say of their values. Names are those of
    module HttpNames. */
module HttpLines {
  import opened Bytes
  import opened HttpTables
  import opened HttpTurns
  import opened HttpMachine
  import opened HttpInvariant
  import opened HttpLengths
  import opened HttpNames
  import opened HttpValues

  // ---------- values ----------

  lemma ValueFirst(m: Machine, ch: byte)
    requires m.end == Running && m.f.state == DiscardWs && !m.f.header.Matched? && m.f.nread < HTTP_MAX_HEADER_SIZE
    requires ch != ' ' && ch != '\t' && IsValueByte(ch)
    ensures OnByte(m, ch) == Machine(m.f.(nread := m.f.nread + 1, state := Value, index := 0, header := General),
                                     Emit(m.log, Text(ValueText, [ch])), Running, m.read + 1)
  {
    hide Emit, Lower;
  }

  lemma ValueNext(m: Machine, ch: byte)
    requires m.end == Running && m.f.state == Value && m.f.header == General && m.f.nread < HTTP_MAX_HEADER_SIZE
    requires IsValueByte(ch)
    ensures OnByte(m, ch) == Machine(m.f.(nread := m.f.nread + 1), Emit(m.log, Text(ValueText, [ch])), Running,
                                     m.read + 1)
  {
    hide Emit, Lower;
  }

  lemma {:induction false} ValueRead(m: Machine, v: seq<byte>)
    requires m.end == Running && m.f.state == DiscardWs && !m.f.header.Matched? && IsValue(v)
    requires m.f.nread + |v| <= HTTP_MAX_HEADER_SIZE
    ensures Run(m, v) == Machine(m.f.(nread := m.f.nread + |v|, state := Value, index := 0, header := General),
                                 Emit(m.log, Text(ValueText, v)), Running, m.read + |v|)
    decreases |v|
  {
    hide OnByte, Emit, Run;
    var n := |v| - 1;
    assert v[..n] + [v[n]] == v && v[..n + 1] == v;
    if n == 0 {
      RunZero(m);
      assert v[..0] == [] && v == [v[0]];
      ValueFirst(m, v[0]);
    } else {
      ValueRead(m, v[..n]);
      ValueNext(Run(m, v[..n]), v[n]);
      EmitTwice(m.log, ValueText, v[..n], [v[n]]);
    }
    RunOne(m, v, n);
  }

  /** An upgrade is asked for by any value. */
  lemma UpgradeFirst(m: Machine, ch: byte)
    requires m.end == Running && m.f.state == DiscardWs && m.f.header == Matched(Upgrade)
    requires ch != ' ' && ch != '\t' && IsValueByte(ch) && m.f.nread < HTTP_MAX_HEADER_SIZE
    ensures OnByte(m, ch) == OnByte(m.(f := m.f.(header := General, flags := m.f.flags.(upgrade := true))), ch)
  {
    hide Emit, Lower;
  }

  lemma ReadUpgrade(m: Machine, v: seq<byte>)
    requires m.end == Running && m.f.state == DiscardWs && m.f.header == Matched(Upgrade) && IsValue(v)
    requires m.f.nread + |v| <= HTTP_MAX_HEADER_SIZE
    ensures Run(m, v) == Machine(m.f.(nread := m.f.nread + |v|, state := Value, index := 0, header := General,
                                      flags := m.f.flags.(upgrade := true)),
                                 Emit(m.log, Text(ValueText, v)), Running, m.read + |v|)
  {
    hide OnByte, Emit, Run;
    var m' := m.(f := m.f.(header := General, flags := m.f.flags.(upgrade := true)));
    UpgradeFirst(m, v[0]);
    RunFirst(m, v);
    RunFirst(m', v);
    ValueRead(m', v);
  }

  // ---------- content lengths ----------

  /** A length that is accepted: a digit, then digits and spaces, not over the limit. */
  predicate IsLength(v: seq<byte>) {
    v != [] && IsDigit(v[0]) && DigitsAndSpaces(v) && DecimalFits(0, v)
  }

  lemma LengthFirst(m: Machine, ch: byte)
    requires m.end == Running && m.f.state == DiscardWs && m.f.header == Matched(ContentLength) && IsDigit(ch)
    requires m.f.nread < HTTP_MAX_HEADER_SIZE
    ensures OnByte(m, ch) == Machine(m.f.(nread := m.f.nread + 1, state := Value, index := 0,
                                          contentLength := Digit(ch)),
                                     Emit(m.log, Text(ValueText, [ch])), Running, m.read + 1)
  {
    hide Emit, Lower;
  }

  lemma LengthNext(m: Machine, ch: byte)
    requires m.end == Running && InContentLength(m.f) && (IsDigit(ch) || ch == ' ') && m.f.nread < HTTP_MAX_HEADER_SIZE
    requires ch == ' ' || m.f.contentLength <= (ULLONG_MAX - 10) / 10
    ensures OnByte(m, ch) == Machine(m.f.(nread := m.f.nread + 1,
                                          contentLength := if ch == ' ' then m.f.contentLength
                                                           else 10 * m.f.contentLength + Digit(ch)),
                                     Emit(m.log, Text(ValueText, [ch])), Running, m.read + 1)
    ensures InContentLength(OnByte(m, ch).f)
  {
    hide Emit, Lower;
  }

  lemma {:induction false} LengthRead(m: Machine, v: seq<byte>)
    requires m.end == Running && m.f.state == DiscardWs && m.f.header == Matched(ContentLength) && IsLength(v)
    requires m.f.nread + |v| <= HTTP_MAX_HEADER_SIZE
    ensures Run(m, v) == Machine(m.f.(nread := m.f.nread + |v|, state := Value, index := 0,
                                      contentLength := Decimal(0, v)),
                                 Emit(m.log, Text(ValueText, v)), Running, m.read + |v|)
    ensures InContentLength(Run(m, v).f)
    decreases |v|
  {
    hide OnByte, Emit, Run, Decimal, DecimalFits;
    var n := |v| - 1;
    assert v[..n] + [v[n]] == v && v[..n + 1] == v;
    DecimalMore(0, v[..n], v[n]);
    if n == 0 {
      RunZero(m);
      assert v[..0] == [] && v == [v[0]];
      LengthFirst(m, v[0]);
      NoDigits(0);
    } else {
      LengthRead(m, v[..n]);
      LengthNext(Run(m, v[..n]), v[n]);
      EmitTwice(m.log, ValueText, v[..n], [v[n]]);
    }
    RunOne(m, v, n);
  }

  lemma NoDigits(v: nat)
    ensures Decimal(v, []) == v
  {
  }

  // ---------- names and what follows them ----------

  predicate IsBlank(c: byte) {
    c == ' ' || c == '\t'
  }

  /** White space before a value: blanks, and line ends that a blank follows. */
  predicate IsPad(pad: seq<byte>)
    decreases |pad|
  {
    || pad == []
    || (IsBlank(pad[0]) && IsPad(pad[1..]))
    || (|pad| > 1 && pad[0] == LF && IsBlank(pad[1]) && IsPad(pad[2..]))
    || (|pad| > 2 && pad[..2] == CRLF && IsBlank(pad[2]) && IsPad(pad[3..]))
  }

  /** A line end and the line that continues a value after it. */
  datatype Fold = Fold(eol: Eol, text: seq<byte>)

  predicate IsFold(x: Fold) {
    x.text != [] && IsBlank(x.text[0]) && forall i | 0 <= i < |x.text| :: IsValueByte(x.text[i])
  }

  function FoldsText(xs: seq<Fold>): seq<byte> {
    if xs == [] then [] else EolText(xs[0].eol) + xs[0].text + FoldsText(xs[1..])
  }

  function FoldsValue(xs: seq<Fold>): seq<byte> {
    if xs == [] then [] else xs[0].text + FoldsValue(xs[1..])
  }

  /** A name, the white space after its colon, a value, the lines that continue it, and the
      end of the last line. */
  datatype Header = Header(name: seq<byte>, pad: seq<byte>, value: seq<byte>, folds: seq<Fold>, eol: Eol)

  function LineText(h: Header): seq<byte> {
    h.name + [':'] + h.pad + h.value + FoldsText(h.folds) + EolText(h.eol)
  }

  /** The value that is delivered. */
  function ValueOf(h: Header): seq<byte> {
    h.value + FoldsValue(h.folds)
  }

  /** What a name is recognised as. */
  function FieldWord(name: seq<byte>): HeaderState {
    var s := Lowered(name);
    if s == Spelling(Connection) || s == Spelling(ProxyConnection) then Matched(Connection)
    else if s == Spelling(ContentLength) then Matched(ContentLength)
    else if s == Spelling(TransferEncoding) then Matched(TransferEncoding)
    else if s == Spelling(Upgrade) then Matched(Upgrade)
    else General
  }

  /** A header, with an acceptable length on one line if it has one. */
  predicate GoodHeader(h: Header) {
    && IsToken(h.name) && IsPad(h.pad) && (h.value == [] || IsValue(h.value))
    && (forall i | 0 <= i < |h.folds| :: IsFold(h.folds[i])) && (h.value == [] ==> h.folds == [])
    && (h.value != [] && FieldWord(h.name) == Matched(ContentLength) ==> IsLength(h.value) && h.folds == [])
  }

  lemma WordKnown(m: Machine, name: seq<byte>)
    requires m.end == Running && m.f.state == FieldStart && MachineOk(m, 0) && IsToken(name)
    requires m.f.nread + |name| <= HTTP_MAX_HEADER_SIZE
    ensures var h := Run(m, name).f.header;
            (h.Matched? <==> FieldWord(name).Matched?) && (h.Matched? ==> h == FieldWord(name))
  {
    hide Run, Spelling, MachineOk, IsToken, Lowered;
    NameRecognised(m, name);
    assert IsFieldWord(Connection) && IsFieldWord(ProxyConnection) && IsFieldWord(ContentLength);
    assert IsFieldWord(TransferEncoding) && IsFieldWord(Upgrade);
  }

  lemma ColonByte(m: Machine)
    requires m.end == Running && m.f.state == Field && m.f.nread < HTTP_MAX_HEADER_SIZE
    ensures OnByte(m, ':') == Machine(m.f.(nread := m.f.nread + 1, state := DiscardWs), m.log, Running, m.read + 1)
  {
  }

  lemma PadByte(m: Machine, ch: byte)
    requires m.end == Running && (m.f.state == DiscardWs || m.f.state == DiscardLws) && IsBlank(ch)
    requires m.f.nread < HTTP_MAX_HEADER_SIZE
    ensures OnByte(m, ch) == Machine(m.f.(nread := m.f.nread + 1, state := DiscardWs), m.log, Running, m.read + 1)
  {
  }

  lemma {:induction false} PadRead(m: Machine, pad: seq<byte>)
    requires m.end == Running && m.f.state == DiscardWs && IsPad(pad) && m.f.nread + |pad| <= HTTP_MAX_HEADER_SIZE
    ensures Run(m, pad) == Machine(m.f.(nread := m.f.nread + |pad|), m.log, Running, m.read + |pad|)
    decreases |pad|
  {
    hide OnByte, Run, IsBlank;
    if pad == [] {
      RunZero(m);
    } else if IsBlank(pad[0]) && IsPad(pad[1..]) {
      RunFirst(m, pad);
      PadByte(m, pad[0]);
      PadRead(OnByte(m, pad[0]), pad[1..]);
    } else {
      var eol := if pad[0] == LF then JustLf else CrLf;
      var k := |EolText(eol)|;
      PadFold(pad, eol);
      FoldedPad(m, eol, pad[k]);
      var start := EolText(eol) + [pad[k]];
      RunSplit(m, start, pad[k + 1..]);
      PadRead(Run(m, start), pad[k + 1..]);
    }
  }

  lemma PadFold(pad: seq<byte>, eol: Eol)
    requires pad != [] && IsPad(pad) && !(IsBlank(pad[0]) && IsPad(pad[1..])) && (eol == JustLf <==> pad[0] == LF)
    ensures var k := |EolText(eol)|;
            |pad| > k && IsBlank(pad[k]) && IsPad(pad[k + 1..]) && pad == EolText(eol) + [pad[k]] + pad[k + 1..]
  {
  }

  lemma FoldedPad(m: Machine, eol: Eol, ch: byte)
    requires m.end == Running && m.f.state == DiscardWs && IsBlank(ch)
    requires m.f.nread + |EolText(eol)| + 1 <= HTTP_MAX_HEADER_SIZE
    ensures var k := |EolText(eol)| + 1;
            Run(m, EolText(eol) + [ch]) == Machine(m.f.(nread := m.f.nread + k), m.log, Running, m.read + k)
  {
    hide OnByte, Run, IsBlank, EolText;
    EmptyEnd(m, eol);
    PadByte(Run(m, EolText(eol)), ch);
    RunThen(m, EolText(eol), ch);
  }

  /** A line up to its value. */
  function LineStart(h: Header): seq<byte> {
    h.name + [':'] + h.pad
  }

  lemma LineStartRead(m: Machine, h: Header) returns (hd: HeaderState, i: nat)
    requires m.end == Running && m.f.state == FieldStart && MachineOk(m, 0) && IsToken(h.name) && IsPad(h.pad)
    requires m.f.nread + |LineStart(h)| <= HTTP_MAX_HEADER_SIZE
    ensures Run(m, LineStart(h))
            == Machine(m.f.(nread := m.f.nread + |LineStart(h)|, state := DiscardWs, header := hd, index := i),
                       Emit(m.log, Text(FieldText, h.name)), Running, m.read + |LineStart(h)|)
    ensures (hd.Matched? <==> FieldWord(h.name).Matched?) && (hd.Matched? ==> hd == FieldWord(h.name))
  {
    hide OnByte, Run, Emit, MachineOk, Spelling, InName, IsToken, Lowered, FieldWord, IsPad;
    WordKnown(m, h.name);
    NameRead(m, h.name);
    var m1 := Run(m, h.name);
    hd, i := m1.f.header, m1.f.index;
    ColonByte(m1);
    RunThen(m, h.name, ':');
    PadRead(OnByte(m1, ':'), h.pad);
    RunSplit(m, h.name + [':'], h.pad);
  }

  // ---------- the ends of lines ----------

  lemma ValueEnd(m: Machine, eol: Eol)
    requires m.end == Running && m.f.state == Value && m.f.nread + |EolText(eol)| <= HTTP_MAX_HEADER_SIZE
    ensures Run(m, EolText(eol))
            == Machine(m.f.(nread := m.f.nread + |EolText(eol)|, state := ValueLws), m.log, Running,
                                            m.read + |EolText(eol)|)
  {
    hide OnByte, Run;
    if eol == CrLf {
      ValueReturn(m);
      ValueFeed(OnByte(m, CR));
      RunTwo(m, CR, LF);
    } else {
      BareFeed(m);
      ValueFeed(m.(f := m.f.(state := HeaderAlmostDone)));
      RunByte(m, LF);
    }
  }

  lemma ValueReturn(m: Machine)
    requires m.end == Running && m.f.state == Value && m.f.nread < HTTP_MAX_HEADER_SIZE
    ensures OnByte(m, CR) == Machine(m.f.(nread := m.f.nread + 1, state := HeaderAlmostDone), m.log, Running,
                                     m.read + 1)
  {
  }

  lemma ValueFeed(m: Machine)
    requires m.end == Running && m.f.state == HeaderAlmostDone && m.f.nread < HTTP_MAX_HEADER_SIZE
    ensures OnByte(m, LF) == Machine(m.f.(nread := m.f.nread + 1, state := ValueLws), m.log, Running, m.read + 1)
  {
  }

  lemma BareFeed(m: Machine)
    requires m.end == Running && m.f.state == Value && m.f.nread < HTTP_MAX_HEADER_SIZE
    ensures OnByte(m, LF) == OnByte(m.(f := m.f.(state := HeaderAlmostDone)), LF)
  {
    hide TurnFieldStart, TurnField, TurnValueStart, TurnLws;
  }

  /** A line that ends before any value. */
  lemma EmptyEnd(m: Machine, eol: Eol)
    requires m.end == Running && m.f.state == DiscardWs && m.f.nread + |EolText(eol)| <= HTTP_MAX_HEADER_SIZE
    ensures Run(m, EolText(eol))
            == Machine(m.f.(nread := m.f.nread + |EolText(eol)|, state := DiscardLws), m.log, Running,
                                            m.read + |EolText(eol)|)
  {
    hide OnByte, Run;
    if eol == CrLf {
      EmptyReturn(m);
      EmptyFeed(OnByte(m, CR));
      RunTwo(m, CR, LF);
    } else {
      EmptyFeed(m);
      RunByte(m, LF);
    }
  }

  lemma EmptyReturn(m: Machine)
    requires m.end == Running && m.f.state == DiscardWs && m.f.nread < HTTP_MAX_HEADER_SIZE
    ensures OnByte(m, CR) == Machine(m.f.(nread := m.f.nread + 1, state := DiscardWsAlmostDone), m.log, Running,
                                     m.read + 1)
  {
  }

  lemma EmptyFeed(m: Machine)
    requires m.end == Running && (m.f.state == DiscardWsAlmostDone || m.f.state == DiscardWs)
    requires m.f.nread < HTTP_MAX_HEADER_SIZE
    ensures OnByte(m, LF) == Machine(m.f.(nread := m.f.nread + 1, state := DiscardLws), m.log, Running, m.read + 1)
  {
  }

  /** The byte after an empty value: the value is delivered, and the byte starts a line. */
  lemma EmptyLws(m: Machine, ch: byte)
    requires m.end == Running && m.f.state == DiscardLws && !IsBlank(ch) && m.f.nread < HTTP_MAX_HEADER_SIZE
    ensures OnByte(m, ch) == OnByte(m.(f := m.f.(state := FieldStart), log := Emit(m.log, Text(ValueText, ""))), ch)
  {
    hide TurnFieldStart, TurnHeadersEnd, Emit;
  }

  /** The flags once a value that left this header state has ended. */
  function FlagsAfter(hd: HeaderState, flags: Flags): Flags {
    if hd == Matched(KeepAlive) then flags.(keepAlive := true)
    else if hd == Matched(Close) then flags.(close := true)
    else if hd == Matched(Chunked) then flags.(chunked := true)
    else flags
  }

  lemma ValueLwsByte(m: Machine, ch: byte)
    requires m.end == Running && m.f.state == ValueLws && !IsBlank(ch) && m.f.nread < HTTP_MAX_HEADER_SIZE
    ensures OnByte(m, ch) == OnByte(m.(f := m.f.(state := FieldStart, flags := FlagsAfter(m.f.header, m.f.flags))), ch)
  {
    hide TurnFieldStart, TurnHeadersEnd;
  }

  // ---------- continued values ----------

  /** The header state of a value that may be continued. */
  predicate MayContinue(hd: HeaderState) {
    !hd.Matched? || IsValueWord(hd.w)
  }

  lemma FoldByte(m: Machine, ch: byte)
    requires m.end == Running && m.f.state == ValueLws && IsBlank(ch) && m.f.nread < HTTP_MAX_HEADER_SIZE
    ensures OnByte(m, ch) == OnByte(m.(f := m.f.(state := ValueStart)), ch)
  {
    hide TurnFieldStart, TurnField, TurnValueStart, TurnValue;
  }

  lemma ValueStartByte(m: Machine, ch: byte)
    requires m.end == Running && m.f.state == ValueStart && IsBlank(ch) && m.f.nread < HTTP_MAX_HEADER_SIZE
    ensures MayContinue(m.f.header) ==>
              OnByte(m, ch) == Machine(m.f.(nread := m.f.nread + 1, state := Value, index := 0, header := General),
                                       Emit(m.log, Text(ValueText, [ch])), Running, m.read + 1)
    ensures m.f.header == Matched(ContentLength) ==> OnByte(m, ch).end == Failed(INVALID_CONTENT_LENGTH)
  {
    hide Emit, Lower;
  }

  /** The blank that continues a value is its next character, and no word is recognised any
      more; a length cannot be continued. */
  lemma FoldFirst(m: Machine, ch: byte)
    requires m.end == Running && m.f.state == ValueLws && IsBlank(ch) && m.f.nread < HTTP_MAX_HEADER_SIZE
    ensures MayContinue(m.f.header) ==>
              OnByte(m, ch) == Machine(m.f.(nread := m.f.nread + 1, state := Value, index := 0, header := General),
                                       Emit(m.log, Text(ValueText, [ch])), Running, m.read + 1)
    ensures m.f.header == Matched(ContentLength) ==> OnByte(m, ch).end == Failed(INVALID_CONTENT_LENGTH)
  {
    hide OnByte, Emit, IsBlank, MayContinue;
    FoldByte(m, ch);
    ValueStartByte(m.(f := m.f.(state := ValueStart)), ch);
  }

  lemma {:induction false} TextRead(m: Machine, text: seq<byte>)
    requires m.end == Running && m.f.state == Value && m.f.header == General && EndsIn(m.log, ValueText)
    requires (forall i | 0 <= i < |text| :: IsValueByte(text[i])) && m.f.nread + |text| <= HTTP_MAX_HEADER_SIZE
    ensures Run(m, text) == Machine(m.f.(nread := m.f.nread + |text|), Emit(m.log, Text(ValueText, text)), Running,
                                    m.read + |text|)
    decreases |text|
  {
    hide OnByte, Emit, Run;
    if text == [] {
      RunZero(m);
      EmitNothing(m.log, ValueText);
    } else {
      ValueNext(m, text[0]);
      RunFirst(m, text);
      var m1 := OnByte(m, text[0]);
      EmitEnds(m.log, ValueText, [text[0]]);
      TextRead(m1, text[1..]);
      EmitTwice(m.log, ValueText, [text[0]], text[1..]);
      assert [text[0]] + text[1..] == text;
    }
  }

  lemma EmitEnds(log: Log, k: Kind, s: string)
    ensures EndsIn(Emit(log, Text(k, s)), k)
  {
  }

  lemma FoldRead(m: Machine, x: Fold)
    requires m.end == Running && m.f.state == Value && MayContinue(m.f.header) && IsFold(x)
    requires m.f.nread + |EolText(x.eol)| + |x.text| <= HTTP_MAX_HEADER_SIZE
    ensures var n := |EolText(x.eol)| + |x.text|;
            Run(m, EolText(x.eol) + x.text)
            == Machine(m.f.(nread := m.f.nread + n, index := 0, header := General),
                       Emit(m.log, Text(ValueText, x.text)),
                       Running, m.read + n)
  {
    hide OnByte, Emit, Run, MayContinue, IsBlank, IsValueByte, EolText;
    ValueEnd(m, x.eol);
    var m1 := Run(m, EolText(x.eol));
    FoldFirst(m1, x.text[0]);
    var m2 := OnByte(m1, x.text[0]);
    EmitEnds(m1.log, ValueText, [x.text[0]]);
    TextRead(m2, x.text[1..]);
    RunFirst(m1, x.text);
    RunSplit(m, EolText(x.eol), x.text);
    EmitTwice(m.log, ValueText, [x.text[0]], x.text[1..]);
    assert [x.text[0]] + x.text[1..] == x.text;
  }

  /** The lines that continue a value are delivered as part of it, and whatever word it said
      is forgotten. */
  lemma {:induction false} FoldsRead(m: Machine, xs: seq<Fold>) returns (hd: HeaderState, i: nat)
    requires m.end == Running && m.f.state == Value && (forall j | 0 <= j < |xs| :: IsFold(xs[j]))
    requires (xs != [] ==> MayContinue(m.f.header)) && EndsIn(m.log, ValueText)
    requires m.f.nread + |FoldsText(xs)| <= HTTP_MAX_HEADER_SIZE
    ensures Run(m, FoldsText(xs))
            == Machine(m.f.(nread := m.f.nread + |FoldsText(xs)|, header := hd, index := i),
                       Emit(m.log, Text(ValueText, FoldsValue(xs))), Running, m.read + |FoldsText(xs)|)
    ensures hd == if xs == [] then m.f.header else General
    decreases |xs|
  {
    hide OnByte, Emit, Run, EolText, IsFold;
    if xs == [] {
      RunZero(m);
      EmitNothing(m.log, ValueText);
      hd, i := m.f.header, m.f.index;
    } else {
      FoldRead(m, xs[0]);
      var text := EolText(xs[0].eol) + xs[0].text;
      var m1 := Run(m, text);
      EmitEnds(m.log, ValueText, xs[0].text);
      hd, i := FoldsRead(m1, xs[1..]);
      RunSplit(m, text, FoldsText(xs[1..]));
      EmitTwice(m.log, ValueText, xs[0].text, FoldsValue(xs[1..]));
    }
  }

  // ---------- whole lines ----------

  /** What header lines leave behind: flags and the announced length. */
  datatype Effect = Effect(flags: Flags, contentLength: nat)

  /** A header that asks for an upgrade: it has a value, on one line or continued. */
  predicate AsksUpgrade(h: Header) {
    h.value != [] && FieldWord(h.name) == Matched(Upgrade)
  }

  /** The flags while a value is read. */
  function FlagsWithin(h: Header, flags: Flags): Flags {
    if AsksUpgrade(h) then flags.(upgrade := true) else flags
  }

  /** What a header does to the flags and the length; without a value nothing, and with one that
      is continued only an upgrade. */
  function LineEffect(h: Header, e: Effect): Effect
    requires GoodHeader(h)
  {
    if AsksUpgrade(h) then e.(flags := e.flags.(upgrade := true))
    else if h.value == [] || h.folds != [] then e
    else if FieldWord(h.name) == Matched(ContentLength) then e.(contentLength := Decimal(0, h.value))
    else if FieldWord(h.name) == Matched(TransferEncoding) then
      e.(flags := e.flags.(chunked := e.flags.chunked || Says(h.value, Chunked)))
    else if FieldWord(h.name) == Matched(Connection) then
      e.(flags := e.flags.(keepAlive := e.flags.keepAlive || Says(h.value, KeepAlive),
                           close := e.flags.close || Says(h.value, Close)))
    else e
  }

  function EffectOf(f: Fields): Effect {
    Effect(f.flags, f.contentLength)
  }

  /** The parser after a line, at the start of the next one. */
  predicate LineDone(m: Machine, h: Header, r: Machine)
    requires GoodHeader(h)
  {
    var e := LineEffect(h, EffectOf(m.f));
    r == Machine(m.f.(nread := m.f.nread + |LineText(h)|, state := FieldStart, header := r.f.header, index := r.f.index,
                      flags := e.flags, contentLength := e.contentLength),
                 Emit(Emit(m.log, Text(FieldText, h.name)), Text(ValueText, ValueOf(h))), Running,
                 m.read + |LineText(h)|)
  }

  /** What the parser recognised of a name is what the name is. */
  predicate NameKnown(f: Fields, h: Header) {
    (f.header.Matched? <==> FieldWord(h.name).Matched?) && (f.header.Matched? ==> f.header == FieldWord(h.name))
  }

  /** The first line of a value: its log, the length it announces and the flags it will set. */
  lemma ValueDone(m: Machine, h: Header) returns (hd: HeaderState, i: nat)
    requires m.end == Running && m.f.state == DiscardWs && GoodHeader(h) && h.value != [] && NameKnown(m.f, h)
    requires m.f.nread + |h.value| <= HTTP_MAX_HEADER_SIZE
    ensures var e := LineEffect(h.(folds := []), EffectOf(m.f));
            && Run(m, h.value)
               == Machine(m.f.(nread := m.f.nread + |h.value|, state := Value, header := hd, index := i,
                               contentLength := e.contentLength, flags := FlagsWithin(h, m.f.flags)),
                          Emit(m.log, Text(ValueText, h.value)), Running, m.read + |h.value|)
            && FlagsAfter(hd, FlagsWithin(h, m.f.flags)) == e.flags
    ensures FieldWord(h.name) != Matched(ContentLength) ==> MayContinue(hd)
  {
    hide OnByte, Run, Emit, IsToken, IsValue, Lowered, Spelling, Decimal, DecimalFits, DigitsAndSpaces, FieldWord;
    hide ValueState;
    hide FlagsAfter, Says, IsPad, IsFold;
    var word := FieldWord(h.name);
    OnlyWords(h.name);
    if word == Matched(ContentLength) {
      LengthRead(m, h.value);
    } else if word == Matched(TransferEncoding) || word == Matched(Connection) {
      ValueRecognised(m, word.w, h.value);
      FlagsSaid(word.w, h.value, Run(m, h.value).f.header, m.f.flags);
    } else if word == Matched(Upgrade) {
      ReadUpgrade(m, h.value);
    } else {
      ValueRead(m, h.value);
    }
    hd, i := Run(m, h.value).f.header, Run(m, h.value).f.index;
    NoFlags(hd, FlagsWithin(h, m.f.flags));
  }

  lemma NoFlags(hd: HeaderState, flags: Flags)
    ensures hd == General || hd == Matched(ContentLength) ==> FlagsAfter(hd, flags) == flags
  {
  }

  /** The text from a value on. */
  function ValuePart(h: Header): seq<byte> {
    h.value + FoldsText(h.folds) + EolText(h.eol)
  }

  /** A value with the lines that continue it: read up to the line end. */
  lemma WholeValueRead(m: Machine, h: Header) returns (hd: HeaderState, i: nat)
    requires m.end == Running && m.f.state == DiscardWs && GoodHeader(h) && h.value != [] && NameKnown(m.f, h)
    requires m.f.nread + |h.value + FoldsText(h.folds)| <= HTTP_MAX_HEADER_SIZE
    ensures var e, n := LineEffect(h, EffectOf(m.f)), |h.value + FoldsText(h.folds)|;
            && Run(m, h.value + FoldsText(h.folds))
               == Machine(m.f.(nread := m.f.nread + n, state := Value, header := hd, index := i,
                               contentLength := e.contentLength, flags := FlagsWithin(h, m.f.flags)),
                          Emit(m.log, Text(ValueText, ValueOf(h))), Running, m.read + n)
            && FlagsAfter(hd, FlagsWithin(h, m.f.flags)) == e.flags
  {
    hide OnByte, Run, Emit, MayContinue, FlagsAfter, FoldsText, FoldsValue, FieldWord, IsToken, IsPad, IsValue;
    hide IsLength, IsFold;
    hide Decimal, Says;
    hd, i := ValueDone(m, h);
    EmitEnds(m.log, ValueText, h.value);
    RunSplit(m, h.value, FoldsText(h.folds));
    hd, i := FoldsRead(Run(m, h.value), h.folds);
    EmitTwice(m.log, ValueText, h.value, FoldsValue(h.folds));
    NoFlags(General, FlagsWithin(h, m.f.flags));
  }

  /** A value and its line ends, for the byte after them. */
  lemma ValueLineRead(m: Machine, h: Header, ch: byte) returns (r: Machine)
    requires m.end == Running && m.f.state == DiscardWs && GoodHeader(h) && h.value != [] && NameKnown(m.f, h)
    requires m.f.nread + |ValuePart(h)| < HTTP_MAX_HEADER_SIZE && !IsBlank(ch)
    ensures var e := LineEffect(h, EffectOf(m.f));
            r == Machine(m.f.(nread := m.f.nread + |ValuePart(h)|, state := FieldStart, header := r.f.header,
                              index := r.f.index, flags := e.flags, contentLength := e.contentLength),
                         Emit(m.log, Text(ValueText, ValueOf(h))), Running, m.read + |ValuePart(h)|)
    ensures Run(m, ValuePart(h)).end == Running && OnByte(Run(m, ValuePart(h)), ch) == OnByte(r, ch)
  {
    hide OnByte, Run, Emit, GoodHeader, FlagsAfter, LineEffect, FoldsText, EolText, IsBlank;
    var hd, i := WholeValueRead(m, h);
    var value := h.value + FoldsText(h.folds);
    ValueEnd(Run(m, value), h.eol);
    RunSplit(m, value, EolText(h.eol));
    var b := Run(m, ValuePart(h));
    ValueLwsByte(b, ch);
    r := b.(f := b.f.(state := FieldStart, flags := FlagsAfter(b.f.header, b.f.flags)));
  }

  lemma OnlyWords(name: seq<byte>)
    ensures FieldWord(name) in {Matched(Connection), Matched(ContentLength), Matched(TransferEncoding),
                                Matched(Upgrade), General}
  {
  }

  /** The flag that a value has earned is the one it says. */
  lemma FlagsSaid(name: Word, v: seq<byte>, hd: HeaderState, flags: Flags)
    requires ValueState(name, v, hd) && v != [] && (name == TransferEncoding || name == Connection)
    ensures FlagsAfter(hd, flags)
            == flags.(chunked := flags.chunked || (name == TransferEncoding && Says(v, Chunked)),
                      keepAlive := flags.keepAlive || (name == Connection && Says(v, KeepAlive)),
                      close := flags.close || (name == Connection && Says(v, Close)))
    ensures MayContinue(hd)
  {
    hide Says, Starts;
    assert About(TransferEncoding, Chunked) && About(Connection, KeepAlive) && About(Connection, Close);
    OneWord(name, v, hd);
  }

  lemma OneWord(name: Word, v: seq<byte>, hd: HeaderState)
    requires ValueState(name, v, hd)
    ensures hd.Matched? ==> About(name, hd.w)
    ensures Says(v, KeepAlive) && About(name, KeepAlive) ==> hd == Matched(KeepAlive)
    ensures Says(v, Close) && About(name, Close) ==> hd == Matched(Close)
  {
  }

  /** The same without a value. */
  lemma EmptyLineRead(m: Machine, h: Header, ch: byte) returns (r: Machine)
    requires m.end == Running && m.f.state == DiscardWs && GoodHeader(h) && h.value == []
    requires m.f.nread + |ValuePart(h)| < HTTP_MAX_HEADER_SIZE && !IsBlank(ch)
    ensures var e := LineEffect(h, EffectOf(m.f));
            r == Machine(m.f.(nread := m.f.nread + |ValuePart(h)|, state := FieldStart, flags := e.flags,
                              contentLength := e.contentLength),
                         Emit(m.log, Text(ValueText, ValueOf(h))), Running, m.read + |ValuePart(h)|)
    ensures Run(m, ValuePart(h)).end == Running && OnByte(Run(m, ValuePart(h)), ch) == OnByte(r, ch)
  {
    hide OnByte, Run, Emit, EolText, IsToken, IsPad, IsBlank, FieldWord;
    NoValue(h);
    EmptyEnd(m, h.eol);
    var b := Run(m, ValuePart(h));
    EmptyLws(b, ch);
    r := b.(f := b.f.(state := FieldStart), log := Emit(b.log, Text(ValueText, "")));
  }

  /** A header, followed by something that does not continue it, delivers its name and its
      value, has the effect of its name and value, and leads to the start of a line. */
  lemma LineRead(m: Machine, h: Header, rest: seq<byte>) returns (r: Machine)
    requires m.end == Running && m.f.state == FieldStart && MachineOk(m, 0) && GoodHeader(h)
    requires m.f.nread + |LineText(h)| < HTTP_MAX_HEADER_SIZE
    requires rest != [] && !IsBlank(rest[0])
    ensures LineDone(m, h, r) && Run(m, LineText(h) + rest) == Run(r, rest)
  {
    hide OnByte, Run, Emit, MachineOk, IsBlank, LineText, LineStart, ValuePart, ValueOf, GoodHeader, LineEffect;
    hide FieldWord;
    NameAndPad(h);
    LineGroups(h);
    var hd, i := LineStartRead(m, h);
    var a := Run(m, LineStart(h));
    RunSplit(m, LineStart(h), ValuePart(h));
    RunSplit(m, LineText(h), rest);
    if h.value == [] {
      r := EmptyLineRead(a, h, rest[0]);
    } else {
      r := ValueLineRead(a, h, rest[0]);
    }
    RunFirst(Run(m, LineText(h)), rest);
    RunFirst(r, rest);
  }

  lemma NameAndPad(h: Header)
    requires GoodHeader(h)
    ensures IsToken(h.name) && IsPad(h.pad)
  {
  }

  lemma LineGroups(h: Header)
    ensures LineText(h) == LineStart(h) + ValuePart(h)
  {
    hide FoldsText, EolText;
  }

  lemma NoValue(h: Header)
    requires h.value == [] && h.folds == []
    ensures ValuePart(h) == EolText(h.eol) && ValueOf(h) == []
  {
  }
}
