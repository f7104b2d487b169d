/** The first line of a request: method, URL and version.

    The URL is that of module HttpUrl. The version is two numbers up to 999, or missing. Line
    ends before the line and spaces around the URL are skipped. */
module HttpFirstLine {
  import opened Bytes
  import opened HttpTables
  import opened HttpTurns
  import opened HttpMachine
  import opened HttpBuilder
  import opened HttpLengths
  import opened HttpMethods
  import opened HttpUrl

  // ---------- the version ----------

  predicate IsDigits(s: seq<byte>) {
    s != [] && forall i | 0 <= i < |s| :: IsDigit(s[i])
  }

  function SetNumber(f: Fields, v: nat): Fields {
    if f.state == FirstMajor || f.state == Major then f.(state := Major, major := v) else f.(state := Minor, minor := v)
  }

  function NumberAt(f: Fields): nat {
    if f.state == Major then f.major else f.minor
  }

  lemma FirstDigit(m: Machine, ch: byte)
    requires m.end == Running && (m.f.state == FirstMajor || m.f.state == FirstMinor)
             && m.f.nread < HTTP_MAX_HEADER_SIZE
    requires IsDigit(ch) && (m.f.state == FirstMajor ==> ch != '0')
    ensures OnByte(m, ch) == Machine(SetNumber(m.f.(nread := m.f.nread + 1), Digit(ch)), m.log, Running, m.read + 1)
  {
  }

  lemma NextDigit(m: Machine, ch: byte)
    requires m.end == Running && (m.f.state == Major || m.f.state == Minor) && m.f.nread < HTTP_MAX_HEADER_SIZE
             && IsDigit(ch)
    ensures var v := 10 * NumberAt(m.f) + Digit(ch);
            if v > 999 then OnByte(m, ch).end == Failed(INVALID_VERSION)
            else OnByte(m, ch) == Machine(SetNumber(m.f.(nread := m.f.nread + 1), v), m.log, Running, m.read + 1)
  {
  }

  /** A number of the version is read as its digits write it, and refused exactly above 999. */
  lemma {:induction false} VersionNumber(m: Machine, s: seq<byte>)
    requires m.end == Running && (m.f.state == FirstMajor || m.f.state == FirstMinor) && IsDigits(s)
    requires (m.f.state == FirstMajor ==> s[0] != '0') && m.f.nread + |s| <= HTTP_MAX_HEADER_SIZE
    ensures var v := Decimal(0, s);
            if v > 999 then Run(m, s).end == Failed(INVALID_VERSION)
            else Run(m, s) == Machine(SetNumber(m.f.(nread := m.f.nread + |s|), v), m.log, Running, m.read + |s|)
    decreases |s|
  {
    hide OnByte, Run, Decimal, Digit, DigitsAndSpaces, IsDigit, DecimalFits;
    DigitsOnly(s);
    var n := |s| - 1;
    var first := s[..n];
    assert first + [s[n]] == s;
    DecimalMore(0, first, s[n]);
    RunThen(m, first, s[n]);
    if n == 0 {
      RunZero(m);
      NothingWritten();
      assert first == [];
      FirstDigit(m, s[0]);
    } else {
      VersionNumber(m, first);
      if Decimal(0, first) <= 999 { NextDigit(Run(m, first), s[n]); }
    }
  }

  lemma DigitsOnly(s: seq<byte>)
    requires IsDigits(s)
    ensures var n := |s| - 1;
            DigitsAndSpaces(s) && DigitsAndSpaces(s[..n]) && IsDigit(s[n]) && s[n] != ' '
            && (n > 0 ==> IsDigits(s[..n]))
  {
    var n := |s| - 1;
    forall i | 0 <= i < n ensures IsDigit(s[..n][i]) { assert s[..n][i] == s[i]; }
  }

  lemma NothingWritten()
    ensures Decimal(0, []) == 0
  {
  }

  const PROTOCOL: seq<byte> := ['H', 'T', 'T', 'P', '/']

  /** The constant bytes of the version. */
  lemma VersionByte(m: Machine, ch: byte, next: State) returns (r: Machine)
    requires m.end == Running && m.f.nread < HTTP_MAX_HEADER_SIZE
    requires (m.f.state == HttpStart && ch == 'H' && next == HttpH)
             || (m.f.state == HttpH && ch == 'T' && next == HttpHT)
             || (m.f.state == HttpHT && ch == 'T' && next == HttpHTT)
             || (m.f.state == HttpHTT && ch == 'P' && next == HttpHTTP)
             || (m.f.state == HttpHTTP && ch == '/' && next == FirstMajor)
             || (m.f.state == Major && ch == '.' && next == FirstMinor)
             || (m.f.state == Minor && ch == CR && next == LineAlmostDone)
             || (m.f.state == Minor && ch == LF && next == FieldStart)
             || (m.f.state == LineAlmostDone && ch == LF && next == FieldStart)
    ensures r == OnByte(m, ch) == Machine(m.f.(nread := m.f.nread + 1, state := next), m.log, Running, m.read + 1)
  {
    r := OnByte(m, ch);
  }

  lemma RunThree(m: Machine, a: byte, b: byte, c: byte)
    requires m.end == Running && OnByte(m, a).end == Running && OnByte(OnByte(m, a), b).end == Running
    ensures Run(m, [a, b, c]) == OnByte(OnByte(OnByte(m, a), b), c)
  {
    hide OnByte, Run;
    RunTwo(m, a, b);
    RunThen(m, [a, b], c);
    assert [a, b] + [c] == [a, b, c];
  }

  lemma ProtocolStart(m: Machine)
    requires m.end == Running && m.f.state == HttpStart && m.f.nread + 3 <= HTTP_MAX_HEADER_SIZE
    ensures Run(m, ['H', 'T', 'T'])
            == Machine(m.f.(nread := m.f.nread + 3, state := HttpHTT), m.log, Running, m.read + 3)
  {
    hide OnByte, Run;
    var m1 := VersionByte(m, 'H', HttpH);
    var m2 := VersionByte(m1, 'T', HttpHT);
    var m3 := VersionByte(m2, 'T', HttpHTT);
    RunThree(m, 'H', 'T', 'T');
  }

  lemma ProtocolEnd(m: Machine)
    requires m.end == Running && m.f.state == HttpHTT && m.f.nread + 2 <= HTTP_MAX_HEADER_SIZE
    ensures Run(m, ['P', '/']) == Machine(m.f.(nread := m.f.nread + 2, state := FirstMajor), m.log, Running, m.read + 2)
  {
    hide OnByte, Run;
    var m1 := VersionByte(m, 'P', HttpHTTP);
    var m2 := VersionByte(m1, '/', FirstMajor);
    RunTwo(m, 'P', '/');
  }

  lemma ProtocolRead(m: Machine)
    requires m.end == Running && m.f.state == HttpStart && m.f.nread + 5 <= HTTP_MAX_HEADER_SIZE
    ensures Run(m, PROTOCOL) == Machine(m.f.(nread := m.f.nread + 5, state := FirstMajor), m.log, Running, m.read + 5)
  {
    hide OnByte, Run;
    var a: seq<byte>, b: seq<byte> := ['H', 'T', 'T'], ['P', '/'];
    ProtocolStart(m);
    ProtocolEnd(Run(m, a));
    assert a + b == PROTOCOL;
    RunSplit(m, a, b);
  }

  lemma LineEndRead(m: Machine, eol: Eol)
    requires m.end == Running && m.f.state == Minor && m.f.nread + |EolText(eol)| <= HTTP_MAX_HEADER_SIZE
    ensures Run(m, EolText(eol))
            == Machine(m.f.(nread := m.f.nread + |EolText(eol)|, state := FieldStart), m.log, Running,
                                            m.read + |EolText(eol)|)
  {
    hide OnByte, Run;
    if eol == CrLf {
      var m1 := VersionByte(m, CR, LineAlmostDone);
      var m2 := VersionByte(m1, LF, FieldStart);
      RunTwo(m, CR, LF);
    } else {
      var m1 := VersionByte(m, LF, FieldStart);
      RunByte(m, LF);
    }
  }

  // ---------- what surrounds them ----------

  function Spaces(n: nat): (s: seq<byte>)
    ensures |s| == n
  {
    if n == 0 then [] else [' '] + Spaces(n - 1)
  }

  lemma SpaceByte(m: Machine)
    requires m.end == Running && (m.f.state == SpacesBeforeUrl || m.f.state == HttpStart)
             && m.f.nread < HTTP_MAX_HEADER_SIZE
    ensures OnByte(m, ' ') == Machine(m.f.(nread := m.f.nread + 1), m.log, Running, m.read + 1)
  {
  }

  lemma {:induction false} SpacesRead(m: Machine, n: nat)
    requires m.end == Running && (m.f.state == SpacesBeforeUrl || m.f.state == HttpStart)
    requires m.f.nread + n <= HTTP_MAX_HEADER_SIZE
    ensures Run(m, Spaces(n)) == Machine(m.f.(nread := m.f.nread + n), m.log, Running, m.read + n)
    decreases n
  {
    hide OnByte;
    if n > 0 {
      SpaceByte(m);
      SpacesRead(OnByte(m, ' '), n - 1);
      assert Spaces(n)[1..] == Spaces(n - 1);
    }
  }

  predicate IsLead(s: seq<byte>) {
    forall i | 0 <= i < |s| :: s[i] == CR || s[i] == LF
  }

  lemma LeadByte(m: Machine, ch: byte)
    requires m.end == Running && m.f.state == StartReq && (ch == CR || ch == LF) && m.f.nread < HTTP_MAX_HEADER_SIZE
    ensures OnByte(m, ch) == Machine(m.f.(nread := m.f.nread + 1), m.log, Running, m.read + 1)
  {
  }

  /** Line ends before a request are skipped. */
  lemma {:induction false} LeadRead(m: Machine, s: seq<byte>)
    requires m.end == Running && m.f.state == StartReq && IsLead(s) && m.f.nread + |s| <= HTTP_MAX_HEADER_SIZE
    ensures Run(m, s) == Machine(m.f.(nread := m.f.nread + |s|), m.log, Running, m.read + |s|)
    decreases |s|
  {
    hide OnByte;
    if s != [] {
      LeadByte(m, s[0]);
      LeadRead(OnByte(m, s[0]), s[1..]);
    }
  }

  // ---------- the line ----------

  /** No version, or a gap of further spaces and two numbers. */
  datatype Version = Unversioned | Numbered(gap: nat, major: seq<byte>, minor: seq<byte>)

  /** The first line of a request: line ends before it, the method and its name, a gap of
      further spaces, the URL, the version, and the line end. */
  datatype FirstLine = FirstLine(lead: seq<byte>, verb: Method, word: seq<byte>, gap: nat, url: seq<byte>,
                                 version: Version, eol: Eol)

  predicate GoodVersion(v: Version) {
    v.Numbered? ==>
      && IsDigits(v.major) && v.major[0] != '0' && Decimal(0, v.major) <= 999
      && IsDigits(v.minor) && Decimal(0, v.minor) <= 999
  }

  predicate GoodFirstLine(line: FirstLine) {
    IsLead(line.lead) && line.word == MethodName(line.verb) && GoodUrl(line.verb, line.url) && GoodVersion(line.version)
  }

  function MajorOf(v: Version): nat
    requires GoodVersion(v)
  {
    if v.Numbered? then Decimal(0, v.major) else 0
  }

  function MinorOf(v: Version): nat
    requires GoodVersion(v)
  {
    if v.Numbered? then Decimal(0, v.minor) else 9
  }

  function VersionText(v: Version, eol: Eol): seq<byte>
    requires v.Numbered?
  {
    Spaces(v.gap) + (PROTOCOL + (v.major + ['.'] + (v.minor + EolText(eol))))
  }

  /** What follows the URL. */
  function AfterUrl(v: Version, eol: Eol): seq<byte> {
    if v.Numbered? then [' '] + VersionText(v, eol) else EolText(eol)
  }

  function FirstLineText(line: FirstLine): seq<byte> {
    line.lead + (line.word + [' '] + (Spaces(line.gap) + (line.url + AfterUrl(line.version, line.eol))))
  }

  lemma NumbersRead(m: Machine, v: Version, eol: Eol)
    requires m.end == Running && m.f.state == FirstMajor && v.Numbered? && GoodVersion(v)
    requires m.f.nread + |v.major| + 1 + |v.minor| + |EolText(eol)| <= HTTP_MAX_HEADER_SIZE
    ensures var n := |v.major| + 1 + |v.minor| + |EolText(eol)|;
            Run(m, v.major + ['.'] + (v.minor + EolText(eol)))
            == Machine(m.f.(nread := m.f.nread + n, state := FieldStart, major := MajorOf(v), minor := MinorOf(v)),
                       m.log,
                       Running, m.read + n)
  {
    hide OnByte, Run, Decimal, IsDigits, EolText;
    var dotted := v.major + ['.'];
    VersionNumber(m, v.major);
    var m1 := Run(m, v.major);
    var m2 := VersionByte(m1, '.', FirstMinor);
    RunThen(m, v.major, '.');
    VersionNumber(m2, v.minor);
    var m3 := Run(m2, v.minor);
    LineEndRead(m3, eol);
    RunSplit(m2, v.minor, EolText(eol));
    RunSplit(m, dotted, v.minor + EolText(eol));
  }

  /** A version is read as its two numbers. */
  lemma VersionRead(m: Machine, v: Version, eol: Eol)
    requires m.end == Running && m.f.state == HttpStart && v.Numbered? && GoodVersion(v)
    requires m.f.nread + |VersionText(v, eol)| <= HTTP_MAX_HEADER_SIZE
    ensures var n := |VersionText(v, eol)|;
            Run(m, VersionText(v, eol))
            == Machine(m.f.(nread := m.f.nread + n, state := FieldStart, major := MajorOf(v), minor := MinorOf(v)),
                       m.log,
                       Running, m.read + n)
  {
    hide OnByte, Run, GoodVersion, MajorOf, MinorOf, EolText;
    var numbers := v.major + ['.'] + (v.minor + EolText(eol));
    SpacesRead(m, v.gap);
    var m1 := Run(m, Spaces(v.gap));
    ProtocolRead(m1);
    NumbersRead(Run(m1, PROTOCOL), v, eol);
    RunSplit(m1, PROTOCOL, numbers);
    RunSplit(m, Spaces(v.gap), PROTOCOL + numbers);
  }

  lemma UrlReturn(m: Machine)
    requires m.end == Running && EndsUrl(m.f.state) && m.f.nread < HTTP_MAX_HEADER_SIZE
    ensures OnByte(m, CR) == Machine(m.f.(nread := m.f.nread + 1, state := LineAlmostDone, major := 0, minor := 9),
                                     m.log,
                                     Running, m.read + 1)
    ensures OnByte(m, LF) == Machine(m.f.(nread := m.f.nread + 1, state := FieldStart, major := 0, minor := 9), m.log,
                                     Running, m.read + 1)
  {
    hide ParseUrlChar, Emit, TurnStart, TurnMethod, TurnVersion, TurnHeader, TurnHeadersEnd, TurnData, TurnChunk;
  }

  /** A line end right after the URL means version 0.9. */
  lemma UnversionedRead(m: Machine, eol: Eol)
    requires m.end == Running && EndsUrl(m.f.state) && m.f.nread + |EolText(eol)| <= HTTP_MAX_HEADER_SIZE
    ensures Run(m, EolText(eol))
            == Machine(m.f.(nread := m.f.nread + |EolText(eol)|, state := FieldStart, major := 0, minor := 9),
                                            m.log, Running, m.read + |EolText(eol)|)
  {
    hide OnByte, Run;
    UrlReturn(m);
    if eol == CrLf {
      var m1 := VersionByte(OnByte(m, CR), LF, FieldStart);
      RunTwo(m, CR, LF);
    } else {
      RunByte(m, LF);
    }
  }

  /** A URL and the rest of its line. */
  lemma UrlLineRead(m: Machine, url: seq<byte>, v: Version, eol: Eol)
    requires m.end == Running && m.f.state == SpacesBeforeUrl && GoodUrl(m.f.verb, url) && GoodVersion(v)
    requires m.f.nread + |url + AfterUrl(v, eol)| <= HTTP_MAX_HEADER_SIZE
    ensures var n := |url + AfterUrl(v, eol)|;
            Run(m, url + AfterUrl(v, eol))
            == Machine(m.f.(nread := m.f.nread + n, state := FieldStart, major := MajorOf(v), minor := MinorOf(v)),
                       Emit(m.log, Text(UrlText, url)), Running, m.read + n)
  {
    hide OnByte, Run, Emit, AfterUrl, GoodVersion, MajorOf, MinorOf, GoodUrl;
    if v.Numbered? {
      VersionedLineRead(m, url, v, eol);
    } else {
      UnversionedLineRead(m, url, v, eol);
    }
  }

  lemma UnversionedLineRead(m: Machine, url: seq<byte>, v: Version, eol: Eol)
    requires m.end == Running && m.f.state == SpacesBeforeUrl && GoodUrl(m.f.verb, url) && v.Unversioned?
             && GoodVersion(v)
    requires m.f.nread + |url + AfterUrl(v, eol)| <= HTTP_MAX_HEADER_SIZE
    ensures var n := |url + AfterUrl(v, eol)|;
            Run(m, url + AfterUrl(v, eol))
            == Machine(m.f.(nread := m.f.nread + n, state := FieldStart, major := MajorOf(v), minor := MinorOf(v)),
                       Emit(m.log, Text(UrlText, url)), Running, m.read + n)
  {
    hide OnByte, Run, Emit, EndsToken, EolText, UrlAfter;
    GoodUrlIsOneToken(m.f.verb, url);
    UrlRead(m, url);
    UnversionedRead(Run(m, url), eol);
    RunSplit(m, url, EolText(eol));
  }

  lemma VersionedLineRead(m: Machine, url: seq<byte>, v: Version, eol: Eol)
    requires m.end == Running && m.f.state == SpacesBeforeUrl && GoodUrl(m.f.verb, url) && v.Numbered? && GoodVersion(v)
    requires m.f.nread + |url + AfterUrl(v, eol)| <= HTTP_MAX_HEADER_SIZE
    ensures var n := |url + AfterUrl(v, eol)|;
            Run(m, url + AfterUrl(v, eol))
            == Machine(m.f.(nread := m.f.nread + n, state := FieldStart, major := MajorOf(v), minor := MinorOf(v)),
                       Emit(m.log, Text(UrlText, url)), Running, m.read + n)
  {
    hide OnByte, Run, Emit, EndsToken, VersionText, GoodVersion, MajorOf, MinorOf, GoodUrl;
    GoodUrlIsOneToken(m.f.verb, url);
    UrlAccepted(m, url);
    var m1 := Run(m, url + [' ']);
    VersionRead(m1, v, eol);
    RunSplit(m, url + [' '], VersionText(v, eol));
    assert url + AfterUrl(v, eol) == url + [' '] + VersionText(v, eol);
  }

  /** The first line starts a new message, sets method and version, and delivers the URL. */
  lemma FirstLineRead(m: Machine, line: FirstLine) returns (r: Machine)
    requires m.end == Running && m.f.state == StartReq && GoodFirstLine(line)
    requires m.f.nread + |FirstLineText(line)| <= HTTP_MAX_HEADER_SIZE
    ensures r == Run(m, FirstLineText(line)) && r.end == Running
    ensures r.f == m.f.(nread := m.f.nread + |FirstLineText(line)|, state := FieldStart, verb := line.verb,
                        major := MajorOf(line.version), minor := MinorOf(line.version), index := r.f.index,
                        contentLength := ULLONG_MAX, flags := Flags(false, false, false, false, false))
    ensures Build(r.log) == Fresh.(requests := Build(m.log).requests, rawUrl := line.url)
    ensures r.read == m.read + |FirstLineText(line)|
  {
    hide OnByte, Run, Emit, Build, MethodName, Guess, GoodUrl, IsLead, GoodVersion, MajorOf, MinorOf, AfterUrl;
    var a, b := line.word + [' '], line.url + AfterUrl(line.version, line.eol);
    LeadRead(m, line.lead);
    var m0 := Run(m, line.lead);
    MethodIsRead(m0, line.verb, line.word);
    var m1 := Run(m0, a);
    SpacesRead(m1, line.gap);
    var m2 := Run(m1, Spaces(line.gap));
    UrlLineRead(m2, line.url, line.version, line.eol);
    r := Run(m2, b);
    RunSplit(m1, Spaces(line.gap), b);
    RunSplit(m0, a, Spaces(line.gap) + b);
    RunSplit(m, line.lead, a + (Spaces(line.gap) + b));
    BuildAppend(m.log, Told(MessageBegin, Begun(m0.f, line.verb, 1)));
    BuildEmit(m1.log, Text(UrlText, line.url));
    assert "" + line.url == line.url;
  }
}
