/** Header sections: any number of lines and the blank line after them, as the parser reads
    them and as the request builder stores them.

    The same lines may follow the last chunk of a chunked body as trailers. The builder keeps
    the last header apart until the next one starts or the headers are complete; how that
    loses headers and trailers is said here exactly. */
module HttpHeaders {
  import opened Bytes
  import opened HttpTables
  import opened HttpTurns
  import opened HttpMachine
  import opened HttpInvariant
  import opened HttpBuilder
  import opened HttpLengths
  import opened HttpNames
  import opened HttpValues
  import opened HttpLines

  function HeaderText(hs: seq<Header>): seq<byte> {
    if hs == [] then [] else HeaderText(hs[..|hs| - 1]) + LineText(hs[|hs| - 1])
  }

  predicate GoodHeaders(hs: seq<Header>) {
    forall i | 0 <= i < |hs| :: GoodHeader(hs[i])
  }

  /** What all the lines do to the flags and the length. */
  function Effects(hs: seq<Header>, e: Effect): Effect
    requires GoodHeaders(hs)
  {
    if hs == [] then e else LineEffect(hs[|hs| - 1], Effects(hs[..|hs| - 1], e))
  }

  function AddHeader(b: Builder, h: Header): Builder {
    OnText(OnText(b, FieldText, h.name), ValueText, ValueOf(h))
  }

  function WithHeaders(b: Builder, hs: seq<Header>): Builder {
    if hs == [] then b else AddHeader(WithHeaders(b, hs[..|hs| - 1]), hs[|hs| - 1])
  }

  /** This name has a value, on one line, that says the word. */
  predicate SaysIn(h: Header, name: Word, w: Word) {
    h.value != [] && h.folds == [] && FieldWord(h.name) == Matched(name) && Says(h.value, w)
  }

  /** Some line of this name says the word. */
  predicate SomeSays(hs: seq<Header>, name: Word, w: Word) {
    exists i | 0 <= i < |hs| :: SaysIn(hs[i], name, w)
  }

  predicate SomeUpgrade(hs: seq<Header>) {
    exists i | 0 <= i < |hs| :: AsksUpgrade(hs[i])
  }

  lemma UpgradeMore(hs: seq<Header>)
    requires hs != []
    ensures SomeUpgrade(hs) <==> SomeUpgrade(hs[..|hs| - 1]) || AsksUpgrade(hs[|hs| - 1])
  {
    hide AsksUpgrade;
    var n := |hs| - 1;
    if SomeUpgrade(hs[..n]) {
      var i :| 0 <= i < n && AsksUpgrade(hs[..n][i]);
      assert hs[i] == hs[..n][i];
    }
    if SomeUpgrade(hs) {
      var i :| 0 <= i < |hs| && AsksUpgrade(hs[i]);
      if i < n { assert hs[..n][i] == hs[i]; }
    }
  }

  /** A flag is set exactly if it was, or some line of its name says it. */
  lemma {:induction false} EffectsSay(hs: seq<Header>, e: Effect)
    requires GoodHeaders(hs)
    ensures var r := Effects(hs, e);
            && (r.flags.chunked <==> e.flags.chunked || SomeSays(hs, TransferEncoding, Chunked))
            && (r.flags.keepAlive <==> e.flags.keepAlive || SomeSays(hs, Connection, KeepAlive))
            && (r.flags.close <==> e.flags.close || SomeSays(hs, Connection, Close))
            && (r.flags.upgrade <==> e.flags.upgrade || SomeUpgrade(hs))
            && r.flags.trailing == e.flags.trailing
    decreases |hs|
  {
    hide Says, FieldWord, GoodHeader, SomeSays, Decimal, DigitsAndSpaces, SomeUpgrade;
    NoneSays();
    if hs == [] {
      NoUpgrade();
    } else {
      EffectsSay(hs[..|hs| - 1], e);
      UpgradeMore(hs);
      SayMore(hs, TransferEncoding, Chunked);
      SayMore(hs, Connection, KeepAlive);
      SayMore(hs, Connection, Close);
    }
  }

  lemma NoUpgrade()
    ensures !SomeUpgrade([])
  {
  }

  lemma NoneSays()
    ensures forall name, w :: !SomeSays([], name, w)
  {
  }

  lemma SayMore(hs: seq<Header>, name: Word, w: Word)
    requires hs != []
    ensures SomeSays(hs, name, w) <==> SomeSays(hs[..|hs| - 1], name, w) || SaysIn(hs[|hs| - 1], name, w)
  {
    hide SaysIn;
    var n := |hs| - 1;
    if SomeSays(hs[..n], name, w) {
      var i :| 0 <= i < n && SaysIn(hs[..n][i], name, w);
      assert hs[i] == hs[..n][i];
    }
    if SomeSays(hs, name, w) {
      var i :| 0 <= i < |hs| && SaysIn(hs[i], name, w);
      if i < n { assert hs[..n][i] == hs[i]; }
    }
  }

  // ---------- reading the lines ----------

  lemma {:induction false} DecimalBound(v: nat, s: seq<byte>)
    requires DigitsAndSpaces(s) && DecimalFits(v, s) && v < ULLONG_MAX
    ensures Decimal(v, s) < ULLONG_MAX
    decreases |s|
  {
    if s != [] {
      assert IsDigit(s[0]) || s[0] == ' ';
      DecimalBound(if s[0] == ' ' then v else 10 * v + Digit(s[0]), s[1..]);
    }
  }

  lemma LineEffectBound(h: Header, e: Effect)
    requires GoodHeader(h) && e.contentLength <= ULLONG_MAX
    ensures LineEffect(h, e).contentLength <= ULLONG_MAX
    ensures LineEffect(h, e).flags.trailing == e.flags.trailing
    ensures e.flags.chunked ==> LineEffect(h, e).flags.chunked
  {
    hide Decimal, DecimalFits, DigitsAndSpaces, Says, FieldWord, IsValue;
    if h.value != [] && FieldWord(h.name) == Matched(ContentLength) { DecimalBound(0, h.value); }
  }

  lemma {:induction false} EffectsBound(hs: seq<Header>, e: Effect)
    requires GoodHeaders(hs) && e.contentLength <= ULLONG_MAX
    ensures var r := Effects(hs, e);
            && r.contentLength <= ULLONG_MAX && r.flags.trailing == e.flags.trailing
            && (e.flags.chunked ==> r.flags.chunked)
  {
    hide LineEffect, GoodHeader;
    if hs != [] {
      EffectsBound(hs[..|hs| - 1], e);
      LineEffectBound(hs[|hs| - 1], Effects(hs[..|hs| - 1], e));
    }
  }

  /** The parser at the start of a line, after these header lines. */
  ghost predicate AfterLines(m: Machine, hs: seq<Header>, r: Machine)
    requires GoodHeaders(hs)
  {
    var e := Effects(hs, EffectOf(m.f));
    && r.end == Running && MachineOk(r, 0) && Build(r.log) == WithHeaders(Build(m.log), hs)
    && r.read == m.read + |HeaderText(hs)|
    && r.f == m.f.(nread := m.f.nread + |HeaderText(hs)|, state := FieldStart, header := r.f.header, index := r.f.index,
                   flags := e.flags, contentLength := e.contentLength)
  }

  lemma LineFirst(h: Header)
    requires GoodHeader(h)
    ensures LineText(h) != [] && !IsBlank(LineText(h)[0])
  {
    hide FoldsText, EolText;
    TokenIsVisible(h.name[0]);
  }

  /** One more line. */
  lemma LineAdded(m: Machine, hs: seq<Header>, mid: Machine, r: Machine)
    requires hs != [] && GoodHeaders(hs) && m.f.contentLength <= ULLONG_MAX
    requires AfterLines(m, hs[..|hs| - 1], mid) && LineDone(mid, hs[|hs| - 1], r)
    ensures AfterLines(m, hs, r)
  {
    hide Build, Emit, GoodHeader, LineEffect, LineText, FieldsOk, AddHeader;
    var h := hs[|hs| - 1];
    BuildEmit(mid.log, Text(FieldText, h.name));
    BuildEmit(Emit(mid.log, Text(FieldText, h.name)), Text(ValueText, ValueOf(h)));
    HeaderAdded(Build(mid.log), h);
    EffectsBound(hs, EffectOf(m.f));
    PlainOk(r.f);
  }

  lemma HeaderAdded(b: Builder, h: Header)
    ensures React(React(b, Text(FieldText, h.name)), Text(ValueText, ValueOf(h))) == AddHeader(b, h)
  {
  }

  lemma {:induction false} HeadersRead(m: Machine, hs: seq<Header>, rest: seq<byte>) returns (r: Machine)
    requires m.end == Running && m.f.state == FieldStart && MachineOk(m, 0) && GoodHeaders(hs)
    requires m.f.nread + |HeaderText(hs)| < HTTP_MAX_HEADER_SIZE
    requires rest != [] && !IsBlank(rest[0])
    ensures AfterLines(m, hs, r) && Run(m, HeaderText(hs) + rest) == Run(r, rest)
    decreases |hs|
  {
    hide Run, Build, LineText, GoodHeader, AddHeader, LineEffect, LineDone, FieldsOk, LogOk;
    if hs == [] {
      assert [] + rest == rest;
      r := m;
    } else {
      var n := |hs| - 1;
      var line := LineText(hs[n]);
      LineFirst(hs[n]);
      var mid := HeadersRead(m, hs[..n], line + rest);
      assert HeaderText(hs) + rest == HeaderText(hs[..n]) + (line + rest);
      r := LineRead(mid, hs[n], rest);
      assert m.f.contentLength <= ULLONG_MAX by { MachineBound(m); }
      LineAdded(m, hs, mid, r);
    }
  }

  lemma MachineBound(m: Machine)
    requires MachineOk(m, 0) && m.end == Running
    ensures m.f.contentLength <= ULLONG_MAX
  {
  }

  // ---------- what the builder makes of the lines ----------

  /** No header is being put together. */
  predicate Settled(b: Builder) {
    b.field == "" && b.value == "" && !b.building
  }

  function Pair(h: Header): (string, string) {
    (h.name, ValueOf(h))
  }

  function Pairs(hs: seq<Header>): (r: seq<(string, string)>)
    ensures |r| == |hs|
  {
    if hs == [] then [] else Pairs(hs[..|hs| - 1]) + [Pair(hs[|hs| - 1])]
  }

  predicate HaveValues(hs: seq<Header>) {
    forall i | 0 <= i < |hs| :: ValueOf(hs[i]) != []
  }

  function ButLast(hs: seq<Header>): seq<Header> {
    if hs == [] then [] else hs[..|hs| - 1]
  }

  /** The headers that have a value. */
  function Valued(hs: seq<Header>): (r: seq<(string, string)>)
    ensures |r| <= |hs|
    ensures HaveValues(hs) ==> r == Pairs(hs)
    ensures |r| == |hs| ==> HaveValues(hs)
  {
    if hs == [] then []
    else Valued(hs[..|hs| - 1]) + (if ValueOf(hs[|hs| - 1]) != [] then [Pair(hs[|hs| - 1])] else [])
  }

  /** What is stored of a message's headers: those with a value, and the last one anyhow. */
  function Stored(hs: seq<Header>): seq<(string, string)> {
    if hs == [] then [] else Valued(hs[..|hs| - 1]) + [Pair(hs[|hs| - 1])]
  }

  /** What is stored of trailers: those with a value, but not the last one. */
  function Kept(ts: seq<Header>): seq<(string, string)> {
    if ts == [] then [] else Valued(ts[..|ts| - 1])
  }

  /** The last line is kept apart from those before it. */
  lemma {:induction false} HeadersCollected(b: Builder, hs: seq<Header>)
    requires Settled(b) && forall i | 0 <= i < |hs| :: hs[i].name != []
    ensures var n := |hs|;
            WithHeaders(b, hs) == if n == 0 then b
                                  else b.(headers := b.headers + Valued(hs[..n - 1]), field := hs[n - 1].name,
                                          value := ValueOf(hs[n - 1]))
    decreases |hs|
  {
    hide AddHeader, Valued, ValueOf;
    if hs != [] {
      var n := |hs| - 1;
      HeadersCollected(b, hs[..n]);
      if n > 0 {
        CollectNext(b, b.headers + Valued(hs[..n - 1]), hs[n - 1], hs[n]);
        assert hs[..n][..n - 1] == hs[..n - 1];
        ValuedMore(hs[..n]);
        assert b.headers + Valued(hs[..n - 1]) + (if ValueOf(hs[n - 1]) != [] then [Pair(hs[n - 1])] else [])
               == b.headers + Valued(hs[..n]);
      } else {
        CollectFirst(b, hs[0]);
      }
    }
  }

  lemma CollectFirst(b: Builder, h: Header)
    requires Settled(b)
    ensures AddHeader(b, h) == b.(headers := b.headers + Valued([]), field := h.name, value := ValueOf(h))
  {
    assert b.headers + [] == b.headers;
  }

  lemma CollectNext(b: Builder, kept: seq<(string, string)>, last: Header, h: Header)
    requires Settled(b)
    ensures AddHeader(b.(headers := kept, field := last.name, value := ValueOf(last)), h)
            == b.(headers := kept + (if ValueOf(last) != [] then [Pair(last)] else []), field := h.name,
                  value := ValueOf(h))
  {
    assert kept + [] == kept;
  }

  lemma ValuedMore(hs: seq<Header>)
    requires hs != []
    ensures Valued(hs) == Valued(hs[..|hs| - 1]) + (if ValueOf(hs[|hs| - 1]) != [] then [Pair(hs[|hs| - 1])] else [])
  {
  }

  /** The builder when the headers are complete. */
  lemma AllCollected(b: Builder, hs: seq<Header>, at: Fields)
    requires Settled(b) && b.headers == [] && forall i | 0 <= i < |hs| :: hs[i].name != []
    ensures OnNotice(WithHeaders(b, hs), HeadersComplete, at) == b.(headers := Stored(hs))
  {
    HeadersCollected(b, hs);
    assert [] + Stored(hs) == Stored(hs);
  }

  lemma AllValued(hs: seq<Header>)
    ensures Valued(hs) == Pairs(hs) <==> HaveValues(hs)
  {
    hide Valued, Pairs;
  }

  lemma LastStored(hs: seq<Header>)
    requires hs != []
    ensures Stored(hs) == Pairs(hs) <==> Valued(hs[..|hs| - 1]) == Pairs(hs[..|hs| - 1])
  {
    hide Valued;
    var n := |hs| - 1;
    var a, b, last := Valued(hs[..n]), Pairs(hs[..n]), [Pair(hs[n])];
    assert Stored(hs) == a + last && Pairs(hs) == b + last;
    if a + last == b + last { LastDropped(a, b, last[0]); }
  }

  lemma LastDropped(a: seq<(string, string)>, b: seq<(string, string)>, p: (string, string))
    requires a + [p] == b + [p]
    ensures a == b
  {
    assert |a + [p]| == |b + [p]|;
    assert (a + [p])[..|a|] == a && (b + [p])[..|a|] == b;
  }

  lemma LastValued(hs: seq<Header>)
    ensures Stored(hs) == Pairs(hs) <==> HaveValues(ButLast(hs))
  {
    hide Valued, Pairs, Stored;
    if hs == [] {
      NoneStored();
    } else {
      LastStored(hs);
      AllValued(hs[..|hs| - 1]);
    }
  }

  lemma NoneStored()
    ensures Stored([]) == Pairs([]) == []
  {
  }

  lemma StoredSize(hs: seq<Header>, ts: seq<Header>)
    ensures |Stored(hs)| <= |hs| && (ts != [] ==> |Kept(ts)| < |ts|) && (ts == [] ==> Kept(ts) == [])
  {
    hide Valued;
  }

  /** Of headers and trailers all are stored exactly if every header but the last has a value
      and there are no trailers. */
  lemma HeadersAreStored(hs: seq<Header>, ts: seq<Header>)
    ensures Stored(hs) + Kept(ts) == Pairs(hs) + Pairs(ts) <==> HaveValues(ButLast(hs)) && ts == []
  {
    hide Valued, Pairs, Stored, Kept, HaveValues, ButLast;
    StoredSize(hs, ts);
    var a, b, c, d := Stored(hs), Kept(ts), Pairs(hs), Pairs(ts);
    if ts == [] {
      NoneStored();
      LastValued(hs);
      assert a + [] == a && c + [] == c;
    } else {
      assert |a + b| < |c + d|;
    }
  }

  // ---------- the blank line ----------

  /** The state after the blank line of a head. */
  function AfterHead(f: Fields): State {
    if f.flags.chunked then ChunkSizeStart
    else if f.contentLength == 0 || f.contentLength == ULLONG_MAX then NewMessage(f)
    else BodyIdentity
  }

  predicate EndsMessage(f: Fields) {
    !f.flags.chunked && (f.contentLength == 0 || f.contentLength == ULLONG_MAX)
  }

  lemma EndReturn(m: Machine)
    requires m.end == Running && m.f.state == FieldStart && m.f.nread < HTTP_MAX_HEADER_SIZE
    ensures OnByte(m, CR) == Machine(m.f.(nread := m.f.nread + 1, state := HeadersAlmostDone), m.log, Running,
                                     m.read + 1)
  {
  }

  lemma BareEnd(m: Machine)
    requires m.end == Running && m.f.state == FieldStart && m.f.nread < HTTP_MAX_HEADER_SIZE
    ensures OnByte(m, LF) == OnByte(m.(f := m.f.(state := HeadersAlmostDone)), LF)
  {
    hide TurnHeadersEnd;
  }

  /** A blank line is its LF met in the state after a CR. */
  lemma BlankRun(m: Machine, eol: Eol) returns (a: Machine)
    requires m.end == Running && m.f.state == FieldStart && m.f.nread + |EolText(eol)| <= HTTP_MAX_HEADER_SIZE
    ensures var k := |EolText(eol)| - 1;
            && a == Machine(m.f.(nread := m.f.nread + k, state := HeadersAlmostDone), m.log, Running, m.read + k)
            && Run(m, EolText(eol)) == OnByte(a, LF)
  {
    hide OnByte, Run;
    if eol == CrLf {
      EndReturn(m);
      a := OnByte(m, CR);
      RunTwo(m, CR, LF);
    } else {
      BareEnd(m);
      a := m.(f := m.f.(state := HeadersAlmostDone));
      RunByte(m, LF);
    }
  }

  /** Nothing asks for another protocol. */
  predicate StaysHttp(f: Fields) {
    !f.flags.upgrade && f.verb != CONNECT
  }

  lemma EndFeed(m: Machine)
    requires m.end == Running && m.f.state == HeadersAlmostDone && StaysHttp(m.f) && !m.f.flags.trailing
    requires m.f.nread < HTTP_MAX_HEADER_SIZE
    ensures var g := m.f.(nread := m.f.nread + 1, state := HeadersDone, upgrade := false);
            var done := g.(nread := 0, state := AfterHead(m.f));
            var log := m.log + [Told(HeadersComplete, g)];
            OnByte(m, LF) == Machine(done, if EndsMessage(m.f) then log + [Told(MessageComplete, done)] else log,
                                     Running, m.read + 1)
  {
    hide Turns, OnByte, NewMessage;
    var g := m.f.(nread := m.f.nread + 1, state := HeadersDone, upgrade := false);
    FeedTurn(m);
    DoneTurn(Machine(g, m.log + [Told(HeadersComplete, g)], Running, m.read));
    SameNewMessage(m.f, g);
  }

  lemma FeedTurn(m: Machine)
    requires m.end == Running && m.f.state == HeadersAlmostDone && StaysHttp(m.f) && !m.f.flags.trailing
    requires m.f.nread < HTTP_MAX_HEADER_SIZE
    ensures var g := m.f.(nread := m.f.nread + 1, state := HeadersDone, upgrade := false);
            OnByte(m, LF) == Turns(Machine(g, m.log + [Told(HeadersComplete, g)], Running, m.read), LF)
  {
    hide TurnStart, TurnMethod, TurnUrl, TurnVersion, TurnHeader, TurnData, TurnChunk, NewMessage;
  }

  lemma DoneTurn(m: Machine)
    requires m.f.state == HeadersDone && !m.f.upgrade
    ensures var done := m.f.(nread := 0, state := AfterHead(m.f));
            Turns(m, LF) == Machine(done, if EndsMessage(m.f) then m.log + [Told(MessageComplete, done)] else m.log,
                                    m.end, m.read + 1)
  {
    hide OneTurn, NewMessage, AfterHead, EndsMessage, Rank;
    DoneStep(m.f);
    RankFalls(m.f, LF);
  }

  lemma DoneStep(f: Fields)
    requires f.state == HeadersDone && !f.upgrade
    ensures OneTurn(f, LF)
            == Go(f.(nread := 0, state := AfterHead(f)), if EndsMessage(f) then Tell(MessageComplete) else Pass)
  {
    hide TurnStart, TurnMethod, TurnUrl, TurnVersion, TurnHeader, TurnData, TurnChunk, NewMessage;
  }

  lemma SameNewMessage(f: Fields, g: Fields)
    requires f.major == g.major && f.minor == g.minor && f.flags.close == g.flags.close
             && f.flags.keepAlive == g.flags.keepAlive
    ensures NewMessage(f) == NewMessage(g)
  {
  }

  /** The blank line after the headers. */
  lemma BlankLine(m: Machine, eol: Eol)
    requires m.end == Running && m.f.state == FieldStart && StaysHttp(m.f) && !m.f.flags.trailing
    requires m.f.nread + |EolText(eol)| <= HTTP_MAX_HEADER_SIZE
    ensures var r := Run(m, EolText(eol));
            var b := OnNotice(Build(m.log), HeadersComplete, r.f);
            && r.end == Running && r.read == m.read + |EolText(eol)|
            && r.f == m.f.(nread := 0, state := AfterHead(m.f), upgrade := false)
            && Build(r.log) == if EndsMessage(m.f) then OnNotice(b, MessageComplete, r.f) else b
  {
    hide OnByte, Run, Build, OnNotice, NewMessage;
    var a := BlankRun(m, eol);
    EndFeed(a);
    var r := Run(m, EolText(eol));
    SameNewMessage(m.f, a.f);
    var g := a.f.(nread := a.f.nread + 1, state := HeadersDone, upgrade := false);
    BuildAppend(m.log, Told(HeadersComplete, g));
    NoticeIgnores(Build(m.log), g, r.f);
    if EndsMessage(m.f) {
      BuildAppend(m.log + [Told(HeadersComplete, g)], Told(MessageComplete, r.f));
    }
  }

  /** An upgrade or CONNECT ends with the blank line: the message is complete, whatever length was
      announced, and nothing behind it is read. */
  lemma UpgradeLeaves(m: Machine, eol: Eol, more: seq<byte>)
    requires m.end == Running && m.f.state == FieldStart && !StaysHttp(m.f) && !m.f.flags.trailing
    requires m.f.nread + |EolText(eol)| <= HTTP_MAX_HEADER_SIZE
    ensures var r := Run(m, EolText(eol) + more);
            && r.end == Left && r.read == m.read + |EolText(eol)|
            && r.f == m.f.(nread := 0, state := NewMessage(m.f), upgrade := true)
            && Build(r.log) == OnNotice(OnNotice(Build(m.log), HeadersComplete, r.f), MessageComplete, r.f)
  {
    hide OnByte, Run, Build, OnNotice, NewMessage, EolText;
    var g := RunUpgrade(m, eol);
    var r := Run(m, EolText(eol));
    RunSplit(m, EolText(eol), more);
    NothingRead(r, more);
    BuildBoth(m.log, g, r.f);
  }

  lemma RunUpgrade(m: Machine, eol: Eol) returns (g: Fields)
    requires m.end == Running && m.f.state == FieldStart && !StaysHttp(m.f) && !m.f.flags.trailing
    requires m.f.nread + |EolText(eol)| <= HTTP_MAX_HEADER_SIZE
    ensures var done := m.f.(nread := 0, state := NewMessage(m.f), upgrade := true);
            Run(m, EolText(eol))
            == Machine(done, m.log + [Told(HeadersComplete, g)] + [Told(MessageComplete, done)], Left,
                       m.read + |EolText(eol)|)
  {
    hide OnByte, Run, NewMessage, Turns;
    var a := BlankRun(m, eol);
    UpgradeFeed(a);
    g := a.f.(nread := a.f.nread + 1, state := HeadersDone, upgrade := true);
    ExitTurn(Machine(g, a.log + [Told(HeadersComplete, g)], Running, a.read));
    SameNewMessage(m.f, g);
  }

  lemma BuildBoth(log: seq<Event>, g: Fields, f: Fields)
    ensures Build(log + [Told(HeadersComplete, g)] + [Told(MessageComplete, f)])
            == OnNotice(OnNotice(Build(log), HeadersComplete, f), MessageComplete, f)
  {
    hide Build, OnNotice;
    BuildAppend(log, Told(HeadersComplete, g));
    NoticeIgnores(Build(log), g, f);
    BuildAppend(log + [Told(HeadersComplete, g)], Told(MessageComplete, f));
  }

  lemma UpgradeFeed(m: Machine)
    requires m.end == Running && m.f.state == HeadersAlmostDone && !StaysHttp(m.f) && !m.f.flags.trailing
    requires m.f.nread < HTTP_MAX_HEADER_SIZE
    ensures var g := m.f.(nread := m.f.nread + 1, state := HeadersDone, upgrade := true);
            OnByte(m, LF) == Turns(Machine(g, m.log + [Told(HeadersComplete, g)], Running, m.read), LF)
  {
    hide TurnStart, TurnMethod, TurnUrl, TurnVersion, TurnHeader, TurnData, TurnChunk, NewMessage;
  }

  lemma ExitTurn(m: Machine)
    requires m.f.state == HeadersDone && m.f.upgrade
    ensures var done := m.f.(nread := 0, state := NewMessage(m.f));
            Turns(m, LF) == Machine(done, m.log + [Told(MessageComplete, done)], Left, m.read + 1)
  {
    hide OnByte, Run, MachineOk, TurnStart, TurnMethod, TurnUrl, TurnVersion, TurnHeader, TurnData, TurnChunk;
    hide NewMessage;
    RankFalls(m.f, LF);
  }

  lemma NothingRead(m: Machine, more: seq<byte>)
    requires m.end != Running
    ensures Run(m, more) == m
  {
  }

  lemma NoticeIgnores(b: Builder, f: Fields, g: Fields)
    ensures OnNotice(b, HeadersComplete, f) == OnNotice(b, HeadersComplete, g)
  {
  }

  // ---------- trailers and the end of a chunked body ----------

  lemma TrailerFeed(m: Machine)
    requires m.end == Running && m.f.state == HeadersAlmostDone && m.f.flags.trailing
             && m.f.nread < HTTP_MAX_HEADER_SIZE
    ensures var h := m.f.(nread := m.f.nread + 1, state := NewMessage(m.f));
            OnByte(m, LF) == Machine(h, m.log + [Told(MessageComplete, h)], Running, m.read + 1)
  {
  }

  /** The blank line after the trailers. The count of header bytes goes on from here. */
  lemma TrailerEnd(m: Machine, eol: Eol)
    requires m.end == Running && m.f.state == FieldStart && m.f.flags.trailing
    requires m.f.nread + |EolText(eol)| <= HTTP_MAX_HEADER_SIZE
    ensures var h := m.f.(nread := m.f.nread + |EolText(eol)|, state := NewMessage(m.f));
            Run(m, EolText(eol)) == Machine(h, m.log + [Told(MessageComplete, h)], Running, m.read + |EolText(eol)|)
  {
    hide OnByte, Run, NewMessage;
    var a := BlankRun(m, eol);
    TrailerFeed(a);
    SameNewMessage(m.f, a.f);
  }

  /** A chunked body as it is written: chunks, a last chunk of size zero, trailers and the
      end of the blank line. */
  datatype Pieces = Pieces(chunks: seq<Chunk>, size: seq<byte>, ext: seq<byte>, trailers: seq<Header>, blank: Eol)

  predicate GoodPieces(p: Pieces) {
    && (forall i | 0 <= i < |p.chunks| :: GoodChunk(p.chunks[i]))
    && SizeFits(p.size, p.ext) && Hex(0, p.size) == 0
    && GoodHeaders(p.trailers) && |HeaderText(p.trailers)| + |EolText(p.blank)| <= HTTP_MAX_HEADER_SIZE
  }

  function PiecesText(p: Pieces): seq<byte> {
    EncodedAll(p.chunks) + SizeLineText(p.size, p.ext) + HeaderText(p.trailers) + EolText(p.blank)
  }

  /** The text after the chunks. */
  function PiecesEnd(p: Pieces): seq<byte> {
    SizeLineText(p.size, p.ext) + HeaderText(p.trailers) + EolText(p.blank)
  }

  /** The flags after the trailers. */
  function TrailerFlags(p: Pieces, flags: Flags): Flags
    requires GoodHeaders(p.trailers)
  {
    Effects(p.trailers, Effect(flags.(trailing := true), 0)).flags
  }

  /** Trailers and the blank line after them. */
  lemma TrailerLines(m: Machine, ts: seq<Header>, blank: Eol) returns (r: Machine)
    requires m.end == Running && m.f.state == FieldStart && m.f.flags.trailing && MachineOk(m, 0) && GoodHeaders(ts)
    requires m.f.nread + |HeaderText(ts)| + |EolText(blank)| <= HTTP_MAX_HEADER_SIZE && Settled(Build(m.log))
    ensures var b := Build(m.log);
            && r == Run(m, HeaderText(ts) + EolText(blank))
            && r.end == Running && r.f.nread == m.f.nread + |HeaderText(ts)| + |EolText(blank)|
            && r.f.state == NewMessage(m.f.(flags := Effects(ts, EffectOf(m.f)).flags))
            && Build(r.log).requests
               == b.requests + [Request(m.f.verb, b.rawUrl, BeforeQuery(b.rawUrl), b.headers + Kept(ts), b.body)]
  {
    hide OnByte, Run, Build, NewMessage, Effects, FieldsOk, LogOk, BeforeQuery, EolText, WithHeaders, Kept;
    hide GoodHeaders, Settled;
    var m2 := HeadersRead(m, ts, EolText(blank));
    MachineBound(m);
    EffectsBound(ts, EffectOf(m.f));
    TrailerEnd(m2, blank);
    r := Run(m2, EolText(blank));
    SameNewMessage(m2.f, m.f.(flags := Effects(ts, EffectOf(m.f)).flags));
    BuildAppend(m2.log, Told(MessageComplete, r.f));
    TrailersCollected(Build(m.log), ts);
  }

  /** The size line of the last chunk and the trailers after it. */
  lemma TrailersRead(m: Machine, p: Pieces) returns (r: Machine)
    requires m.end == Running && AtChunk(m.f) && GoodPieces(p) && MachineOk(m, 0) && Settled(Build(m.log))
    ensures var b := Build(m.log);
            && r == Run(m, PiecesEnd(p))
            && r.end == Running && r.f.nread == |HeaderText(p.trailers)| + |EolText(p.blank)|
            && r.f.state == NewMessage(m.f.(flags := TrailerFlags(p, m.f.flags)))
            && Build(r.log).requests
               == b.requests + [Request(m.f.verb, b.rawUrl, BeforeQuery(b.rawUrl), b.headers + Kept(p.trailers),
                                        b.body)]
  {
    hide OnByte, Run, Build, NewMessage, Effects, HexFits, Hex, MachineOk, BeforeQuery, EolText, Kept, GoodHeaders;
    hide Settled;
    var line, t := SizeLineText(p.size, p.ext), HeaderText(p.trailers) + EolText(p.blank);
    SizeLine(m, p.size, p.ext);
    RunOk(m, line);
    var m1 := Run(m, line);
    r := TrailerLines(m1, p.trailers, p.blank);
    assert PiecesEnd(p) == line + t;
    RunSplit(m, line, t);
    SameNewMessage(m1.f.(flags := TrailerFlags(p, m.f.flags)), m.f.(flags := TrailerFlags(p, m.f.flags)));
  }

  lemma TrailersCollected(b: Builder, ts: seq<Header>)
    requires Settled(b) && GoodHeaders(ts)
    ensures var c := WithHeaders(b, ts);
            c.headers == b.headers + Kept(ts) && c.rawUrl == b.rawUrl && c.body == b.body && c.requests == b.requests
  {
    hide IsPad, IsValue, IsLength, FieldWord, Valued;
    forall i | 0 <= i < |ts| ensures ts[i].name != [] {
      assert GoodHeader(ts[i]);
    }
    HeadersCollected(b, ts);
    assert b.headers + [] == b.headers;
  }

  /** A chunked body: the request that is handed over has the chunks' bytes, in order, as its
      body. Of the trailers those with a value join the headers, except the last trailer,
      which is always lost. */
  lemma ChunkedBody(m: Machine, p: Pieces)
    requires m.end == Running && AtChunk(m.f) && GoodPieces(p) && MachineOk(m, 0) && Settled(Build(m.log))
    ensures var r := Run(m, PiecesText(p));
            var b := Build(m.log);
            && r.end == Running && r.f.nread == |HeaderText(p.trailers)| + |EolText(p.blank)|
            && r.f.state == NewMessage(m.f.(flags := TrailerFlags(p, m.f.flags)))
            && Build(r.log).requests
               == b.requests + [Request(m.f.verb, b.rawUrl, BeforeQuery(b.rawUrl), b.headers + Kept(p.trailers),
                                        b.body + Contents(p.chunks))]
  {
    hide OnByte, Run, Build, Encoded, BeforeQuery, NewMessage, MachineOk, GoodPieces, PiecesText, TrailerFlags, Kept;
    PiecesAreGood(p);
    ChunksArrive(m, p.chunks);
    var text := EncodedAll(p.chunks);
    RunOk(m, text);
    var m1 := Run(m, text);
    var r := TrailersRead(m1, p);
    SameNewMessage(m.f.(flags := TrailerFlags(p, m.f.flags)), m1.f.(flags := TrailerFlags(p, m1.f.flags)));
    RunSplit(m, text, PiecesEnd(p));
    PiecesGroup(p);
  }

  lemma PiecesGroup(p: Pieces)
    ensures PiecesText(p) == EncodedAll(p.chunks) + PiecesEnd(p)
  {
    hide EncodedAll, SizeLineText, HeaderText;
  }

  lemma PiecesAreGood(p: Pieces)
    requires GoodPieces(p)
    ensures GoodHeaders(p.trailers)
    ensures forall i | 0 <= i < |p.chunks| :: GoodChunk(p.chunks[i])
  {
  }
}
