/** The URL of a request.

    A URL is accepted exactly if parse_url_char leads from its first character to a state in
    which a URL may end; OriginForm, AbsoluteForm and NoOtherForm say what that means for
    its text. */
module HttpUrl {
  import opened Bytes
  import opened HttpTables
  import opened HttpTurns
  import opened HttpMachine

  // ---------- the URL ----------

  /** The state after these characters of a URL. */
  function UrlAfter(s: State, url: seq<byte>): State {
    if url == [] then s else ParseUrlChar(UrlAfter(s, url[..|url| - 1]), url[|url| - 1])
  }

  function UrlStart(verb: Method): State {
    if verb == CONNECT then ServerStart else SpacesBeforeUrl
  }

  /** Where a URL may end. */
  predicate EndsUrl(s: State) {
    s.Server? || s.ServerWithAt? || s.Path? || s.QueryStringStart? || s.QueryString? || s.FragmentStart? || s.Fragment?
  }

  predicate EndsToken(ch: byte) {
    ch == ' ' || ch == CR || ch == LF
  }

  /** A URL the parser accepts with a method. */
  predicate GoodUrl(verb: Method, url: seq<byte>) {
    url != [] && EndsUrl(UrlAfter(UrlStart(verb), url))
  }

  lemma UrlFirst(m: Machine, ch: byte)
    requires m.end == Running && m.f.state == SpacesBeforeUrl && !EndsToken(ch) && m.f.nread < HTTP_MAX_HEADER_SIZE
    ensures var s := ParseUrlChar(UrlStart(m.f.verb), ch);
            OnByte(m, ch) == if s == Dead then m.(f := Counted(m.f), end := Failed(INVALID_URL))
                             else Machine(m.f.(nread := m.f.nread + 1, state := s), Emit(m.log, Text(UrlText, [ch])),
                                          Running, m.read + 1)
  {
    hide Emit, ParseUrlChar, TurnStart, TurnMethod, TurnVersion, TurnHeader, TurnHeadersEnd, TurnData, TurnChunk;
  }

  lemma UrlNext(m: Machine, ch: byte)
    requires m.end == Running && IsUrlState(m.f.state) && !EndsToken(ch) && m.f.nread < HTTP_MAX_HEADER_SIZE
    ensures var s := ParseUrlChar(m.f.state, ch);
            OnByte(m, ch) == if s == Dead then m.(f := Counted(m.f), end := Failed(INVALID_URL))
                             else Machine(m.f.(nread := m.f.nread + 1, state := s), Emit(m.log, Text(UrlText, [ch])),
                                          Running, m.read + 1)
  {
    hide Emit, ParseUrlChar, OneTurn, IsUrlState;
    UrlTurn(Counted(m.f), ch);
  }

  lemma UrlTurn(f: Fields, ch: byte)
    requires IsUrlState(f.state) && !EndsToken(ch)
    ensures var s := ParseUrlChar(f.state, ch);
            OneTurn(f, ch) == if s == Dead then Fail(INVALID_URL) else Go(f.(state := s), Keep(UrlText))
    ensures ParsingHeader(f.state)
  {
    hide ParseUrlChar, TurnStart, TurnMethod, TurnVersion, TurnHeader, TurnHeadersEnd, TurnData, TurnChunk;
  }

  lemma {:induction false} UrlAfterKind(s: State, url: seq<byte>)
    requires url != []
    ensures UrlAfter(s, url) == Dead || IsUrlState(UrlAfter(s, url))
    decreases |url|
  {
  }

  lemma UrlMore(s: State, url: seq<byte>, ch: byte)
    ensures UrlAfter(s, url + [ch]) == ParseUrlChar(UrlAfter(s, url), ch)
  {
    assert (url + [ch])[..|url|] == url;
  }

  lemma DeadStays(ch: byte)
    ensures ParseUrlChar(Dead, ch) == Dead
  {
  }

  /** Up to its end a URL is accepted exactly as long as no character leads nowhere. */
  lemma {:induction false} UrlRead(m: Machine, url: seq<byte>)
    requires m.end == Running && m.f.state == SpacesBeforeUrl && url != []
             && forall i | 0 <= i < |url| :: !EndsToken(url[i])
    requires m.f.nread + |url| <= HTTP_MAX_HEADER_SIZE
    ensures var s := UrlAfter(UrlStart(m.f.verb), url);
            && (s == Dead ==> Run(m, url).end == Failed(INVALID_URL))
            && (s != Dead ==> Run(m, url) == Machine(m.f.(nread := m.f.nread + |url|, state := s),
                                                     Emit(m.log, Text(UrlText, url)), Running, m.read + |url|))
    decreases |url|
  {
    hide OnByte, Emit, Run, ParseUrlChar, IsUrlState, EndsToken;
    var n := |url| - 1;
    var first := url[..n];
    assert first + [url[n]] == url && url[..n + 1] == url;
    if n == 0 {
      RunZero(m);
      assert first == [] && url == [url[0]];
      UrlFirst(m, url[0]);
      RunOne(m, url, n);
    } else {
      UrlRead(m, first);
      if UrlAfter(UrlStart(m.f.verb), first) == Dead {
        RunStops(m, url, n);
        DeadStays(url[n]);
      } else {
        UrlAfterKind(UrlStart(m.f.verb), first);
        UrlNext(Run(m, first), url[n]);
        EmitTwice(m.log, UrlText, first, [url[n]]);
        RunOne(m, url, n);
      }
    }
  }

  lemma UrlSpace(m: Machine)
    requires m.end == Running && IsUrlState(m.f.state) && m.f.nread < HTTP_MAX_HEADER_SIZE
    ensures var g := m.f.(nread := m.f.nread + 1, state := HttpStart);
            if EndsUrl(m.f.state) then OnByte(m, ' ') == Machine(g, m.log, Running, m.read + 1)
            else OnByte(m, ' ').end == Failed(INVALID_URL)
  {
    hide Emit;
  }

  lemma {:induction false} AliveIsOneToken(s: State, url: seq<byte>)
    requires UrlAfter(s, url) != Dead
    ensures forall i | 0 <= i < |url| :: !EndsToken(url[i])
    decreases |url|
  {
    if url != [] {
      var n := |url| - 1;
      AliveIsOneToken(s, url[..n]);
      forall i | 0 <= i < |url| ensures !EndsToken(url[i]) {
        assert i < n ==> url[..n][i] == url[i];
      }
    }
  }

  lemma GoodUrlIsOneToken(verb: Method, url: seq<byte>)
    requires GoodUrl(verb, url)
    ensures url != [] && forall i | 0 <= i < |url| :: !EndsToken(url[i])
  {
    AliveIsOneToken(UrlStart(verb), url);
  }

  /** With the space after it a URL is accepted exactly if it is good, and is delivered as it
      is; any other URL is refused. */
  lemma UrlAccepted(m: Machine, url: seq<byte>)
    requires m.end == Running && m.f.state == SpacesBeforeUrl && url != []
             && forall i | 0 <= i < |url| :: !EndsToken(url[i])
    requires m.f.nread + |url| < HTTP_MAX_HEADER_SIZE
    ensures var r := Run(m, url + [' ']);
            if GoodUrl(m.f.verb, url)
            then r == Machine(m.f.(nread := m.f.nread + |url| + 1, state := HttpStart), Emit(m.log, Text(UrlText, url)),
                              Running, m.read + |url| + 1)
            else r.end == Failed(INVALID_URL)
  {
    hide OnByte, Emit, Run, UrlAfter, EndsToken, ParseUrlChar, UrlStart, IsUrlState;
    UrlRead(m, url);
    var s := UrlAfter(UrlStart(m.f.verb), url);
    RunThen(m, url, ' ');
    if s != Dead {
      UrlAfterKind(UrlStart(m.f.verb), url);
      UrlSpace(Run(m, url));
    }
  }

  // ---------- the usual forms of URLs ----------

  predicate Visible(c: byte) {
    '!' <= c <= '~'
  }

  predicate InPath(s: State) {
    s.Path? || s.QueryStringStart? || s.QueryString? || s.FragmentStart? || s.Fragment?
  }

  lemma PathMore(s: State, ch: byte)
    requires InPath(s)
    ensures if Visible(ch) then InPath(ParseUrlChar(s, ch)) else ParseUrlChar(s, ch) == Dead
  {
  }

  /** From a path on, exactly the visible characters are accepted. */
  lemma {:induction false} PathRead(s: State, a: seq<byte>, b: seq<byte>)
    requires InPath(UrlAfter(s, a))
    ensures var t := UrlAfter(s, a + b);
            if forall i | 0 <= i < |b| :: Visible(b[i]) then InPath(t) else t == Dead
    decreases |b|
  {
    hide ParseUrlChar, InPath;
    if b == [] {
      assert a + b == a;
    } else {
      var n := |b| - 1;
      var first := b[..n];
      assert a + b == (a + first) + [b[n]];
      UrlMore(s, a + first, b[n]);
      PathRead(s, a, first);
      if forall i | 0 <= i < |first| :: Visible(first[i]) {
        PathMore(UrlAfter(s, a + first), b[n]);
        assert forall i | 0 <= i < |b| :: i < n ==> b[i] == first[i];
      } else {
        var i :| 0 <= i < |first| && !Visible(first[i]);
        assert b[i] == first[i];
        DeadStays(b[n]);
      }
    }
  }

  lemma OneUrlChar(s: State, ch: byte)
    ensures UrlAfter(s, [ch]) == ParseUrlChar(s, ch)
  {
    UrlMore(s, [], ch);
    assert [] + [ch] == [ch];
  }

  /** The origin form and the asterisk: a URL that starts with `/` or `*` is accepted exactly
      if all of its characters are visible. */
  lemma OriginForm(verb: Method, url: seq<byte>)
    requires verb != CONNECT && url != [] && (url[0] == '/' || url[0] == '*')
    ensures GoodUrl(verb, url) <==> forall i | 0 <= i < |url| :: Visible(url[i])
  {
    hide UrlAfter;
    var rest := url[1..];
    assert url == [url[0]] + rest;
    OneUrlChar(SpacesBeforeUrl, url[0]);
    PathRead(SpacesBeforeUrl, [url[0]], rest);
    if forall i | 0 <= i < |rest| :: Visible(rest[i]) {
      forall i | 0 <= i < |url| ensures Visible(url[i]) {
        assert i > 0 ==> url[i] == rest[i - 1];
      }
    }
  }

  predicate IsScheme(s: seq<byte>) {
    s != [] && forall i | 0 <= i < |s| :: IsAlpha(s[i])
  }

  /** Characters of host, user and port; an '@' does not follow another. */
  predicate IsAuthority(s: seq<byte>) {
    && (forall i | 0 <= i < |s| :: IsUserinfoChar(s[i]) || s[i] == '[' || s[i] == ']' || s[i] == '@')
    && (forall i | 0 < i < |s| :: s[i] == '@' ==> s[i - 1] != '@')
  }

  /** Nothing, or a path or query of visible characters. */
  predicate IsRest(s: seq<byte>) {
    s != [] ==> (s[0] == '/' || s[0] == '?') && forall i | 0 <= i < |s| :: Visible(s[i])
  }

  const SLASHES: seq<byte> := [':', '/', '/']

  lemma {:induction false} SchemeRead(scheme: seq<byte>)
    requires IsScheme(scheme)
    ensures UrlAfter(SpacesBeforeUrl, scheme) == Schema
    decreases |scheme|
  {
    hide UrlAfter;
    var n := |scheme| - 1;
    assert scheme == scheme[..n] + [scheme[n]];
    UrlMore(SpacesBeforeUrl, scheme[..n], scheme[n]);
    if n > 0 {
      SchemeRead(scheme[..n]);
    } else {
      OneUrlChar(SpacesBeforeUrl, scheme[0]);
      assert scheme == [scheme[0]];
    }
  }

  /** The state behind an authority. */
  function AuthorityEnd(a: seq<byte>): State {
    if a == [] then ServerStart else if a[|a| - 1] == '@' then ServerWithAt else Server
  }

  lemma AuthorityMore(a: seq<byte>, ch: byte)
    requires IsAuthority(a)
    ensures var s := ParseUrlChar(AuthorityEnd(a), ch);
            if IsAuthority(a + [ch]) then s == AuthorityEnd(a + [ch])
            else if ch == '/' then s == Path else if ch == '?' then s == QueryStringStart else s == Dead
  {
    hide IsAuthority;
    AuthorityIff(a, ch);
  }

  lemma AuthorityIff(a: seq<byte>, ch: byte)
    requires IsAuthority(a)
    ensures IsAuthority(a + [ch])
            <==> if ch == '@' then a == [] || a[|a| - 1] != '@' else IsUserinfoChar(ch) || ch == '[' || ch == ']'
  {
    var t := a + [ch];
    assert t[|a|] == ch && forall i | 0 <= i < |a| :: t[i] == a[i];
  }

  lemma AuthorityPrefix(a: seq<byte>, ch: byte)
    requires IsAuthority(a + [ch])
    ensures IsAuthority(a)
  {
    var t := a + [ch];
    forall i | 0 <= i < |a| ensures t[i] == a[i] {
    }
  }

  lemma {:induction false} AuthorityRead(s: State, before: seq<byte>, a: seq<byte>)
    requires IsAuthority(a) && UrlAfter(s, before) == ServerStart
    ensures UrlAfter(s, before + a) == AuthorityEnd(a)
    decreases |a|
  {
    hide UrlAfter, IsAuthority, ParseUrlChar;
    if a == [] {
      assert before + a == before;
    } else {
      var n := |a| - 1;
      assert a == a[..n] + [a[n]] && before + a == (before + a[..n]) + [a[n]];
      AuthorityPrefix(a[..n], a[n]);
      AuthorityRead(s, before, a[..n]);
      AuthorityMore(a[..n], a[n]);
      UrlMore(s, before + a[..n], a[n]);
    }
  }

  lemma SlashesRead(scheme: seq<byte>)
    requires IsScheme(scheme)
    ensures UrlAfter(SpacesBeforeUrl, scheme + SLASHES) == ServerStart
  {
    hide UrlAfter, IsScheme;
    SchemeRead(scheme);
    UrlMore(SpacesBeforeUrl, scheme, ':');
    UrlMore(SpacesBeforeUrl, scheme + [':'], '/');
    UrlMore(SpacesBeforeUrl, scheme + [':'] + ['/'], '/');
    assert scheme + SLASHES == scheme + [':'] + ['/'] + ['/'];
  }

  /** Scheme, authority, and the rest of a URL. */
  predicate Absolute(url: seq<byte>, scheme: seq<byte>, a: seq<byte>, rest: seq<byte>) {
    url == scheme + SLASHES + a + rest && IsScheme(scheme) && IsAuthority(a) && IsRest(rest)
  }

  lemma AbsoluteRead(url: seq<byte>, scheme: seq<byte>, a: seq<byte>, rest: seq<byte>)
    requires Absolute(url, scheme, a, rest) && a + rest != []
    ensures EndsUrl(UrlAfter(SpacesBeforeUrl, url))
  {
    hide UrlAfter, IsScheme, IsAuthority;
    var s, before := SpacesBeforeUrl, scheme + SLASHES;
    SlashesRead(scheme);
    AuthorityRead(s, before, a);
    if rest == [] {
      assert before + a + rest == before + a;
    } else {
      UrlMore(s, before + a, rest[0]);
      PathRead(s, before + a + [rest[0]], rest[1..]);
      assert before + a + rest == (before + a + [rest[0]]) + rest[1..];
      assert forall i | 0 <= i < |rest[1..]| :: rest[1..][i] == rest[i + 1];
    }
  }

  /** The parts of a URL so far, told by the state. */
  predicate Parts(s: State, url: seq<byte>, scheme: seq<byte>, a: seq<byte>, rest: seq<byte>) {
    match s
    case Schema => url == scheme && IsScheme(scheme)
    case SchemaSlash => url == scheme + [':'] && IsScheme(scheme)
    case SchemaSlashSlash => url == scheme + [':', '/'] && IsScheme(scheme)
    case ServerStart | Server | ServerWithAt => Absolute(url, scheme, a, []) && rest == [] && s == AuthorityEnd(a)
    case Path | QueryStringStart | QueryString | FragmentStart | Fragment => Absolute(url, scheme, a, rest)
      && rest != []
    case _ => s == Dead
  }

  lemma {:induction false} PartsOf(url: seq<byte>) returns (scheme: seq<byte>, a: seq<byte>, rest: seq<byte>)
    requires url != [] && IsAlpha(url[0])
    ensures Parts(UrlAfter(SpacesBeforeUrl, url), url, scheme, a, rest)
    decreases |url|
  {
    hide UrlAfter;
    var n := |url| - 1;
    var first, ch := url[..n], url[n];
    assert url == first + [ch];
    UrlMore(SpacesBeforeUrl, first, ch);
    if n == 0 {
      scheme, a, rest := url, [], [];
      OneUrlChar(SpacesBeforeUrl, ch);
      assert url == [ch];
    } else {
      scheme, a, rest := PartsOf(first);
      scheme, a, rest := NextPart(UrlAfter(SpacesBeforeUrl, first), first, scheme, a, rest, ch);
    }
  }

  lemma NextPart(s: State, url: seq<byte>, scheme: seq<byte>, a: seq<byte>, rest: seq<byte>, ch: byte)
    returns (scheme': seq<byte>, a': seq<byte>, rest': seq<byte>)
    requires Parts(s, url, scheme, a, rest)
    ensures Parts(ParseUrlChar(s, ch), url + [ch], scheme', a', rest')
  {
    scheme', a', rest' := scheme, a, rest;
    if s == Dead {
      DeadStays(ch);
    } else if s == Schema || s == SchemaSlash || s == SchemaSlashSlash {
      scheme', a', rest' := NextOfScheme(s, url, scheme, ch);
    } else if InPath(s) {
      PathMore(s, ch);
      rest' := rest + [ch];
      if Visible(ch) { RestMore(url, scheme, a, rest, ch); }
    } else {
      a', rest' := NextOfAuthority(url, scheme, a, ch);
    }
  }

  lemma NextOfScheme(s: State, url: seq<byte>, scheme: seq<byte>, ch: byte)
    returns (scheme': seq<byte>, a': seq<byte>, rest': seq<byte>)
    requires (s == Schema || s == SchemaSlash || s == SchemaSlashSlash) && Parts(s, url, scheme, [], [])
    ensures Parts(ParseUrlChar(s, ch), url + [ch], scheme', a', rest')
  {
    scheme', a', rest' := if s == Schema && IsAlpha(ch) then scheme + [ch] else scheme, [], [];
    assert scheme + [':'] + ['/'] == scheme + [':', '/'];
    assert scheme + [':', '/'] + ['/'] == scheme + SLASHES + [] + [];
  }

  lemma RestMore(url: seq<byte>, scheme: seq<byte>, a: seq<byte>, rest: seq<byte>, ch: byte)
    requires Absolute(url, scheme, a, rest) && rest != [] && Visible(ch)
    ensures Absolute(url + [ch], scheme, a, rest + [ch])
  {
    hide IsScheme, IsAuthority;
    assert url + [ch] == scheme + SLASHES + a + (rest + [ch]);
    assert (rest + [ch])[0] == rest[0];
  }

  lemma NextOfAuthority(url: seq<byte>, scheme: seq<byte>, a: seq<byte>, ch: byte)
    returns (a': seq<byte>, rest': seq<byte>)
    requires Absolute(url, scheme, a, [])
    ensures Parts(ParseUrlChar(AuthorityEnd(a), ch), url + [ch], scheme, a', rest')
  {
    hide IsScheme, IsAuthority, ParseUrlChar;
    AuthorityMore(a, ch);
    var before := scheme + SLASHES;
    assert url == before + a;
    if IsAuthority(a + [ch]) {
      a', rest' := a + [ch], [];
      assert url + [ch] == before + (a + [ch]) + [];
    } else {
      a', rest' := a, [ch];
      assert url + [ch] == before + a + [ch];
    }
  }

  /** The absolute form: a URL that starts with a letter is accepted exactly if it is a
      scheme, `://`, and an authority or a path or query or both. */
  lemma AbsoluteForm(verb: Method, url: seq<byte>)
    requires verb != CONNECT && url != [] && IsAlpha(url[0])
    ensures GoodUrl(verb, url) <==> exists scheme, a, rest :: Absolute(url, scheme, a, rest) && a + rest != []
  {
    hide UrlAfter, Absolute;
    var scheme, a, rest := PartsOf(url);
    if GoodUrl(verb, url) {
      assert Absolute(url, scheme, a, rest) && a + rest != [];
    }
    if scheme', a', rest' :| Absolute(url, scheme', a', rest') && a' + rest' != [] {
      AbsoluteRead(url, scheme', a', rest');
    }
  }

  /** Any other first character is refused. */
  lemma NoOtherForm(verb: Method, url: seq<byte>)
    requires verb != CONNECT && GoodUrl(verb, url)
    ensures url[0] == '/' || url[0] == '*' || IsAlpha(url[0])
  {
    FirstNotDead(SpacesBeforeUrl, url);
  }

  lemma {:induction false} FirstNotDead(s: State, url: seq<byte>)
    requires url != [] && UrlAfter(s, url) != Dead
    ensures ParseUrlChar(s, url[0]) != Dead
    decreases |url|
  {
    hide ParseUrlChar;
    var n := |url| - 1;
    if n == 0 {
      OneUrlChar(s, url[0]);
      assert url == [url[0]];
    } else {
      if UrlAfter(s, url[..n]) == Dead { DeadStays(url[n]); }
      FirstNotDead(s, url[..n]);
    }
  }
}
