/** Header names: the parser recognises exactly the five names it acts on, in any case.

    The matcher goes through states that several names share (`co`, `con`), and through an
    index into one name afterwards; NameState says which letters each of them stands for. */
module HttpNames {
  import opened Bytes
  import opened HttpTables
  import opened HttpTurns
  import opened HttpMachine
  import opened HttpInvariant

  /** The lower-case form of a token. */
  function Lowered(name: seq<byte>): (s: string)
    ensures |s| == |name|
  {
    if name == [] then "" else Lowered(name[..|name| - 1]) + [Token(name[|name| - 1])]
  }

  predicate IsToken(name: seq<byte>) {
    name != [] && forall i | 0 <= i < |name| :: Token(name[i]) != '\0'
  }

  /** The state that a word leads to when its first n letters have been read. */
  function Reading(w: Word, n: nat): HeaderState {
    if n == |Spelling(w)| then Matched(if w == ProxyConnection then Connection else w)
    else if (w == Connection || w == ContentLength) && n <= 3 then (if n == 1 then C else if n == 2 then CO else CON)
    else Matching(w)
  }

  /** The letters are the first ones of a word. */
  predicate Begins(s: string, w: Word) {
    0 < |s| <= |Spelling(w)| && s == Spelling(w)[..|s|]
  }

  /** After some letters of a name: the state of the word they begin, if they begin one. */
  ghost predicate NameState(s: string, h: HeaderState) {
    && (forall w | IsFieldWord(w) && Begins(s, w) :: h == Reading(w, |s|))
    && (h != General ==> exists w :: IsFieldWord(w) && Begins(s, w))
  }

  lemma FirstNameLetter(c: char)
    ensures NameState([c], if c == 'c' then C else if c == 'p' then Matching(ProxyConnection)
                           else if c == 't' then Matching(TransferEncoding) else if c == 'u' then Matching(Upgrade)
                             else General)
  {
    Initials();
    forall w | IsFieldWord(w) ensures Begins([c], w) <==> Spelling(w)[0] == c {
      assert Spelling(w)[..1] == [Spelling(w)[0]];
    }
    if c == 'c' { assert Begins([c], Connection); }
    if c == 'p' { assert Begins([c], ProxyConnection); }
    if c == 't' { assert Begins([c], TransferEncoding); }
    if c == 'u' { assert Begins([c], Upgrade); }
  }

  lemma Initials()
    ensures forall w :: |Spelling(w)| > 4
    ensures Spelling(Connection)[0] == 'c' && Spelling(ContentLength)[0] == 'c' && Spelling(ProxyConnection)[0] == 'p'
    ensures Spelling(TransferEncoding)[0] == 't' && Spelling(Upgrade)[0] == 'u'
  {
  }

  /** What the next letter makes of a state; the index counts the letters before it, less one. */
  function NextState(h: HeaderState, index: nat, c: char): HeaderState {
    match h
    case C => if c == 'o' then CO else General
    case CO => if c == 'n' then CON else General
    case CON => if c == 'n' then Matching(Connection) else if c == 't' then Matching(ContentLength) else General
    case Matching(w) => MatchWord(w, index, c)
    case _ => General
  }

  lemma Letters()
    ensures Spelling(Connection)[..4] == "conn" && Spelling(ContentLength)[..4] == "cont"
  {
  }

  lemma BeginsMore(s: string, c: char, w: Word)
    requires s != ""
    ensures Begins(s + [c], w) <==> Begins(s, w) && |s| < |Spelling(w)| && Spelling(w)[|s|] == c
  {
    hide Spelling;
    var name := Spelling(w);
    if |s| < |name| {
      assert name[..|s| + 1] == name[..|s|] + [name[|s|]];
      if s + [c] == name[..|s| + 1] { assert s == (s + [c])[..|s|] && (s + [c])[|s|] == c; }
    }
  }

  lemma NameStep(s: string, h: HeaderState, c: char)
    requires s != "" && NameState(s, h) && c != '\0'
    ensures NameState(s + [c], NextState(h, |s| - 1, c))
  {
    hide Spelling, Begins;
    Initials();
    forall w ensures Begins(s + [c], w) <==> Begins(s, w) && |s| < |Spelling(w)| && Spelling(w)[|s|] == c {
      BeginsMore(s, c, w);
    }
    forall w | Begins(s, w) ensures |s| <= |Spelling(w)| { BeginsLength(s, w); }
    if h == C || h == CO || h == CON { EarlyStep(s, h, c); }
  }

  lemma BeginsLength(s: string, w: Word)
    requires Begins(s, w)
    ensures |s| <= |Spelling(w)|
  {
  }

  /** The letters that the words with 'c' share. */
  lemma EarlyStep(s: string, h: HeaderState, c: char)
    requires s != "" && NameState(s, h) && (h == C || h == CO || h == CON)
    ensures |s| == (if h == C then 1 else if h == CO then 2 else 3) && Begins(s, Connection) && Begins(s, ContentLength)
    ensures Spelling(Connection)[1] == Spelling(ContentLength)[1] == 'o'
    ensures Spelling(Connection)[2] == Spelling(ContentLength)[2] == 'n'
    ensures Spelling(Connection)[3] == 'n' && Spelling(ContentLength)[3] == 't'
  {
    hide Spelling;
    Initials();
    Letters();
    var w :| IsFieldWord(w) && Begins(s, w);
    var a, b := Spelling(Connection), Spelling(ContentLength);
    assert a[..4][..|s|] == a[..|s|] && b[..4][..|s|] == b[..|s|];
    assert "conn"[..|s|] == "cont"[..|s|];
    assert a[1] == a[..4][1] && a[2] == a[..4][2] && a[3] == a[..4][3];
    assert b[1] == b[..4][1] && b[2] == b[..4][2] && b[3] == b[..4][3];
  }

  /** The parser inside a name, after some letters. */
  ghost predicate InName(f: Fields, s: string) {
    f.state == Field && s != "" && NameState(s, f.header) && (f.header != General ==> f.index == |s| - 1)
  }

  lemma NameStarts(m: Machine, ch: byte)
    requires m.end == Running && m.f.state == FieldStart && Token(ch) != '\0' && m.f.nread < HTTP_MAX_HEADER_SIZE
    ensures var r := OnByte(m, ch);
            && InName(r.f, [Token(ch)])
            && r == Machine(m.f.(nread := m.f.nread + 1, state := Field, header := r.f.header, index := 0),
                            Emit(m.log, Text(FieldText, [ch])), Running, m.read + 1)
  {
    hide Emit, NameState, Token;
    TokenIsVisible(ch);
    FirstNameLetter(Token(ch));
  }

  lemma TokenIsVisible(ch: byte)
    ensures Token(ch) != '\0' ==> '!' <= ch <= '~' && ch != ':'
  {
  }

  lemma NameContinues(m: Machine, s: string, ch: byte)
    requires m.end == Running && InName(m.f, s) && FieldsOk(m.f, 0) && Token(ch) != '\0'
             && m.f.nread < HTTP_MAX_HEADER_SIZE
    ensures var r := OnByte(m, ch);
            && InName(r.f, s + [Token(ch)])
            && r == Machine(m.f.(nread := m.f.nread + 1, header := r.f.header, index := r.f.index),
                            Emit(m.log, Text(FieldText, [ch])), Running, m.read + 1)
  {
    hide Emit, NameState, Token, MatchWord, ChunkOk, MethodOk;
    TokenIsVisible(ch);
    NameStep(s, m.f.header, Token(ch));
  }

  /** What reading a name does. */
  ghost predicate AfterName(m: Machine, name: seq<byte>, r: Machine) {
    && InName(r.f, Lowered(name)) && MachineOk(r, 0)
    && r == Machine(m.f.(nread := m.f.nread + |name|, state := Field, header := r.f.header, index := r.f.index),
                    Emit(m.log, Text(FieldText, name)), Running, m.read + |name|)
  }

  lemma AfterFirst(m: Machine, ch: byte)
    requires m.end == Running && m.f.state == FieldStart && MachineOk(m, 0) && Token(ch) != '\0'
    requires m.f.nread < HTTP_MAX_HEADER_SIZE
    ensures AfterName(m, [ch], OnByte(m, ch))
  {
    hide OnByte, Emit, InName, Token, FieldsOk, LogOk;
    NameStarts(m, ch);
    LoweredOne(ch);
    OnByteOk(m, ch);
  }

  lemma AfterNext(m: Machine, name: seq<byte>, r: Machine, ch: byte)
    requires name != [] && AfterName(m, name, r) && Token(ch) != '\0' && r.f.nread < HTTP_MAX_HEADER_SIZE
    ensures AfterName(m, name + [ch], OnByte(r, ch))
  {
    hide OnByte, Emit, InName, Token, FieldsOk, LogOk;
    NameContinues(r, Lowered(name), ch);
    OnByteOk(r, ch);
    EmitTwice(m.log, FieldText, name, [ch]);
    assert (name + [ch])[..|name|] == name;
  }

  lemma {:induction false} NameRead(m: Machine, name: seq<byte>)
    requires m.end == Running && m.f.state == FieldStart && MachineOk(m, 0) && IsToken(name)
    requires m.f.nread + |name| <= HTTP_MAX_HEADER_SIZE
    ensures AfterName(m, name, Run(m, name))
    decreases |name|
  {
    hide OnByte, Token, Run, MachineOk, AfterName;
    var n := |name| - 1;
    var last := name[n];
    assert name[..n] + [last] == name && name[..n + 1] == name;
    if n == 0 {
      RunZero(m);
      assert name[..0] == [] && name == [last];
      AfterFirst(m, last);
    } else {
      NameRead(m, name[..n]);
      NameCounts(m, name[..n], Run(m, name[..n]));
      AfterNext(m, name[..n], Run(m, name[..n]), last);
    }
    RunOne(m, name, n);
  }

  lemma NameCounts(m: Machine, name: seq<byte>, r: Machine)
    requires AfterName(m, name, r)
    ensures r.end == Running && r.f.nread == m.f.nread + |name|
  {
  }

  lemma LoweredOne(c: byte)
    ensures Lowered([c]) == [Token(c)]
  {
    assert [c][..0] == [];
  }

  /** A header name is recognised exactly if it is, in any case, one of the five words. */
  lemma NameRecognised(m: Machine, name: seq<byte>)
    requires m.end == Running && m.f.state == FieldStart && MachineOk(m, 0) && IsToken(name)
    requires m.f.nread + |name| <= HTTP_MAX_HEADER_SIZE
    ensures var h := Run(m, name).f.header;
            && (forall w | IsFieldWord(w) && Lowered(name) == Spelling(w) ::
                h == Matched(if w == ProxyConnection then Connection else w))
            && (h.Matched? ==> exists w :: IsFieldWord(w) && Lowered(name) == Spelling(w)
                                 && h == Matched(if w == ProxyConnection then Connection else w))
  {
    hide Run, Spelling, MachineOk;
    NameRead(m, name);
    var s, h := Lowered(name), Run(m, name).f.header;
    forall w | IsFieldWord(w) && s == Spelling(w) ensures h == Matched(if w == ProxyConnection then Connection else w) {
      assert Spelling(w)[..|s|] == s;
      assert Begins(s, w);
    }
    if h.Matched? {
      var w :| IsFieldWord(w) && Begins(s, w);
      assert Spelling(w)[..|s|] == Spelling(w);
    }
  }
}
