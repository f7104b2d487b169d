/** Header values: "chunked", "keep-alive" and "close" are recognised exactly, in any case
    and with spaces after them. */
module HttpValues {
  import opened Bytes
  import opened HttpTables
  import opened HttpTurns
  import opened HttpMachine

  predicate IsValueByte(c: byte) {
    c != CR && c != LF
  }

  /** A value as it stands on its line. */
  predicate IsValue(v: seq<byte>) {
    v != [] && v[0] != ' ' && v[0] != '\t' && forall i | 0 <= i < |v| :: IsValueByte(v[i])
  }

  /** The values a recognised name is about. */
  predicate About(name: Word, w: Word) {
    (name == TransferEncoding && w == Chunked) || (name == Connection && (w == KeepAlive || w == Close))
  }

  /** The value is the word, with nothing after it but spaces. */
  predicate Says(v: seq<byte>, w: Word) {
    && |v| >= |Spelling(w)| && (forall i | 0 <= i < |Spelling(w)| :: Lower(v[i]) == Spelling(w)[i])
    && forall i | |Spelling(w)| <= i < |v| :: v[i] == ' '
  }

  /** The value so far is a proper beginning of the word. */
  predicate Starts(v: seq<byte>, w: Word) {
    0 < |v| < |Spelling(w)| && forall i | 0 <= i < |v| :: Lower(v[i]) == Spelling(w)[i]
  }

  predicate ValueState(name: Word, v: seq<byte>, h: HeaderState) {
    && (h == General || (h.Matching? && About(name, h.w)) || (h.Matched? && About(name, h.w)))
    && (forall w | About(name, w) :: (h == Matched(w) <==> Says(v, w)) && (h == Matching(w) <==> Starts(v, w)))
  }

  lemma Words()
    ensures forall w | IsValueWord(w) :: |Spelling(w)| > 1
    ensures Spelling(Chunked)[0] == 'c' && Spelling(KeepAlive)[0] == 'k' && Spelling(Close)[0] == 'c'
  {
  }

  lemma FirstValueLetter(name: Word, ch: byte)
    requires name == TransferEncoding || name == Connection
    ensures ValueState(name, [ch],
                       if name == TransferEncoding then (if Lower(ch) == 'c' then Matching(Chunked) else General)
                       else if Lower(ch) == 'k' then Matching(KeepAlive) else if Lower(ch) == 'c' then Matching(Close)
                         else General)
  {
    hide Spelling, Lower;
    Words();
  }

  /** The next header state within a value. */
  function NextValue(h: HeaderState, index: nat, ch: byte): HeaderState {
    match h
    case Matching(w) => MatchWord(w, index, Lower(ch))
    case Matched(_) => if ch == ' ' then h else General
    case _ => General
  }

  lemma ValueStep(name: Word, v: seq<byte>, h: HeaderState, ch: byte)
    requires v != [] && ValueState(name, v, h)
    ensures ValueState(name, v + [ch], NextValue(h, |v| - 1, ch))
  {
    hide Spelling, Lower;
    Words();
    LowerIsNotNul(ch);
    forall w | About(name, w)
      ensures Says(v + [ch], w) <==>
              (Says(v, w) && ch == ' ') || (Starts(v, w) && |v| + 1 == |Spelling(w)| && Lower(ch) == Spelling(w)[|v|])
      ensures Starts(v + [ch], w) <==> Starts(v, w) && |v| + 1 < |Spelling(w)| && Lower(ch) == Spelling(w)[|v|]
    {
      ValueMore(v, w, ch);
    }
    if Starts(v, KeepAlive) || Says(v, KeepAlive) { NotBoth(v); }
  }

  lemma LowerIsNotNul(ch: byte)
    ensures Lower(ch) != '\0'
  {
  }

  lemma ValueMore(v: seq<byte>, w: Word, ch: byte)
    requires v != [] && IsValueWord(w)
    ensures Says(v + [ch], w) <==>
            (Says(v, w) && ch == ' ') || (Starts(v, w) && |v| + 1 == |Spelling(w)| && Lower(ch) == Spelling(w)[|v|])
    ensures Starts(v + [ch], w) <==> Starts(v, w) && |v| + 1 < |Spelling(w)| && Lower(ch) == Spelling(w)[|v|]
  {
    hide Spelling, Lower;
    var x := v + [ch];
    assert forall i | 0 <= i < |v| :: x[i] == v[i];
    if Says(x, w) && |v| >= |Spelling(w)| { assert x[|v|] == ' '; }
  }

  lemma NotBoth(v: seq<byte>)
    requires v != [] && (Starts(v, KeepAlive) || Says(v, KeepAlive))
    ensures !Starts(v, Close) && !Says(v, Close)
  {
    hide Spelling, Lower;
    Words();
    assert Lower(v[0]) == Spelling(KeepAlive)[0];
  }

  /** The parser inside a value of a recognised name. */
  predicate InValue(f: Fields, name: Word, v: seq<byte>) {
    f.state == Value && v != [] && ValueState(name, v, f.header) && (f.header.Matching? ==> f.index == |v| - 1)
  }

  lemma ValueStarts(m: Machine, name: Word, ch: byte)
    requires m.end == Running && m.f.state == DiscardWs && m.f.header == Matched(name)
             && m.f.nread < HTTP_MAX_HEADER_SIZE
    requires (name == TransferEncoding || name == Connection) && ch != ' ' && ch != '\t' && ch != CR && ch != LF
    ensures var r := OnByte(m, ch);
            && InValue(r.f, name, [ch])
            && r == Machine(m.f.(nread := m.f.nread + 1, state := Value, header := r.f.header, index := 0),
                            Emit(m.log, Text(ValueText, [ch])), Running, m.read + 1)
  {
    hide Emit, Lower, ValueState, TurnStart, TurnMethod, TurnUrl, TurnVersion, TurnHeadersEnd, TurnData, TurnChunk;
    FirstValueLetter(name, ch);
  }

  lemma ValueContinues(m: Machine, name: Word, v: seq<byte>, ch: byte)
    requires m.end == Running && InValue(m.f, name, v) && ch != CR && ch != LF && m.f.nread < HTTP_MAX_HEADER_SIZE
    ensures var r := OnByte(m, ch);
            && InValue(r.f, name, v + [ch])
            && r == Machine(m.f.(nread := m.f.nread + 1, header := r.f.header, index := r.f.index),
                            Emit(m.log, Text(ValueText, [ch])), Running, m.read + 1)
  {
    hide Emit, Lower, MatchWord, Says, Starts;
    ValueStep(name, v, m.f.header, ch);
    MatchedStays(m.f.header, |v| - 1, ch);
  }

  lemma MatchedStays(h: HeaderState, index: nat, ch: byte)
    ensures h.Matching? ==> NextValue(h, index, ch) == MatchWord(h.w, index, Lower(ch))
  {
  }

  lemma {:induction false} ValueRecognised(m: Machine, name: Word, v: seq<byte>)
    requires m.end == Running && m.f.state == DiscardWs && m.f.header == Matched(name) && IsValue(v)
    requires (name == TransferEncoding || name == Connection) && m.f.nread + |v| <= HTTP_MAX_HEADER_SIZE
    ensures var r := Run(m, v);
            && InValue(r.f, name, v)
            && r == Machine(m.f.(nread := m.f.nread + |v|, state := Value, header := r.f.header, index := r.f.index),
                            Emit(m.log, Text(ValueText, v)), Running, m.read + |v|)
    decreases |v|
  {
    hide OnByte, Emit, Run, ValueState;
    var n := |v| - 1;
    assert IsValueByte(v[n]);
    assert v[..n] + [v[n]] == v && v[..n + 1] == v;
    if n == 0 {
      RunZero(m);
      assert v[..0] == [] && v == [v[0]];
      ValueStarts(m, name, v[0]);
    } else {
      ValueRecognised(m, name, v[..n]);
      ValueContinues(Run(m, v[..n]), name, v[..n], v[n]);
      EmitTwice(m.log, ValueText, v[..n], [v[n]]);
    }
    RunOne(m, v, n);
  }
}
