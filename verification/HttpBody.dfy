/** Message bodies: a stretch of body bytes is taken at once.

    The parser reads min(length, what is there) bytes of a body or chunk in one step. RunData
    says that this is what the byte machine does with each of them, up to and including the
    last byte, which completes the message or the chunk. */
module HttpBody {
  import opened Bytes
  import opened HttpTables
  import opened HttpTurns
  import opened HttpMachine

  /** What a stretch of body bytes does at once, up to the end of the body or chunk. */
  function AfterData(m: Machine, d: seq<byte>): Machine
    requires |d| <= m.f.contentLength
  {
    var g := m.f.(contentLength := m.f.contentLength - |d|);
    var log := Emit(m.log, Text(BodyText, d));
    if g.contentLength > 0 then Machine(g, log, m.end, m.read + |d|)
    else if g.state == ChunkData then Machine(g.(state := ChunkDataAlmostDone), log, m.end, m.read + |d|)
    else
      var h := g.(state := NewMessage(g.(state := MessageDone)));
      Machine(h, log + [Told(MessageComplete, h)], m.end, m.read + |d|)
  }

  predicate TakesData(f: Fields) {
    0 < f.contentLength < ULLONG_MAX && (f.state == BodyIdentity || (f.state == ChunkData && f.flags.chunked))
  }

  lemma DataGoesOn(m: Machine, d: seq<byte>)
    requires |d| < m.f.contentLength
    ensures AfterData(m, d) == Machine(m.f.(contentLength := m.f.contentLength - |d|), Emit(m.log, Text(BodyText, d)),
                                       m.end, m.read + |d|)
  {
  }

  lemma DataEnds(m: Machine, d: seq<byte>)
    requires |d| == m.f.contentLength
    ensures var next := if m.f.state == ChunkData then ChunkDataAlmostDone else MessageDone;
            var g := m.f.(contentLength := 0, state := next);
            var log := Emit(m.log, Text(BodyText, d));
            var h := g.(state := NewMessage(g));
            AfterData(m, d) == if m.f.state == ChunkData then Machine(g, log, m.end, m.read + |d|)
                               else Machine(h, log + [Told(MessageComplete, h)], m.end, m.read + |d|)
  {
  }

  lemma OneDataByte(m: Machine, ch: byte)
    requires m.end == Running && TakesData(m.f)
    ensures OnByte(m, ch) == AfterData(m, [ch])
  {
    hide Emit, NewMessage;
    var t := OneTurn(m.f, ch);
    if t.Again? {
      MessageDoneTurn(Machine(t.f, Emit(m.log, Text(BodyText, [ch])), m.end, m.read), ch);
    }
  }

  lemma MessageDoneTurn(m: Machine, ch: byte)
    requires m.f.state == MessageDone
    ensures var h := m.f.(state := NewMessage(m.f));
            Turns(m, ch) == Machine(h, m.log + [Told(MessageComplete, h)], m.end, m.read + 1)
  {
  }

  /** The bytes of a body reach the log as they are, and the last one completes it. */
  lemma {:induction false} RunData(m: Machine, d: seq<byte>)
    requires m.end == Running && TakesData(m.f) && 0 < |d| <= m.f.contentLength
    ensures Run(m, d) == AfterData(m, d)
    decreases |d|
  {
    hide OnByte, Emit, NewMessage;
    OneDataByte(m, d[0]);
    var next := OnByte(m, d[0]);
    if |d| == 1 {
      assert d[1..] == [] && d == [d[0]];
    } else {
      RunData(next, d[1..]);
      EmitTwice(m.log, BodyText, [d[0]], d[1..]);
      assert [d[0]] + d[1..] == d;
    }
  }
}
