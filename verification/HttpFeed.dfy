/** A connection feeds the parser whatever the network delivers; the pieces do not matter.

    Splitting a run is RunSplit of module HttpMachine; what is added here is the byte count,
    which only shifts, and that an error is met inside the piece that holds the offending
    byte, so that `feed` returns false there and nowhere else. */
module HttpFeed {
  import opened Bytes
  import opened HttpTurns
  import opened HttpMachine
  import opened HttpInvariant
  import opened HttpBuilder
  import opened HttpParsing

  function Flatten(pieces: seq<seq<byte>>): seq<byte> {
    if pieces == [] then [] else pieces[0] + Flatten(pieces[1..])
  }

  lemma FlattenTake(pieces: seq<seq<byte>>, k: nat)
    requires k < |pieces|
    ensures Flatten(pieces[..k + 1]) == Flatten(pieces[..k]) + pieces[k]
  {
    if k == 0 {
      assert pieces[..1] == [pieces[0]] && pieces[..0] == [] && pieces[..1][1..] == [];
    } else {
      FlattenTake(pieces[1..], k - 1);
      Regroup(pieces[0], Flatten(pieces[1..][..k - 1]), pieces[k]);
      assert pieces[..k + 1][1..] == pieces[1..][..k] && pieces[..k][1..] == pieces[1..][..k - 1];
    }
  }

  /** The byte count is only carried along. */
  lemma {:induction false} TurnsShift(m: Machine, ch: byte, off: nat)
    ensures Turns(m.(read := m.read + off), ch) == Turns(m, ch).(read := Turns(m, ch).read + off)
    decreases Rank(m.f.state)
  {
    hide OneTurn, Logged, Rank;
    RankFalls(m.f, ch);
    var t := OneTurn(m.f, ch);
    if t.Again? { TurnsShift(Machine(t.f, Logged(m.log, t.f, t.act, ch), m.end, m.read), ch, off); }
  }

  lemma {:induction false} RunShift(m: Machine, data: seq<byte>, off: nat)
    ensures Run(m.(read := m.read + off), data) == Run(m, data).(read := Run(m, data).read + off)
    decreases |data|
  {
    hide Turns;
    if data != [] && m.end == Running {
      TurnsShift(m.(f := Counted(m.f)), data[0], off);
      RunShift(OnByte(m, data[0]), data[1..], off);
    }
  }

  lemma {:induction false} RunCounts(m: Machine, data: seq<byte>)
    requires m.end == Running
    ensures Run(m, data).end == Running ==> Run(m, data).read == m.read + |data|
    ensures m.read <= Run(m, data).read
    decreases |data|
  {
    hide Turns;
    if data != [] {
      TurnsCount(m.(f := Counted(m.f)), data[0]);
      if OnByte(m, data[0]).end == Running { RunCounts(OnByte(m, data[0]), data[1..]); }
    }
  }

  lemma {:induction false} TurnsCount(m: Machine, ch: byte)
    ensures m.read <= Turns(m, ch).read
    ensures m.end == Running && Turns(m, ch).end == Running ==> Turns(m, ch).read == m.read + 1
    decreases Rank(m.f.state)
  {
    hide OneTurn, Logged, Rank;
    RankFalls(m.f, ch);
    var t := OneTurn(m.f, ch);
    if t.Again? { TurnsCount(Machine(t.f, Logged(m.log, t.f, t.act, ch), m.end, m.read), ch); }
  }

  /** `feed`: false on an error. */
  method Feed(parser: HttpParser, buffer: seq<byte>) returns (ok: bool, n: nat)
    requires parser.Valid() && parser.errno == OK && buffer != []
    modifies parser
    ensures parser.Valid()
    ensures var m := Run(Machine(old(parser.f), old(parser.log), Running, 0), buffer);
            parser.Ends(m, n) && (m.end == Running ==> ok) && (m.end.Failed? ==> !ok)
  {
    hide Run;
    ghost var m0 := Machine(parser.f, parser.log, Running, 0);
    RunCounts(m0, buffer);
    RunFailsInside(m0, buffer);
    n := parser.Execute(buffer);
    ok := n == |buffer|;
  }

  lemma {:induction false} RunFailsInside(m: Machine, data: seq<byte>)
    requires m.end == Running
    ensures Run(m, data).end.Failed? ==> Run(m, data).read < m.read + |data|
    decreases |data|
  {
    hide Turns;
    if data != [] {
      TurnsFail(m.(f := Counted(m.f)), data[0]);
      TurnsCount(m.(f := Counted(m.f)), data[0]);
      if OnByte(m, data[0]).end == Running { RunFailsInside(OnByte(m, data[0]), data[1..]); }
    }
  }

  lemma {:induction false} TurnsFail(m: Machine, ch: byte)
    requires m.end == Running
    ensures Turns(m, ch).end.Failed? ==> Turns(m, ch).read == m.read
    decreases Rank(m.f.state)
  {
    hide OneTurn, Logged, Rank;
    RankFalls(m.f, ch);
    var t := OneTurn(m.f, ch);
    if t.Again? { TurnsFail(Machine(t.f, Logged(m.log, t.f, t.act, ch), m.end, m.read), ch); }
  }

  /** Feeds the pieces of a stream until one is refused. However the stream is cut, the
      fields, the log and all that the request builder holds are those of the whole
      stream, and an error is met at the same byte. */
  method FeedAll(parser: HttpParser, pieces: seq<seq<byte>>) returns (ok: bool, total: nat)
    requires parser.Valid() && parser.errno == OK && forall i | 0 <= i < |pieces| :: pieces[i] != []
    modifies parser
    ensures parser.Valid()
    ensures var m := Run(Machine(old(parser.f), old(parser.log), Running, 0), Flatten(pieces));
            match m.end
            case Running =>
              && ok && parser.errno == OK && total == |Flatten(pieces)|
              && parser.f == m.f && parser.log == m.log && parser.View() == Build(m.log)
            case Failed(e) => !ok && parser.errno == e && total == m.read
            case Left => true
            case Crashed => false
  {
    hide Run, Build;
    ghost var m0 := Machine(parser.f, parser.log, Running, 0);
    RunOk(m0, Flatten(pieces));
    ok, total := true, 0;
    var k := 0;
    assert pieces[..0] == [] && Run(m0, []) == m0 by { RunZero(m0); }
    while k < |pieces| && ok
      invariant k <= |pieces| && parser.Valid()
      invariant var m := Run(m0, Flatten(pieces[..k]));
                || m.end == Left
                || (ok && m == Machine(parser.f, parser.log, Running, total) && parser.errno == OK)
                || (!ok && m.end == Failed(parser.errno) && total == m.read)
    {
      ghost var before := Machine(parser.f, parser.log, Running, 0);
      ghost var far := Run(m0, Flatten(pieces[..k]));
      FlattenTake(pieces, k);
      RunSplit(m0, Flatten(pieces[..k]), pieces[k]);
      RunShift(before, pieces[k], total);
      if parser.errno == OK {
        var n;
        ok, n := Feed(parser, pieces[k]);
        total := total + n;
      } else {
        ok := false;
      }
      k := k + 1;
      LeftStays(far, pieces[k - 1]);
    }
    assert pieces[..|pieces|] == pieces;
    FlattenSplit(pieces, k);
    RunSplit(m0, Flatten(pieces[..k]), Flatten(pieces[k..]));
    LeftStays(Run(m0, Flatten(pieces[..k])), Flatten(pieces[k..]));
    RunCounts(m0, Flatten(pieces));
  }

  lemma LeftStays(m: Machine, data: seq<byte>)
    ensures m.end != Running ==> Run(m, data) == m
  {
  }

  lemma Regroup(a: seq<byte>, b: seq<byte>, c: seq<byte>)
    ensures a + (b + c) == a + b + c
  {
  }

  lemma FlattenSplit(pieces: seq<seq<byte>>, k: nat)
    requires k <= |pieces|
    ensures Flatten(pieces) == Flatten(pieces[..k]) + Flatten(pieces[k..])
  {
    if k == 0 {
      assert pieces[..0] == [] && pieces[0..] == pieces;
    } else {
      FlattenSplit(pieces[1..], k - 1);
      Regroup(pieces[0], Flatten(pieces[1..][..k - 1]), Flatten(pieces[1..][k - 1..]));
      assert pieces[..k][1..] == pieces[1..][..k - 1] && pieces[k..] == pieces[1..][k - 1..];
    }
  }
}
