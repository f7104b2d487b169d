/** The HTTP request parser as a machine that takes one byte at a time and keeps a log of
    what it delivers, adjacent pieces of one element joined. */
module HttpMachine {
  import opened Bytes
  import opened HttpTables
  import opened HttpTurns

  /** A piece of an element, or a notification with the fields the handler can read then. */
  datatype Event = Text(k: Kind, s: string) | Told(n: Notice, at: Fields)

  type Log = seq<Event>

  /** Joins a piece to the piece of the same element before it. */
  function Emit(log: Log, e: Event): (r: Log)
    ensures r != []
  {
    if e.Text? && log != [] && log[|log| - 1].Text? && log[|log| - 1].k == e.k
    then log[..|log| - 1] + [Text(e.k, log[|log| - 1].s + e.s)]
    else log + [e]
  }

  lemma EmitTwice(log: Log, k: Kind, a: string, b: string)
    ensures Emit(Emit(log, Text(k, a)), Text(k, b)) == Emit(log, Text(k, a + b))
  {
    var once := Emit(log, Text(k, a));
    assert once[..|once| - 1] == if |once| == |log| then log[..|log| - 1] else log;
    if |once| == |log| { assert log[|log| - 1].s + a + b == log[|log| - 1].s + (a + b); }
  }

  predicate EndsIn(log: Log, k: Kind) {
    log != [] && log[|log| - 1].Text? && log[|log| - 1].k == k
  }

  lemma EmitNothing(log: Log, k: Kind)
    requires EndsIn(log, k)
    ensures Emit(log, Text(k, "")) == log
  {
    assert log[|log| - 1].s + "" == log[|log| - 1].s;
  }

  datatype End = Running | Failed(e: Errno) | Crashed | Left

  datatype Machine = Machine(f: Fields, log: Log, end: End, read: nat)

  function Logged(log: Log, f: Fields, act: Act, ch: byte): Log {
    match act
    case Pass => log
    case Flush(_) => log
    case Start(k) => Emit(log, Text(k, [ch]))
    case Keep(k) => Emit(log, Text(k, [ch]))
    case EmptyValue => Emit(log, Text(ValueText, ""))
    case Tell(n) => log + [Told(n, f)]
  }

  /** The visits one byte causes. */
  function Turns(m: Machine, ch: byte): Machine
    decreases Rank(m.f.state)
  {
    RankFalls(m.f, ch);
    match OneTurn(m.f, ch)
    case Fail(e) => m.(end := Failed(e))
    case Broken => m.(end := Crashed)
    case Go(f, act) => Machine(f, Logged(m.log, f, act, ch), m.end, m.read + 1)
    case Again(f, act) => Turns(Machine(f, Logged(m.log, f, act, ch), m.end, m.read), ch)
    case Exit(f, act) => Machine(f, Logged(m.log, f, act, ch), Left, m.read + 1)
  }

  /** The header byte count of a byte. */
  function Counted(f: Fields): Fields {
    if ParsingHeader(f.state) then f.(nread := f.nread + 1) else f
  }

  function OnByte(m: Machine, ch: byte): Machine {
    if ParsingHeader(m.f.state) && m.f.nread + 1 > HTTP_MAX_HEADER_SIZE then m.(end := Failed(HEADER_OVERFLOW))
    else Turns(m.(f := Counted(m.f)), ch)
  }

  function Run(m: Machine, data: seq<byte>): Machine
    decreases |data|
  {
    if data == [] || m.end != Running then m else Run(OnByte(m, data[0]), data[1..])
  }

  lemma RunZero(m: Machine)
    ensures Run(m, []) == m
  {
  }

  /** The machine cannot tell where a stream was cut. */
  lemma {:induction false} RunSplit(m: Machine, a: seq<byte>, b: seq<byte>)
    ensures Run(m, a + b) == Run(Run(m, a), b)
    decreases |a|
  {
    hide OnByte;
    if a == [] {
      assert a + b == b;
    } else if m.end == Running {
      assert (a + b)[1..] == a[1..] + b;
      RunSplit(OnByte(m, a[0]), a[1..], b);
    }
  }

  lemma RunByte(m: Machine, ch: byte)
    requires m.end == Running
    ensures Run(m, [ch]) == OnByte(m, ch)
  {
    hide OnByte;
    assert [ch][1..] == [];
    RunZero(OnByte(m, ch));
  }

  lemma RunFirst(m: Machine, s: seq<byte>)
    requires m.end == Running && s != []
    ensures Run(m, s) == Run(OnByte(m, s[0]), s[1..])
  {
  }

  lemma RunTwo(m: Machine, a: byte, b: byte)
    requires m.end == Running && OnByte(m, a).end == Running
    ensures Run(m, [a, b]) == OnByte(OnByte(m, a), b)
  {
    hide OnByte;
    assert [a, b][1..] == [b] && [b][1..] == [];
    RunZero(OnByte(OnByte(m, a), b));
  }

  lemma RunThen(m: Machine, a: seq<byte>, ch: byte)
    ensures Run(m, a + [ch]) == if Run(m, a).end == Running then OnByte(Run(m, a), ch) else Run(m, a)
  {
    hide OnByte;
    RunSplit(m, a, [ch]);
    assert [ch][1..] == [];
    RunZero(OnByte(Run(m, a), ch));
  }

  lemma RunOne(m: Machine, data: seq<byte>, p: nat)
    requires p < |data| && Run(m, data[..p]).end == Running
    ensures Run(m, data[..p + 1]) == OnByte(Run(m, data[..p]), data[p])
  {
    hide OnByte;
    assert data[..p + 1] == data[..p] + [data[p]];
    RunSplit(m, data[..p], [data[p]]);
    assert [data[p]][1..] == [];
  }

  lemma RunStops(m: Machine, data: seq<byte>, p: nat)
    requires p <= |data| && Run(m, data[..p]).end != Running
    ensures Run(m, data) == Run(m, data[..p])
  {
    assert data == data[..p] + data[p..];
    RunSplit(m, data[..p], data[p..]);
  }

  // ---------- what holds between bytes ----------

  datatype Element = NoElement | Element(k: Kind)

  /** The element that is being read at a state. */
  function ElementOf(s: State): Element {
    match s
    case Schema | SchemaSlash | SchemaSlashSlash | ServerStart | Server | ServerWithAt
       | Path | QueryStringStart | QueryString | FragmentStart | Fragment => Element(UrlText)
    case Field => Element(FieldText)
    case Value => Element(ValueText)
    case BodyIdentity | ChunkData | ChunkDataAlmostDone => Element(BodyText)
    case _ => NoElement
  }

  predicate HeaderOk(f: Fields) {
    && (f.state == Field ==> match f.header
                             case Matching(w) => IsFieldWord(w)
                             case Matched(w) => IsFieldWord(w)
                             case _ => true)
    && (f.state == Value ==> match f.header
                             case Matching(w) => IsValueWord(w)
                             case Matched(w) => IsValueWord(w) || (w == ContentLength && f.contentLength < ULLONG_MAX)
                             case _ => f.header == General)
  }

  predicate ChunkOk(f: Fields, nread: nat) {
    && (f.state == ChunkSizeStart ==> f.flags.chunked && f.nread == nread)
    && (f.state == ChunkSize || f.state == ChunkParameters || f.state == ChunkSizeAlmostDone ==>
          f.flags.chunked && f.contentLength < ULLONG_MAX)
    && (f.state == ChunkData ==> f.flags.chunked && 0 < f.contentLength < ULLONG_MAX)
    && (f.state == ChunkDataAlmostDone ==> f.flags.chunked && f.contentLength == 0)
    && (f.state == ChunkDataDone ==> f.flags.chunked)
    && (f.state == BodyIdentity ==> 0 < f.contentLength < ULLONG_MAX)
  }

  predicate MethodOk(f: Fields) {
    f.state == ReqMethod ==> 0 < f.index <= |MethodName(f.verb)|
  }

  /** With nread 0 this holds between bytes, with nread 1 when a byte has been counted. */
  predicate FieldsOk(f: Fields, nread: nat) {
    f.contentLength <= ULLONG_MAX && HeaderOk(f) && ChunkOk(f, nread) && MethodOk(f)
  }

  /** A URL, name or value that is being read has its first piece in the log. */
  predicate LogOk(s: State, log: Log) {
    ElementOf(s).Element? && ElementOf(s).k != BodyText ==> EndsIn(log, ElementOf(s).k)
  }
}
