/** Replies decoded by recursive descent over a whole byte string, and the proof that
    the one-byte machine decodes the same. */
module RespDecode {
  import opened Resp

  datatype Decoded = Got(v: Value, used: nat) | Partial | Bad(used: nat)

  function Later(d: Decoded, k: nat): Decoded {
    match d
    case Got(v, used) => Got(v, used + k)
    case Partial => Partial
    case Bad(used) => Bad(used + k)
  }

  /** The length of the longest prefix of bytes that a line of this kind may hold. */
  function LineRun(k: LineKind, input: seq<octet>): (n: nat)
    ensures n <= |input|
    ensures n < |input| ==> input[n] == CR || !Accepts(k, input[n])
  {
    if input == [] || input[0] == CR || !Accepts(k, input[0]) then 0 else 1 + LineRun(k, input[1..])
  }

  /** The body of a bulk reply: n bytes of any kind and a line end. */
  function DecodeBody(n: nat, input: seq<octet>): Decoded {
    if |input| <= n then Partial
    else if input[n] != CR then Bad(n + 1)
    else if |input| == n + 1 then Partial
    else if input[n + 1] != LF then Bad(n + 2)
    else Got(Bytes(input[..n]), n + 2)
  }

  /** One reply at the start of the input. */
  function Decode(input: seq<octet>): (d: Decoded)
    ensures d.Got? ==> 0 < d.used <= |input|
    decreases |input|, 0
  {
    if input == [] then Partial
    else if KindOf(input[0]) == [] then Bad(1)
    else
      var k, line := KindOf(input[0])[0], input[1..];
      var n := LineRun(k, line);
      Later(DecodeLineEnd(k, line[..n], line[n..]), n + 1)
  }

  /** A header line with this text, from its line end on. */
  function DecodeLineEnd(k: LineKind, text: seq<octet>, tail: seq<octet>): (d: Decoded)
    ensures d.Got? ==> d.used <= |tail|
    decreases |tail|, 0
  {
    if tail == [] then Partial
    else if tail[0] != CR || !MayEnd(k, text) then Bad(1)
    else if |tail| == 1 then Partial
    else if tail[1] != LF then Bad(2)
    else Later(DecodeAfter(k, text, tail[2..]), 2)
  }

  /** What follows a header line: nothing, a bulk body, or the items of an array. */
  function DecodeAfter(k: LineKind, text: seq<octet>, rest: seq<octet>): (d: Decoded)
    ensures d.Got? ==> d.used <= |rest|
    decreases |rest|, 2
  {
    match k
    case Simple => Got(Bytes(text), 0)
    case Err => Got(ErrorText(text), 0)
    case Number => Got(Int(Narrow(Strtol(text))), 0)
    case BulkLen =>
      var size := Strtol(text);
      if size == -1 then Got(Nil, 0) else if size < 0 then Bad(0) else DecodeBody(size, rest)
    case ArrayLen =>
      var size := Strtol(text);
      if size < -1 then Bad(0) else DecodeItems(if size < 0 then 0 else size, [], rest)
  }

  /** n more replies, appended to the items of an array. */
  function DecodeItems(n: nat, items: seq<Value>, input: seq<octet>): (d: Decoded)
    ensures d.Got? ==> d.used <= |input|
    decreases |input|, 1, n
  {
    if n == 0 then Got(Array(items), 0)
    else
      match Decode(input)
      case Got(v, used) => Later(DecodeItems(n - 1, items + [v], input[used..]), used)
      case Partial => Partial
      case Bad(used) => Bad(used)
  }

  /** The machine and the decoder agree on value, length and error offset. */
  ghost predicate Agree(o: Outcome, d: Decoded) {
    match d
    case Got(v, used) => o == Reply(v, used)
    case Partial => o.Pending?
    case Bad(used) => o == Malformed(used)
  }

  // ---------- lines and bodies ----------

  /** The machine reads a whole run of line bytes at once. */
  lemma {:induction false} RunLine(k: LineKind, buf: seq<octet>, frames: seq<Frame>, input: seq<octet>)
    ensures var n := LineRun(k, input);
            Run(Machine(Line(k, buf), frames), input)
            == Shift(Run(Machine(Line(k, buf + input[..n]), frames), input[n..]), n)
    decreases |input|
  {
    hide Run;
    var n := LineRun(k, input);
    if n == 0 {
      assert buf + input[..0] == buf;
    } else {
      RunOne(Machine(Line(k, buf), frames), input, Line(k, buf + [input[0]]));
      RunLine(k, buf + [input[0]], frames, input[1..]);
      assert buf + [input[0]] + input[1..][..n - 1] == buf + input[..n];
      assert input[1..][n - 1..] == input[n..];
    }
  }

  lemma RunOne(m: Machine, input: seq<octet>, s: Scan)
    requires input != [] && ScanByte(m.scan, input[0]) == More(s)
    ensures Run(m, input) == Shift(Run(Machine(s, m.frames), input[1..]), 1)
  {
  }

  lemma BodyIsRun(n: nat, input: seq<octet>)
    ensures Agree(Run(Machine(if n == 0 then BodyCR([]) else Body(n, []), []), input), DecodeBody(n, input))
  {
    var k := if n < |input| then n else |input|;
    if n > 0 { RunBulk(n, [], [], input); }
    assert [] + input[..k] == input[..k];
    var rest := input[k..];
    if k == n && rest != [] {
      assert rest[0] == input[n];
      if rest[0] == CR {
        RunOne(Machine(BodyCR(input[..n]), []), rest, BodyLF(input[..n]));
        if |rest| > 1 { assert rest[1..][0] == input[n + 1]; }
      }
    }
  }

  // ---------- whole replies ----------

  lemma ShiftAgrees(o: Outcome, d: Decoded, k: nat)
    requires Agree(o, d)
    ensures Agree(Shift(o, k), Later(d, k))
  {
  }

  /** On every input, the fresh machine and the decoder agree. */
  lemma {:induction false} DecodeIsRun(input: seq<octet>)
    ensures Agree(Run(Fresh, input), Decode(input))
    decreases |input|, 0
  {
    if input != [] && KindOf(input[0]) != [] {
      var k, line := KindOf(input[0])[0], input[1..];
      var n := LineRun(k, line);
      RunOne(Fresh, input, Line(k, []));
      RunLine(k, [], [], line);
      assert [] + line[..n] == line[..n];
      LineEndIsRun(k, line[..n], line[n..]);
      var o, d := Run(Machine(Line(k, line[..n]), []), line[n..]), DecodeLineEnd(k, line[..n], line[n..]);
      ShiftAgrees(o, d, n + 1);
      assert Shift(Shift(o, n), 1) == Shift(o, n + 1);
    }
  }

  lemma {:induction false} LineEndIsRun(k: LineKind, text: seq<octet>, tail: seq<octet>)
    requires tail != [] ==> tail[0] == CR || !Accepts(k, tail[0])
    ensures Agree(Run(Machine(Line(k, text), []), tail), DecodeLineEnd(k, text, tail))
    decreases |tail|, 0
  {
    if tail != [] && tail[0] == CR && MayEnd(k, text) {
      RunOne(Machine(Line(k, text), []), tail, LineLF(k, text));
      if |tail| > 1 && tail[1] == LF {
        assert tail[1..][0] == LF && tail[1..][1..] == tail[2..];
        AfterIsRun(k, text, tail[1..]);
      }
    }
  }

  lemma {:induction false} AfterIsRun(k: LineKind, text: seq<octet>, tail: seq<octet>)
    requires tail != [] && tail[0] == LF
    ensures Agree(Run(Machine(LineLF(k, text), []), tail), Later(DecodeAfter(k, text, tail[1..]), 1))
    decreases |tail|, 2
  {
    var rest := tail[1..];
    match LineEnd(k, text)
    case More(s) =>
      RunOne(Machine(LineLF(k, text), []), tail, s);
      BodyIsRun(if s.Body? then s.need else 0, rest);
      ShiftAgrees(Run(Machine(s, []), rest), DecodeAfter(k, text, rest), 1);
    case Open(n) =>
      var g := [Frame(n, [])];
      assert g + [] == g;
      ItemsIsRun(n, [], rest);
      ShiftAgrees(Run(Machine(Begin, g), rest), DecodeAfter(k, text, rest), 1);
    case Done(v) => EndsAtOnce(k, text, tail);
    case Fail => EndsAtOnce(k, text, tail);
  }

  /** A header line that is a whole reply, or no header line at all. */
  lemma EndsAtOnce(k: LineKind, text: seq<octet>, tail: seq<octet>)
    requires tail != [] && tail[0] == LF && (LineEnd(k, text).Done? || LineEnd(k, text).Fail?)
    ensures var o, d := Run(Machine(LineLF(k, text), []), tail), DecodeAfter(k, text, tail[1..]);
            if LineEnd(k, text).Done? then o == Reply(LineEnd(k, text).v, 1) && d == Got(LineEnd(k, text).v, 0)
            else o == Malformed(1) && d == Bad(0)
  {
    hide Strtol, Narrow;
  }

  lemma {:induction false} ItemsIsRun(n: nat, items: seq<Value>, input: seq<octet>)
    requires n > 0
    ensures Agree(Run(Machine(Begin, [Frame(n, items)]), input), DecodeItems(n, items, input))
    decreases |input|, 1
  {
    var g := Frame(n, items);
    assert [] + [g] == [g];
    RunEnclosed(Begin, [], g, input);
    DecodeIsRun(input);
    match Decode(input)
    case Got(v, used) => if n > 1 { ItemsIsRun(n - 1, items + [v], input[used..]); }
    case _ =>
  }
}
