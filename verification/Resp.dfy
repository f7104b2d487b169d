/** The Redis protocol as the client reads it: reply values, number fields, and the
    reply grammar as a machine that takes one byte at a time. */
module Resp {

  type octet = x: int | 0 <= x < 256

  /** A reply. An error reply is a byte string with its error flag set. */
  datatype Value =
    | Nil
    | Int(n: int)
    | Bytes(s: seq<octet>)
    | ErrorText(s: seq<octet>)
    | Array(items: seq<Value>)

  const CR: octet := 13
  const LF: octet := 10
  const MINUS: octet := 45

  predicate IsDigitOctet(c: octet) {
    48 <= c <= 57
  }

  /** isChar(c) && !isControl(c), for c as a signed char. */
  predicate IsText(c: octet) {
    32 <= c <= 126
  }

  // ---------- number fields ----------

  const LONG_MAX := 0x7fff_ffff_ffff_ffff
  const LONG_MIN := -0x8000_0000_0000_0000

  function DigitRun(s: seq<octet>): (k: nat)
    ensures k <= |s| && (forall i | 0 <= i < k :: IsDigitOctet(s[i]))
    ensures k < |s| ==> !IsDigitOctet(s[k])
  {
    if s == [] || !IsDigitOctet(s[0]) then 0 else 1 + DigitRun(s[1..])
  }

  function DecimalValue(s: seq<octet>): nat
    requires forall i | 0 <= i < |s| :: IsDigitOctet(s[i])
  {
    if s == [] then 0
    else
      assert IsDigitOctet(s[|s| - 1]);
      10 * DecimalValue(s[..|s| - 1]) + (s[|s| - 1] - 48) as nat
  }

  /** strtol in base 10 on a buffer of digits and '-': the longest valid prefix,
      0 if there is none, saturated to a 64-bit long. */
  function Strtol(s: seq<octet>): int {
    var neg := s != [] && s[0] == MINUS;
    var body := if neg then s[1..] else s;
    var v: int := DecimalValue(body[..DigitRun(body)]);
    if neg then (if -v < LONG_MIN then LONG_MIN else -v)
    else if v > LONG_MAX then LONG_MAX else v
  }

  /** The conversion from long to int. */
  function Narrow(v: int): int {
    (v + 0x8000_0000) % 0x1_0000_0000 - 0x8000_0000
  }

  // ---------- one byte at a time ----------

  datatype LineKind = Simple | Err | Number | BulkLen | ArrayLen

  /** Where the parser is inside a reply; a bulk body still needs `need` bytes. */
  datatype Scan =
    | Begin
    | Line(kind: LineKind, buf: seq<octet>)
    | LineLF(kind: LineKind, buf: seq<octet>)
    | Body(need: nat, buf: seq<octet>)
    | BodyCR(buf: seq<octet>)
    | BodyLF(buf: seq<octet>)

  datatype Verdict = More(scan: Scan) | Done(v: Value) | Open(n: nat) | Fail

  function KindOf(c: octet): (k: seq<LineKind>)
    ensures |k| <= 1
  {
    if c == 43 then [Simple] else if c == 45 then [Err] else if c == 58 then [Number]
    else if c == 36 then [BulkLen] else if c == 42 then [ArrayLen] else []
  }

  predicate Accepts(k: LineKind, c: octet) {
    if k == Simple || k == Err then IsText(c) else IsDigitOctet(c) || c == MINUS
  }

  /** A length or integer line must not be empty. */
  predicate MayEnd(k: LineKind, buf: seq<octet>) {
    k == Simple || k == Err || buf != []
  }

  function LineEnd(k: LineKind, buf: seq<octet>): Verdict {
    match k
    case Simple => Done(Bytes(buf))
    case Err => Done(ErrorText(buf))
    case Number => Done(Int(Narrow(Strtol(buf))))
    case BulkLen =>
      var n := Strtol(buf);
      if n == -1 then Done(Nil)
      else if n == 0 then More(BodyCR([]))
      else if n < 0 then Fail
      else More(Body(n, []))
    case ArrayLen =>
      var n := Strtol(buf);
      if n == -1 || n == 0 then Done(Array([]))
      else if n < 0 then Fail
      else Open(n)
  }

  function ScanByte(s: Scan, c: octet): Verdict {
    match s
    case Begin => if KindOf(c) == [] then Fail else More(Line(KindOf(c)[0], []))
    case Line(k, buf) =>
      if c == CR then (if MayEnd(k, buf) then More(LineLF(k, buf)) else Fail)
      else if Accepts(k, c) then More(Line(k, buf + [c]))
      else Fail
    case LineLF(k, buf) => if c == LF then LineEnd(k, buf) else Fail
    case Body(need, buf) => if need <= 1 then More(BodyCR(buf + [c])) else More(Body(need - 1, buf + [c]))
    case BodyCR(buf) => if c == CR then More(BodyLF(buf)) else Fail
    case BodyLF(buf) => if c == LF then Done(Bytes(buf)) else Fail
  }

  /** An array that still needs `remaining` items; frames are innermost first. */
  datatype Frame = Frame(remaining: nat, items: seq<Value>)

  datatype Machine = Machine(scan: Scan, frames: seq<Frame>)

  const Fresh := Machine(Begin, [])

  datatype Outcome = Reply(v: Value, used: nat) | Pending(m: Machine) | Malformed(used: nat)

  datatype Closed = Whole(v: Value) | Still(frames: seq<Frame>)

  /** Hands a finished value to the innermost array, and a finished array to the next. */
  function Close(v: Value, frames: seq<Frame>): Closed
    decreases |frames|
  {
    if frames == [] then Whole(v)
    else if frames[0].remaining <= 1 then Close(Array(frames[0].items + [v]), frames[1..])
    else Still([Frame(frames[0].remaining - 1, frames[0].items + [v])] + frames[1..])
  }

  function Shift(o: Outcome, k: nat): Outcome {
    match o
    case Reply(v, used) => Reply(v, used + k)
    case Pending(m) => o
    case Malformed(used) => Malformed(used + k)
  }

  /** Reads bytes until the outermost reply is complete, an error, or the end. */
  function Run(m: Machine, input: seq<octet>): (o: Outcome)
    ensures o.Reply? ==> 0 < o.used <= |input|
    ensures o.Malformed? ==> 0 < o.used <= |input|
    decreases |input|
  {
    if input == [] then Pending(m)
    else
      match ScanByte(m.scan, input[0])
      case Fail => Malformed(1)
      case More(s) => Shift(Run(Machine(s, m.frames), input[1..]), 1)
      case Open(n) => Shift(Run(Machine(Begin, [Frame(n, [])] + m.frames), input[1..]), 1)
      case Done(v) =>
        match Close(v, m.frames)
        case Whole(w) => Reply(w, 1)
        case Still(fs) => Shift(Run(Machine(Begin, fs), input[1..]), 1)
  }

  lemma {:induction false} RunSplit(m: Machine, a: seq<octet>, b: seq<octet>)
    ensures Run(m, a + b) ==
            if Run(m, a).Pending? then Shift(Run(Run(m, a).m, b), |a|) else Run(m, a)
    decreases |a|
  {
    if a == [] {
      assert a + b == b;
    } else {
      assert (a + b)[1..] == a[1..] + b;
      match ScanByte(m.scan, a[0])
      case Fail =>
      case More(s) => RunSplit(Machine(s, m.frames), a[1..], b);
      case Open(n) => RunSplit(Machine(Begin, [Frame(n, [])] + m.frames), a[1..], b);
      case Done(v) =>
        if Close(v, m.frames).Still? { RunSplit(Machine(Begin, Close(v, m.frames).frames), a[1..], b); }
    }
  }

  // ---------- an enclosing array ----------

  /** What an enclosing array does with the outcome of the machine inside it. */
  function Enclose(o: Outcome, g: Frame, input: seq<octet>): Outcome
    requires o.Reply? ==> o.used <= |input|
  {
    match o
    case Malformed(used) => o
    case Pending(m) => Pending(Machine(m.scan, m.frames + [g]))
    case Reply(v, used) =>
      if g.remaining <= 1 then Reply(Array(g.items + [v]), used)
      else Shift(Run(Machine(Begin, [Frame(g.remaining - 1, g.items + [v])]), input[used..]), used)
  }

  lemma {:induction false} CloseEnclosed(v: Value, frames: seq<Frame>, g: Frame)
    ensures Close(v, frames + [g]) ==
            match Close(v, frames)
            case Still(fs) => Still(fs + [g])
            case Whole(w) =>
              if g.remaining <= 1 then Whole(Array(g.items + [w]))
              else Still([Frame(g.remaining - 1, g.items + [w])])
    decreases |frames|
  {
    if frames == [] {
      assert frames + [g] == [g] && [g][1..] == [];
      if g.remaining > 1 {
        var h := [Frame(g.remaining - 1, g.items + [v])];
        assert h + [] == h;
      }
    } else {
      assert (frames + [g])[1..] == frames[1..] + [g];
      if frames[0].remaining <= 1 { CloseEnclosed(Array(frames[0].items + [v]), frames[1..], g); }
    }
  }

  lemma EncloseShift(o: Outcome, g: Frame, input: seq<octet>)
    requires input != [] && (o.Reply? ==> o.used < |input|)
    ensures Enclose(Shift(o, 1), g, input) == Shift(Enclose(o, g, input[1..]), 1)
  {
    if o.Reply? { assert input[1..][o.used..] == input[o.used + 1..]; }
  }

  /** Running inside an enclosing array is running alone and then letting the array go on. */
  lemma {:induction false} RunEnclosed(s: Scan, frames: seq<Frame>, g: Frame, input: seq<octet>)
    ensures Run(Machine(s, frames + [g]), input) == Enclose(Run(Machine(s, frames), input), g, input)
    decreases |input|
  {
    if input != [] {
      var rest := input[1..];
      match ScanByte(s, input[0])
      case Fail =>
      case More(s') =>
        RunEnclosed(s', frames, g, rest);
        EncloseShift(Run(Machine(s', frames), rest), g, input);
      case Open(n) =>
        var inner := [Frame(n, [])] + frames;
        assert [Frame(n, [])] + (frames + [g]) == inner + [g];
        RunEnclosed(Begin, inner, g, rest);
        EncloseShift(Run(Machine(Begin, inner), rest), g, input);
      case Done(v) =>
        CloseEnclosed(v, frames, g);
        match Close(v, frames) {
          case Whole(w) =>
          case Still(fs) =>
            RunEnclosed(Begin, fs, g, rest);
            EncloseShift(Run(Machine(Begin, fs), rest), g, input);
        }
    }
  }

  /** A run over a bulk body takes all the bytes that are there at once. */
  lemma {:induction false} RunBulk(need: nat, buf: seq<octet>, frames: seq<Frame>, input: seq<octet>)
    requires need > 0
    ensures var k := if need < |input| then need else |input|;
            Run(Machine(Body(need, buf), frames), input)
            == Shift(Run(Machine(if k == need then BodyCR(buf + input[..k]) else Body(need - k, buf + input[..k]),
                                 frames),
                         input[k..]), k)
    decreases |input|
  {
    hide Run, ScanByte;
    if input == [] {
      assert buf + input[..0] == buf && input[0..] == input;
      NoShift(Run(Machine(Body(need, buf), frames), input));
    } else {
      var b := buf + [input[0]];
      var k := if need < |input| then need else |input|;
      assert b + input[1..][..k - 1] == buf + input[..k];
      assert input[1..][k - 1..] == input[k..];
      assert b == buf + input[..1];
      BodyByte(need, buf, frames, input);
      if need > 1 { RunBulk(need - 1, b, frames, input[1..]); }
    }
  }

  lemma NoShift(o: Outcome)
    ensures Shift(o, 0) == o
  {
  }

  lemma BodyByte(need: nat, buf: seq<octet>, frames: seq<Frame>, input: seq<octet>)
    requires need > 0 && input != []
    ensures var b := buf + [input[0]];
            Run(Machine(Body(need, buf), frames), input)
            == Shift(Run(Machine(if need == 1 then BodyCR(b) else Body(need - 1, b), frames), input[1..]), 1)
  {
  }
}
