/** The incremental reply parser: an object that is fed the pieces of the stream as
    they arrive and keeps partial nested arrays on two stacks in between. */
module RedisParser {
  import opened Resp

  datatype State =
    | Start
    | String | StringLF
    | ErrorString | ErrorLF
    | Integer | IntegerLF
    | BulkSize | BulkSizeLF | Bulk | BulkCR | BulkLF
    | ArraySize | ArraySizeLF

  datatype ParseResult = Completed | Incompleted | Error

  /** What the switch over the parser state asks the byte loop to do. */
  datatype Turn = Continue | Complete | Bad | BeginBulk | BeginArray(n: nat)

  /** Stands for the scanner fields; bulkSize counts only inside a bulk body and buf
      means nothing between replies. */
  function ScanOf(state: State, bulkSize: int, buf: seq<octet>): Scan {
    match state
    case Start => Begin
    case String => Line(Simple, buf)
    case StringLF => LineLF(Simple, buf)
    case ErrorString => Line(Err, buf)
    case ErrorLF => LineLF(Err, buf)
    case Integer => Line(Number, buf)
    case IntegerLF => LineLF(Number, buf)
    case BulkSize => Line(BulkLen, buf)
    case BulkSizeLF => LineLF(BulkLen, buf)
    case Bulk => Body(if bulkSize < 0 then 0 else bulkSize, buf)
    case BulkCR => BodyCR(buf)
    case BulkLF => BodyLF(buf)
    case ArraySize => Line(ArrayLen, buf)
    case ArraySizeLF => LineLF(ArrayLen, buf)
  }

  /** While suspended, the innermost array is at the bottom of both stacks. */
  predicate StacksOk(sizes: seq<int>, values: seq<Value>) {
    && |sizes| == |values|
    && (forall i | 0 <= i < |sizes| :: sizes[i] > 0 && values[i].Array?)
  }

  function FramesOf(sizes: seq<int>, values: seq<Value>): (frames: seq<Frame>)
    requires StacksOk(sizes, values)
  {
    seq(|sizes|, i requires 0 <= i < |sizes| => Frame(sizes[i], values[i].items))
  }

  class RedisParser {
    var state: State
    var bulkSize: int
    var buf: seq<octet>
    var arrayStack: seq<int>
    var valueStack: seq<Value>

    ghost predicate Valid()
      reads this
    {
      StacksOk(arrayStack, valueStack) && (state.Bulk? ==> bulkSize > 0)
    }

    ghost function Scanner(): Scan
      reads this
    {
      ScanOf(state, bulkSize, buf)
    }

    /** The machine this suspended parser stands for. */
    ghost function Suspended(): Machine
      requires Valid()
      reads this
    {
      Machine(Scanner(), FramesOf(arrayStack, valueStack))
    }

    /** The parser ended a call on `size` bytes as the machine's outcome says. */
    ghost predicate Ended(o: Outcome, size: nat, used: nat, result: ParseResult)
      reads this
    {
      match result
      case Completed =>
        state == Start && arrayStack == [] && |valueStack| == 1 && o == Reply(valueStack[0], used)
      case Incompleted => Valid() && o == Pending(Suspended()) && used == size
      case Error => state == Start && o == Malformed(used)
    }

    constructor ()
      ensures Valid() && Suspended() == Fresh && arrayStack == [] && valueStack == []
    {
      state, bulkSize := Start, 0;
      buf, arrayStack, valueStack := [], [], [];
    }

    /** A byte in the middle of a line: the line ends, grows, or is malformed. */
    method LineByte(kind: LineKind, next: State, c: octet) returns (turn: Turn)
      requires Scanner() == Line(kind, buf) && ScanOf(next, bulkSize, buf) == LineLF(kind, buf)
      modifies this`state, this`buf
      ensures match ScanByte(old(Scanner()), c)
              case More(s) => turn == Continue && Scanner() == s
              case _ => turn == Bad && state == Start
    {
      if c == CR {
        if (kind == Simple || kind == Err) || buf != [] {
          state := next;
          return Continue;
        }
      } else if Accepts(kind, c) {
        buf := buf + [c];
        return Continue;
      }
      state := Start;
      return Bad;
    }

    method Finish(v: Value) returns (turn: Turn)
      modifies this`state, this`valueStack
      ensures turn == Complete && state == Start && valueStack == old(valueStack) + [v]
    {
      state := Start;
      valueStack := valueStack + [v];
      return Complete;
    }

    method Reject() returns (turn: Turn)
      modifies this`state
      ensures turn == Bad && state == Start
    {
      state := Start;
      return Bad;
    }

    /** The line feed after a length field. */
    method SizeEnd(n: int, isArray: bool) returns (turn: Turn)
      requires state == (if isArray then ArraySizeLF else BulkSizeLF)
      requires n == Strtol(buf)
      modifies this`state, this`bulkSize, this`buf, this`valueStack
      ensures match LineEnd(if isArray then ArrayLen else BulkLen, old(buf))
              case More(s) =>
                valueStack == old(valueStack) && buf == []
                && (if s.Body? then turn == BeginBulk && state == BulkSizeLF && bulkSize == n > 0 && s == Body(n, [])
                    else turn == Continue && Scanner() == s && !state.Bulk?)
              case Done(v) => turn == Complete && state == Start && valueStack == old(valueStack) + [v]
              case Open(k) => turn == BeginArray(k) && k > 0 && state == Start && valueStack == old(valueStack)
              case Fail => turn == Bad && state == Start
    {
      buf := [];
      if isArray {
        if n == -1 || n == 0 {
          turn := Finish(Array([]));
        } else if n < 0 {
          turn := Reject();
        } else {
          state := Start;
          turn := BeginArray(n);
        }
      } else {
        bulkSize := n;
        if bulkSize == -1 {
          turn := Finish(Nil);
        } else if bulkSize == 0 {
          state := BulkCR;
          turn := Continue;
        } else if bulkSize < 0 {
          turn := Reject();
        } else {
          turn := BeginBulk;
        }
      }
    }

    /** What a byte does outside bulk bodies: the new scanner state, or the end of a reply. */
    twostate predicate Obeys(v: Verdict, turn: Turn)
      reads this
    {
      match v
      case More(s) =>
        valueStack == old(valueStack)
        && (if s.Body? then turn == BeginBulk && bulkSize > 0 && buf == [] && s == Body(bulkSize, [])
            else turn == Continue && Scanner() == s && !state.Bulk?)
      case Done(v) => turn == Complete && state == Start && valueStack == old(valueStack) + [v]
      case Open(k) => turn == BeginArray(k) && k > 0 && state == Start && valueStack == old(valueStack)
      case Fail => turn == Bad && state == Start
    }

    method StartByte(c: octet) returns (turn: Turn)
      requires state == Start
      modifies this`state, this`bulkSize, this`buf
      ensures Obeys(ScanByte(Begin, c), turn)
    {
      buf := [];
      turn := Continue;
      if c == 43 { state := String; }
      else if c == 45 { state := ErrorString; }
      else if c == 58 { state := Integer; }
      else if c == 36 { state := BulkSize; bulkSize := 0; }
      else if c == 42 { state := ArraySize; }
      else { turn := Reject(); }
    }

    /** The byte after a carriage return. */
    method LineFeed(c: octet) returns (turn: Turn)
      requires Scanner().LineLF? || state == BulkLF
      modifies this`state, this`bulkSize, this`buf, this`valueStack
      ensures Obeys(ScanByte(old(Scanner()), c), turn)
    {
      hide Strtol, Narrow;
      if c != LF {
        turn := Reject();
        return;
      }
      if state == StringLF {
        turn := Finish(Bytes(buf));
      } else if state == ErrorLF {
        turn := Finish(ErrorText(buf));
      } else if state == IntegerLF {
        var value := Strtol(buf);
        buf := [];
        turn := Finish(Int(Narrow(value)));
      } else if state == BulkSizeLF {
        turn := SizeEnd(Strtol(buf), false);
      } else if state == ArraySizeLF {
        turn := SizeEnd(Strtol(buf), true);
      } else {
        turn := Finish(Bytes(buf));
      }
    }

    /** The switch over the state for one byte, bulk bodies excepted. */
    method Switch(c: octet) returns (turn: Turn)
      requires !state.Bulk?
      modifies this`state, this`bulkSize, this`buf, this`valueStack
      ensures Obeys(ScanByte(old(Scanner()), c), turn)
    {
      if state == Start {
        turn := StartByte(c);
      } else if state == String {
        turn := LineByte(Simple, StringLF, c);
      } else if state == ErrorString {
        turn := LineByte(Err, ErrorLF, c);
      } else if state == Integer {
        turn := LineByte(Number, IntegerLF, c);
      } else if state == BulkSize {
        turn := LineByte(BulkLen, BulkSizeLF, c);
      } else if state == ArraySize {
        turn := LineByte(ArrayLen, ArraySizeLF, c);
      } else if state == BulkCR && c == CR {
        state := BulkLF;
        turn := Continue;
      } else if state == BulkCR {
        turn := Reject();
      } else {
        turn := LineFeed(c);
      }
    }

    ghost predicate Idle()
      reads this
    {
      arrayStack == [] && valueStack == [] && (state.Bulk? ==> bulkSize > 0)
    }

    /** The bulk body begins at i + 1: takes what is there and says whether it all is. */
    method BeginBody(input: seq<octet>, i: nat) returns (last: nat, whole: bool)
      requires i < |input| && bulkSize > 0 && buf == []
      modifies this`state, this`bulkSize, this`buf
      ensures i <= last < |input| && (!whole ==> last + 1 == |input| && state == Bulk && bulkSize > 0)
      ensures whole ==> state == BulkCR
      ensures Run(Machine(Body(old(bulkSize), []), []), input[i + 1..])
              == Shift(Run(Machine(Scanner(), []), input[last + 1..]), last - i)
    {
      hide Run;
      RunBulk(bulkSize, [], [], input[i + 1..]);
      var available := |input| - i - 1;
      var canRead := if available < bulkSize then available else bulkSize;
      assert [] + input[i + 1..][..canRead] == input[i + 1..i + canRead + 1];
      assert input[i + 1..][canRead..] == input[i + canRead + 1..];
      if canRead > 0 {
        buf := input[i + 1..i + canRead + 1];
      }
      last := i + canRead;
      if bulkSize > available {
        bulkSize := bulkSize - canRead;
        state := Bulk;
        return last, false;
      }
      state := BulkCR;
      whole := true;
    }

    /** More of a bulk body. The range ptr + i .. ptr + canRead is right because a body
        is only resumed at the start of a buffer. */
    method ResumeBody(input: seq<octet>, i: nat) returns (last: nat)
      requires state == Bulk && bulkSize > 0 && i == 0 && input != []
      modifies this`state, this`bulkSize, this`buf
      ensures last < |input| && (state == BulkCR || (state == Bulk && bulkSize > 0 && last + 1 == |input|))
      ensures Run(Machine(old(Scanner()), []), input) == Shift(Run(Machine(Scanner(), []), input[last + 1..]), last + 1)
    {
      RunBulk(bulkSize, buf, [], input);
      var available := |input| - i;
      var canRead := if available < bulkSize then available else bulkSize;
      assert input[i..canRead] == input[..canRead];
      buf := buf + input[i..canRead];
      bulkSize := bulkSize - canRead;
      last := i + canRead - 1;
      if bulkSize == 0 {
        state := BulkCR;
      }
    }

    /** The array header is read: its items follow. */
    method OpenArray(n: nat, input: seq<octet>) returns (used: nat, result: ParseResult)
      requires Idle() && state == Start && n > 0
      modifies this
      ensures Ended(Run(Machine(Begin, [Frame(n, [])] + []), input), |input|, used, result)
      decreases |input|, 1, 2
    {
      hide Run, ScanByte;
      arrayStack := [n];
      valueStack := [Array([])];
      assert FramesOf(arrayStack, valueStack) == [Frame(n, [])] + [];
      if input != [] {
        used, result := ParseArray(input);
      } else {
        RunNothing(Suspended(), input);
        return 0, Incompleted;
      }
    }

    /** One byte outside bulk bodies, and what it opens: the byte loop goes on after
        `last`, or returns `last` + 1 with this result. */
    method ChunkByte(input: seq<octet>, i: nat) returns (last: nat, finished: bool, result: ParseResult)
      requires Idle() && !state.Bulk? && i < |input|
      modifies this
      ensures var whole := Shift(Run(Machine(old(Scanner()), []), input[i..]), i);
              if finished then Ended(whole, |input|, last + 1, result)
              else i <= last < |input| && Idle() && !state.Bulk?
                   && whole == Shift(Run(Machine(Scanner(), []), input[last + 1..]), last + 1)
      decreases |input|, 0, 0
    {
      hide Run, ScanByte;
      RunFrom(Machine(Scanner(), []), input, i);
      last, finished, result := i, false, Incompleted;
      var turn := Switch(input[i]);
      match turn {
        case Continue =>
        case Complete => return i, true, Completed;
        case Bad => return i, true, Error;
        case BeginArray(n) =>
          var used;
          used, result := OpenArray(n, input[i + 1..]);
          return i + used, true, result;
        case BeginBulk =>
          var complete;
          last, complete := BeginBody(input, i);
          if !complete {
            RunNothing(Machine(Scanner(), []), input);
            return last, true, Incompleted;
          }
      }
    }

    /** One reply, or the part of it that is there, outside any suspended array. */
    method ParseChunk(input: seq<octet>) returns (used: nat, result: ParseResult)
      requires Idle()
      modifies this
      ensures Ended(Run(Machine(old(Scanner()), []), input), |input|, used, result)
      decreases |input|, 0, 1
    {
      hide Run, ScanByte;
      ghost var whole := Run(Machine(Scanner(), []), input);
      var i := 0;
      assert input[0..] == input && FramesOf([], []) == [];
      while i < |input|
        invariant 0 <= i <= |input| && Idle()
        invariant state.Bulk? ==> i == 0
        invariant whole == Shift(Run(Machine(Scanner(), []), input[i..]), i)
      {
        if state == Bulk {
          i := ResumeBody(input, i);
          if i + 1 == |input| {
            RunNothing(Machine(Scanner(), []), input);
            return i + 1, Incompleted;
          }
        } else {
          var finished;
          i, finished, result := ChunkByte(input, i);
          if finished {
            return i + 1, result;
          }
        }
        i := i + 1;
      }
      RunNothing(Machine(Scanner(), []), input);
      return i, Incompleted;
    }

    /** One round of the item loop: the next item of an array, or its suspension. */
    method ParseItem(remaining: nat, items: seq<Value>, input: seq<octet>)
      returns (used: nat, result: ParseResult, items': seq<Value>)
      requires Idle() && remaining > 0
      modifies this
      ensures var whole := Run(Machine(old(Scanner()), [Frame(remaining, items)]), input);
              if result == Completed then
                used <= |input| && Idle() && state == Start
                && whole == (if remaining == 1 then Reply(Array(items'), used)
                             else Shift(Run(Machine(Begin, [Frame(remaining - 1, items')]), input[used..]), used))
              else Ended(whole, |input|, used, result)
      decreases |input|, 0, 4
    {
      hide Run, ScanByte;
      ghost var g := Frame(remaining, items);
      assert [] + [g] == [g] && Suspended() == Machine(Scanner(), []);
      RunEnclosed(Scanner(), [], g, input);
      items' := items;
      used, result := Parse(input);
      if result == Incompleted {
        valueStack := valueStack + [Array(items)];
        arrayStack := arrayStack + [remaining];
        PushFrame(arrayStack, valueStack);
      } else if result == Completed {
        items' := items + [valueStack[0]];
        valueStack := [];
      }
    }

    /** The rest of an array of which `arraySize` items are missing. */
    method ParseItems(arraySize: nat, arrayValue: seq<Value>, input: seq<octet>)
      returns (used: nat, result: ParseResult)
      requires Idle() && arraySize > 0
      modifies this
      ensures Ended(Run(Machine(old(Scanner()), [Frame(arraySize, arrayValue)]), input), |input|, used, result)
      decreases |input|, 1, 0
    {
      hide Run, ScanByte;
      ghost var whole := Run(Machine(Scanner(), [Frame(arraySize, arrayValue)]), input);
      var items := arrayValue;
      var i := 0;
      var x := 0;
      assert input[0..] == input;
      while x < arraySize
        invariant x <= arraySize && i <= |input| && Idle()
        invariant whole == if x < arraySize
                           then Shift(Run(Machine(Scanner(), [Frame(arraySize - x, items)]), input[i..]), i)
                           else Reply(Array(items), i)
        invariant x == arraySize ==> state == Start
      {
        var n, r;
        ghost var rest := input[i..];
        n, r, items := ParseItem(arraySize - x, items, input[i..]);
        i := i + n;
        if r != Completed {
          return i, r;
        }
        assert rest[n..] == input[i..];
        x := x + 1;
      }
      valueStack := [Array(items)];
      return i, Completed;
    }

    /** Resumes the outermost suspended array, on top of both stacks, after the ones
        suspended inside it. */
    method ParseArray(input: seq<octet>) returns (used: nat, result: ParseResult)
      requires Valid() && arrayStack != []
      modifies this
      ensures Ended(Run(old(Suspended()), input), |input|, used, result)
      decreases |input|, |arrayStack|, 1
    {
      hide Run, ScanByte;
      PushFrame(arrayStack, valueStack);
      var arraySize := arrayStack[|arrayStack| - 1];
      var arrayValue := valueStack[|arrayStack| - 1].items;
      arrayStack := arrayStack[..|arrayStack| - 1];
      valueStack := valueStack[..|arrayStack|];
      if arrayStack == [] {
        assert FramesOf(arrayStack, valueStack) + [Frame(arraySize, arrayValue)] == [Frame(arraySize, arrayValue)];
        used, result := ParseItems(arraySize, arrayValue, input);
        return;
      }
      RunEnclosed(Scanner(), FramesOf(arrayStack, valueStack), Frame(arraySize, arrayValue), input);
      used, result := ParseArray(input);
      if result != Completed {
        valueStack := valueStack + [Array(arrayValue)];
        arrayStack := arrayStack + [arraySize];
        if result == Incompleted { PushFrame(arrayStack, valueStack); }
        return;
      }
      arrayValue := arrayValue + [valueStack[0]];
      valueStack := [];
      arraySize := arraySize - 1;
      var i := used;
      if i == |input| {
        valueStack := [Array(arrayValue)];
        if arraySize == 0 {
          return i, Completed;
        }
        arrayStack := [arraySize];
        assert FramesOf(arrayStack, valueStack) == [Frame(arraySize, arrayValue)];
        RunNothing(Suspended(), input);
        return i, Incompleted;
      }
      if arraySize == 0 {
        valueStack := [Array(arrayValue)];
        return i, Completed;
      }
      used, result := ParseItems(arraySize, arrayValue, input[i..]);
      used := used + i;
    }

    method Parse(input: seq<octet>) returns (used: nat, result: ParseResult)
      requires Valid()
      modifies this
      ensures Ended(Run(old(Suspended()), input), |input|, used, result)
      decreases |input|, |arrayStack|, 3
    {
      if arrayStack != [] {
        used, result := ParseArray(input);
      } else {
        assert FramesOf(arrayStack, valueStack) == [];
        used, result := ParseChunk(input);
      }
    }

    /** Takes the completed reply from the value stack. */
    method Result() returns (value: Value)
      modifies this`valueStack
      ensures old(valueStack) == [] ==> value == Nil && valueStack == []
      ensures old(valueStack) != [] ==> old(valueStack) == valueStack + [value]
    {
      if valueStack != [] {
        value := valueStack[|valueStack| - 1];
        valueStack := valueStack[..|valueStack| - 1];
      } else {
        value := Nil;
      }
    }
  }

  /** The top of the stacks is the outermost frame. */
  lemma PushFrame(sizes: seq<int>, values: seq<Value>)
    requires sizes != [] && StacksOk(sizes, values)
    ensures var k := |sizes| - 1;
            StacksOk(sizes[..k], values[..k])
            && FramesOf(sizes, values) == FramesOf(sizes[..k], values[..k]) + [Frame(sizes[k], values[k].items)]
  {
  }

  lemma RunNothing(m: Machine, input: seq<octet>)
    ensures input[|input|..] == [] && Run(m, input[|input|..]) == Pending(m)
  {
  }

  lemma RunFrom(m: Machine, input: seq<octet>, i: nat)
    requires i < |input| && m.frames == []
    ensures Run(m, input[i..]) ==
            match ScanByte(m.scan, input[i])
            case Fail => Malformed(1)
            case More(s) => Shift(Run(Machine(s, []), input[i + 1..]), 1)
            case Open(n) => Shift(Run(Machine(Begin, [Frame(n, [])] + []), input[i + 1..]), 1)
            case Done(v) => Reply(v, 1)
  {
    assert input[i..][1..] == input[i + 1..];
  }
}
