/** The synchronous call of the client: it writes one command and reads until the parser
    completes one reply. Bytes that a read holds behind that reply are dropped. */
module RedisSync {
  import opened Options
  import opened Resp
  import opened RespStream
  import opened RespCommand
  import P = RedisParser

  /** Still waiting for bytes, the reply, or an error the error handler is told about. */
  datatype Answer = Waiting | Answer(v: Value) | ParserError | WriteError

  /** What a call does with the reads it is given, and how many of them it takes. */
  function FirstReply(m: Machine, chunks: seq<seq<octet>>): (r: (Answer, nat))
    ensures r.1 <= |chunks|
    decreases |chunks|
  {
    if chunks == [] then (Waiting, 0)
    else
      match Run(m, chunks[0])
      case Reply(v, _) => (Answer(v), 1)
      case Malformed(_) => (ParserError, 1)
      case Pending(m') =>
        var r := FirstReply(m', chunks[1..]);
        (r.0, r.1 + 1)
  }

  /** However the stream is cut, the call answers with its first reply, having taken the
      reads up to the one in which that reply ends and no more. */
  lemma {:induction false} ReadsToFirstReply(m: Machine, chunks: seq<seq<octet>>)
    ensures var (answer, taken) := FirstReply(m, chunks);
            match Run(m, Concat(chunks))
            case Reply(v, used) =>
              answer == Answer(v) && 0 < taken
              && |Concat(chunks[..taken - 1])| < used <= |Concat(chunks[..taken])|
            case Malformed(used) =>
              answer == ParserError && 0 < taken
              && |Concat(chunks[..taken - 1])| < used <= |Concat(chunks[..taken])|
            case Pending(_) => answer == Waiting && taken == |chunks|
    decreases |chunks|
  {
    hide Run;
    if chunks == [] {
      RunEmpty(m);
    } else {
      var first, rest := chunks[0], chunks[1..];
      RunSplit(m, first, Concat(rest));
      match Run(m, first)
      case Pending(m') =>
        ReadsToFirstReply(m', rest);
        ConcatPrefix(chunks, FirstReply(m', rest).1);
        if FirstReply(m', rest).1 > 0 { ConcatPrefix(chunks, FirstReply(m', rest).1 - 1); }
      case _ =>
        ConcatPrefix(chunks, 0);
        assert chunks[..0] == [] && rest[..0] == [];
        assert Concat(chunks[..0]) == [] && Concat(rest[..0]) == [];
    }
  }

  lemma RunEmpty(m: Machine)
    ensures Run(m, []) == Pending(m)
  {
  }

  lemma ConcatPrefix(chunks: seq<seq<octet>>, k: nat)
    requires chunks != [] && k <= |chunks| - 1
    ensures |Concat(chunks[..k + 1])| == |chunks[0]| + |Concat(chunks[1..][..k])|
  {
    assert chunks[..k + 1][1..] == chunks[1..][..k];
  }

  lemma {:induction false} ConcatSplit(chunks: seq<seq<octet>>, k: nat)
    requires k <= |chunks|
    ensures Concat(chunks) == Concat(chunks[..k]) + Concat(chunks[k..])
    decreases k
  {
    if k == 0 {
      assert chunks[k..] == chunks && Concat(chunks[..k]) == [];
    } else {
      ConcatSplit(chunks[1..], k - 1);
      assert chunks[..k][1..] == chunks[1..][..k - 1] && chunks[1..][k - 1..] == chunks[k..];
    }
  }

  lemma PrefixesGrow(chunks: seq<seq<octet>>, j: nat, k: nat)
    requires j <= k <= |chunks|
    ensures |Concat(chunks[..k])| == |Concat(chunks[..j])| + |Concat(chunks[j..][..k - j])|
  {
    ConcatSplit(chunks[..k], j);
    assert chunks[..k][..j] == chunks[..j] && chunks[..k][j..] == chunks[j..][..k - j];
  }

  /** Some read ends after exactly this many bytes of the stream. */
  ghost predicate ReadEndsAt(chunks: seq<seq<octet>>, n: nat) {
    exists k: nat | k <= |chunks| :: |Concat(chunks[..k])| == n
  }

  /** The next call goes on where the first reply ended if and only if a read ends there;
      otherwise it goes on behind the bytes that were dropped with the read. */
  lemma NextCallInStep(chunks: seq<seq<octet>>, v: Value, used: nat)
    requires Run(Fresh, Concat(chunks)) == Reply(v, used)
    ensures var taken := FirstReply(Fresh, chunks).1;
            && used <= |Concat(chunks[..taken])| <= |Concat(chunks)|
            && Concat(chunks[taken..]) == Concat(chunks)[|Concat(chunks[..taken])|..]
            && (Concat(chunks[taken..]) == Concat(chunks)[used..] <==> ReadEndsAt(chunks, used))
            && (ReadEndsAt(chunks, used) <==> |Concat(chunks[..taken])| == used)
  {
    var taken := FirstReply(Fresh, chunks).1;
    ReadsToFirstReply(Fresh, chunks);
    ConcatSplit(chunks, taken);
    var done, rest := Concat(chunks[..taken]), Concat(chunks[taken..]);
    assert Concat(chunks) == done + rest;
    assert (done + rest)[|done|..] == rest;
    assert |(done + rest)[used..]| == |done| + |rest| - used;
    if ReadEndsAt(chunks, used) {
      var k: nat :| k <= |chunks| && |Concat(chunks[..k])| == used;
      if k < taken { PrefixesGrow(chunks, k, taken - 1); } else { PrefixesGrow(chunks, taken, k); }
    }
  }

  function AnswerTo(o: Outcome): Answer {
    match o
    case Reply(v, _) => Answer(v)
    case Malformed(_) => ParserError
    case Pending(_) => Waiting
  }

  /** What the call after the first one answers: the first reply of the stream behind the
      bytes that were taken, the dropped ones included. */
  lemma NextAnswer(chunks: seq<seq<octet>>, v: Value, used: nat)
    requires Run(Fresh, Concat(chunks)) == Reply(v, used)
    ensures var taken := FirstReply(Fresh, chunks).1;
            && used <= |Concat(chunks[..taken])| <= |Concat(chunks)|
            && FirstReply(Fresh, chunks[taken..]).0 == AnswerTo(Run(Fresh, Concat(chunks)[|Concat(chunks[..taken])|..]))
            && (ReadEndsAt(chunks, used) ==>
                  FirstReply(Fresh, chunks[taken..]).0 == AnswerTo(Run(Fresh, Concat(chunks)[used..])))
  {
    hide Run;
    NextCallInStep(chunks, v, used);
    ReadsToFirstReply(Fresh, chunks[FirstReply(Fresh, chunks).1..]);
  }

  /** The answers of n calls one after the other; one that waits, or fails, is the last. */
  function Calls(chunks: seq<seq<octet>>, n: nat): seq<Answer>
    decreases n
  {
    if n == 0 then []
    else
      var r := FirstReply(Fresh, chunks);
      [r.0] + (if r.0.Answer? then Calls(chunks[r.1..], n - 1) else [])
  }

  /** Where the n-th reply of a stream ends; where the last one does if there are fewer. */
  function EndOf(input: seq<octet>, n: nat): (end: nat)
    ensures end <= |input|
    decreases n
  {
    if n == 0 || !Run(Fresh, input).Reply? then 0
      else Run(Fresh, input).used + EndOf(input[Run(Fresh, input).used..], n - 1)
  }

  lemma FirstOfStream(input: seq<octet>, i: nat)
    requires i < |Feed(Fresh, input).values|
    ensures var o := Run(Fresh, input);
            && o.Reply? && 0 < o.used <= |input|
            && Feed(Fresh, input).values == [o.v] + Feed(Fresh, input[o.used..]).values
            && EndOf(input, i + 1) == o.used + EndOf(input[o.used..], i)
  {
    hide Run;
  }

  lemma OneCall(chunks: seq<seq<octet>>, n: nat)
    requires n > 0
    ensures var r := FirstReply(Fresh, chunks);
            Calls(chunks, n) == [r.0] + (if r.0.Answer? then Calls(chunks[r.1..], n - 1) else [])
  {
  }

  lemma NoCalls(chunks: seq<seq<octet>>, input: seq<octet>)
    ensures Calls(chunks, 0) == [] && EndOf(input, 0) == 0
  {
  }

  /** The reads behind the first call, when the first reply ends where a read ends. */
  lemma RestInStep(chunks: seq<seq<octet>>, n: nat)
    requires 1 < n <= |Feed(Fresh, Concat(chunks)).values|
    requires forall i | 0 < i < n :: ReadEndsAt(chunks, EndOf(Concat(chunks), i))
    ensures var rest := chunks[FirstReply(Fresh, chunks).1..];
            && Feed(Fresh, Concat(chunks)).values[1..] == Feed(Fresh, Concat(rest)).values
            && n - 1 <= |Feed(Fresh, Concat(rest)).values|
            && forall i | 0 < i < n - 1 :: ReadEndsAt(rest, EndOf(Concat(rest), i))
  {
    hide Run, Feed, EndOf, FirstReply, ReadEndsAt;
    var stream, taken := Concat(chunks), FirstReply(Fresh, chunks).1;
    FirstOfStream(stream, 0);
    var used, rest := Run(Fresh, stream).used, chunks[taken..];
    NoCalls(chunks, stream[used..]);
    assert ReadEndsAt(chunks, EndOf(stream, 1));
    NextCallInStep(chunks, Run(Fresh, stream).v, used);
    forall i | 0 < i < n - 1 ensures ReadEndsAt(rest, EndOf(Concat(rest), i)) {
      FirstOfStream(stream, i);
      assert ReadEndsAt(chunks, EndOf(stream, i + 1));
      LaterRead(chunks, taken, used, EndOf(Concat(rest), i));
    }
  }

  lemma {:induction false} CallsFollowStream(chunks: seq<seq<octet>>, n: nat)
    requires n <= |Feed(Fresh, Concat(chunks)).values|
    requires forall i | 0 < i < n :: ReadEndsAt(chunks, EndOf(Concat(chunks), i))
    ensures |Calls(chunks, n)| == n
    ensures forall i | 0 <= i < n :: Calls(chunks, n)[i] == Answer(Feed(Fresh, Concat(chunks)).values[i])
    decreases n
  {
    hide Run, Feed, EndOf, FirstReply, ReadEndsAt, Calls;
    NoCalls(chunks, []);
    if n > 0 {
      FirstOfStream(Concat(chunks), 0);
      ReadsToFirstReply(Fresh, chunks);
      OneCall(chunks, n);
      var rest := chunks[FirstReply(Fresh, chunks).1..];
      if n > 1 {
        RestInStep(chunks, n);
        CallsFollowStream(rest, n - 1);
        var values := Feed(Fresh, Concat(chunks)).values;
        forall i | 0 < i < n ensures Calls(chunks, n)[i] == Answer(values[i]) {
          assert Calls(chunks, n)[i] == Calls(rest, n - 1)[i - 1] && values[i] == values[1..][i - 1];
        }
      } else {
        NoCalls(rest, []);
      }
    }
  }

  /** If every reply but the last one asked for ends where a read ends, the calls answer with
      the replies of the stream, the k-th call with the k-th reply. */
  lemma CallsInStep(chunks: seq<seq<octet>>, n: nat)
    requires n <= |DecodeStream(Concat(chunks)).0|
    requires forall i | 0 < i < n :: ReadEndsAt(chunks, EndOf(Concat(chunks), i))
    ensures |Calls(chunks, n)| == n
    ensures forall i | 0 <= i < n :: Calls(chunks, n)[i] == Answer(DecodeStream(Concat(chunks)).0[i])
  {
    FeedDecodes(Concat(chunks));
    CallsFollowStream(chunks, n);
  }

  lemma LaterRead(chunks: seq<seq<octet>>, taken: nat, used: nat, more: nat)
    requires taken <= |chunks| && |Concat(chunks[..taken])| == used && ReadEndsAt(chunks, used + more)
    ensures ReadEndsAt(chunks[taken..], more)
  {
    var k: nat :| k <= |chunks| && |Concat(chunks[..k])| == used + more;
    if k < taken {
      PrefixesGrow(chunks, k, taken);
      assert chunks[taken..][..0] == [];
      assert |Concat(chunks[taken..][..0])| == more;
    } else {
      PrefixesGrow(chunks, taken, k);
      assert |Concat(chunks[taken..][..k - taken])| == more;
    }
  }

  lemma LastLetter(c: octet)
    requires IsText(c)
    ensures Run(Fresh, [43, c, 13, 10]) == Reply(Bytes([c]), 4)
    ensures Feed(Fresh, [43, c, 13, 10]) == Feeding([Bytes([c])], Pending(Fresh))
  {
    hide Run;
    OneLetter(c, []);
    assert [43, c, 13, 10] + [] == [43, c, 13, 10];
    RunEmpty(Fresh);
    assert Feed(Fresh, []) == Feeding([], Pending(Fresh));
  }

  lemma TwoLetters(a: octet, b: octet)
    requires IsText(a) && IsText(b)
    ensures Run(Fresh, [43, a, 13, 10, 43, b, 13, 10]) == Reply(Bytes([a]), 4)
    ensures Feed(Fresh, [43, a, 13, 10, 43, b, 13, 10]) == Feeding([Bytes([a]), Bytes([b])], Pending(Fresh))
  {
    hide Run;
    LastLetter(b);
    OneLetter(a, [43, b, 13, 10]);
    var r: seq<octet> := [43, a, 13, 10, 43, b, 13, 10];
    assert r == [43, a, 13, 10] + [43, b, 13, 10] && r[4..] == [43, b, 13, 10];
  }

  /** A read with two replies in it loses the second: the next call gets the third. */
  lemma SecondReplyLost()
    ensures var chunks := [[43, 97, 13, 10, 43, 98, 13, 10], [43, 99, 13, 10]];
            && DecodedValues(chunks) == [Bytes([97]), Bytes([98]), Bytes([99])]
            && FirstReply(Fresh, chunks) == (Answer(Bytes([97])), 1)
            && Calls(chunks, 2) == [Answer(Bytes([97])), Answer(Bytes([99]))]
  {
    hide Run;
    var r0, r1: seq<octet> := [43, 97, 13, 10, 43, 98, 13, 10], [43, 99, 13, 10];
    var chunks := [r0, r1];
    ReadsDoNotMatter(Fresh, chunks);
    TwoLetters(97, 98);
    LastLetter(99);
    assert chunks[1..] == [r1] && [r1][1..] == [];
    assert FeedAll(Fresh, [r1]).values == [Bytes([99])];
    assert Calls([r1], 1) == [Answer(Bytes([99]))] by { assert Calls([], 0) == []; }
  }

  function DecodedValues(chunks: seq<seq<octet>>): seq<Value> {
    FeedAll(Fresh, chunks).values
  }

  lemma OneLetter(c: octet, rest: seq<octet>)
    requires IsText(c)
    ensures Run(Fresh, [43, c, 13, 10] + rest) == Reply(Bytes([c]), 4)
  {
    var input := [43, c, 13, 10] + rest;
    assert input[1..] == [c, 13, 10] + rest && input[1..][1..] == [13, 10] + rest;
    assert input[1..][1..][1..] == [10] + rest;
    assert [] + [c] == [c];
    assert Run(Machine(LineLF(Simple, [c]), []), [10] + rest) == Reply(Bytes([c]), 1);
    assert Run(Machine(Line(Simple, [c]), []), [13, 10] + rest) == Reply(Bytes([c]), 2);
    assert Run(Machine(Line(Simple, []), []), [c, 13, 10] + rest) == Reply(Bytes([c]), 3);
  }

  class SyncClient {
    const redisParser: P.RedisParser
    var written: seq<octet>

    constructor ()
      ensures fresh(redisParser) && redisParser.Valid() && redisParser.Suspended() == Fresh && written == []
    {
      redisParser := new P.RedisParser();
      written := [];
    }

    /** `chunks` is what the socket will deliver, `taken` how many reads the call made;
        Waiting means that it would read once more. The write may fail after some bytes. */
    method DoSyncCommand(items: seq<seq<octet>>, chunks: seq<seq<octet>>, failsAfter: Option<nat>)
      returns (answer: Answer, taken: nat)
      requires redisParser.Valid()
      modifies this`written, redisParser
      ensures failsAfter == None ==>
                && written == old(written) + Command(items)
                && (answer, taken) == FirstReply(old(redisParser.Suspended()), chunks)
      ensures failsAfter.Some? ==>
                && old(written) <= written <= old(written) + Command(items)
                && answer == WriteError && taken == 0 && redisParser.Valid()
                && redisParser.Suspended() == old(redisParser.Suspended())
      ensures answer.Answer? ==> redisParser.Valid() && redisParser.Suspended() == Fresh
    {
      hide Run;
      var data := MakeCommand(items);
      if failsAfter.Some? {
        written := written + if failsAfter.value < |data| then data[..failsAfter.value] else data;
        return WriteError, 0;
      }
      written := written + data;
      ghost var m0 := redisParser.Suspended();
      taken := 0;
      assert chunks[0..] == chunks;
      while taken < |chunks|
        invariant taken <= |chunks| && redisParser.Valid()
        invariant var r := FirstReply(redisParser.Suspended(), chunks[taken..]);
                  FirstReply(m0, chunks) == (r.0, r.1 + taken)
        modifies redisParser
      {
        var inbuff := chunks[taken];
        ghost var rest := chunks[taken..];
        assert rest[0] == inbuff && rest[1..] == chunks[taken + 1..];
        RunEmpty(redisParser.Suspended());
        taken := taken + 1;
        var pos := 0;
        ghost var m := redisParser.Suspended();
        assert inbuff[0..] == inbuff;
        while pos < |inbuff|
          invariant redisParser.Valid() && (pos == 0 || pos == |inbuff|)
          invariant pos == 0 ==> redisParser.Suspended() == m
          invariant pos == |inbuff| ==> Run(m, inbuff) == Pending(redisParser.Suspended())
          modifies redisParser
        {
          var used, result := redisParser.Parse(inbuff[pos..]);
          if result == P.Completed {
            var v := redisParser.Result();
            answer := Answer(v);
            return;
          } else if result == P.Incompleted {
            pos := pos + used;
          } else {
            answer := ParserError;
            return;
          }
        }
      }
      answer := Waiting;
    }
  }
}
