/** Streams of replies: the read loop around the parser, over any division of the
    stream into reads. */
module RespStream {
  import opened Resp
  import opened RespDecode

  /** The replies completed by some input, and where it ends: inside a reply, or at an
      error with the number of bytes up to and including the offending one. */
  datatype Feeding = Feeding(values: seq<Value>, rest: Outcome)

  /** One read: parse again after every complete reply. */
  function Feed(m: Machine, input: seq<octet>): (f: Feeding)
    ensures !f.rest.Reply?
    decreases |input|
  {
    match Run(m, input)
    case Reply(v, used) =>
      var f := Feed(Fresh, input[used..]);
      Feeding([v] + f.values, Shift(f.rest, used))
    case o => Feeding([], o)
  }

  /** The reads one after the other; the first error ends the stream. */
  function FeedAll(m: Machine, chunks: seq<seq<octet>>): (f: Feeding)
    ensures !f.rest.Reply?
    decreases |chunks|
  {
    if chunks == [] then Feeding([], Pending(m))
    else
      var f := Feed(m, chunks[0]);
      match f.rest
      case Malformed(_) => f
      case Pending(m') =>
        var g := FeedAll(m', chunks[1..]);
        Feeding(f.values + g.values, Shift(g.rest, |chunks[0]|))
  }

  function Concat(chunks: seq<seq<octet>>): seq<octet> {
    if chunks == [] then [] else chunks[0] + Concat(chunks[1..])
  }

  /** The replies of a whole stream by recursive descent, and the offset of its first error. */
  function DecodeStream(input: seq<octet>): (r: (seq<Value>, Decoded))
    ensures !r.1.Got?
    decreases |input|
  {
    match Decode(input)
    case Got(v, used) =>
      var r := DecodeStream(input[used..]);
      ([v] + r.0, Later(r.1, used))
    case d => ([], d)
  }

  lemma ShiftShift(o: Outcome, a: nat, b: nat)
    ensures Shift(Shift(o, a), b) == Shift(o, a + b)
  {
  }

  lemma {:induction false} FeedSplit(m: Machine, a: seq<octet>, b: seq<octet>)
    ensures Feed(m, a + b) ==
            match Feed(m, a).rest
            case Pending(m') => Feeding(Feed(m, a).values + Feed(m', b).values, Shift(Feed(m', b).rest, |a|))
            case _ => Feed(m, a)
    decreases |a|
  {
    hide Run;
    RunSplit(m, a, b);
    match Run(m, a)
    case Reply(v, used) =>
      assert (a + b)[used..] == a[used..] + b;
      FeedSplit(Fresh, a[used..], b);
      var f := Feed(Fresh, a[used..]);
      if f.rest.Pending? {
        var g := Feed(f.rest.m, b);
        assert [v] + (f.values + g.values) == [v] + f.values + g.values;
        ShiftShift(g.rest, |a[used..]|, used);
      }
    case Pending(m') =>
      if Run(m', b).Reply? {
        assert (a + b)[|a| + Run(m', b).used..] == b[Run(m', b).used..];
        ShiftShift(Feed(Fresh, b[Run(m', b).used..]).rest, Run(m', b).used, |a|);
      }
      assert [] + Feed(m', b).values == Feed(m', b).values;
    case Malformed(_) =>
  }

  /** Segmentation is invisible: however a stream is cut into reads, the loop yields the
      same replies, the same suspended parser and the same first error offset. */
  lemma {:induction false} ReadsDoNotMatter(m: Machine, chunks: seq<seq<octet>>)
    ensures FeedAll(m, chunks) == Feed(m, Concat(chunks))
    decreases |chunks|
  {
    if chunks != [] {
      FeedSplit(m, chunks[0], Concat(chunks[1..]));
      var f := Feed(m, chunks[0]);
      if f.rest.Pending? { ReadsDoNotMatter(f.rest.m, chunks[1..]); }
    }
  }

  lemma {:induction false} FeedDecodes(input: seq<octet>)
    ensures Feed(Fresh, input).values == DecodeStream(input).0
    ensures Agree(Feed(Fresh, input).rest, DecodeStream(input).1)
    decreases |input|
  {
    DecodeIsRun(input);
    match Decode(input)
    case Got(v, used) =>
      FeedDecodes(input[used..]);
      ShiftAgrees(Feed(Fresh, input[used..]).rest, DecodeStream(input[used..]).1, used);
    case _ =>
  }

  /** The replies read from any division of a stream are those of the decoder. */
  lemma StreamDecodes(chunks: seq<seq<octet>>)
    ensures FeedAll(Fresh, chunks).values == DecodeStream(Concat(chunks)).0
    ensures Agree(FeedAll(Fresh, chunks).rest, DecodeStream(Concat(chunks)).1)
  {
    ReadsDoNotMatter(Fresh, chunks);
    FeedDecodes(Concat(chunks));
  }
}
