/** The pipelining client while it is connected. Commands are written one after the other, and
    replies go to the waiting handlers in order; a handler may issue commands while it runs. */
module RedisClient {
  import opened Resp
  import opened RespStream
  import P = RedisParser

  type Handler = nat

  /** A handler called with a reply. */
  datatype Call = Call(handler: Handler, reply: Value)

  function Handlers(calls: seq<Call>): (hs: seq<Handler>)
    ensures |hs| == |calls| && (forall i | 0 <= i < |calls| :: hs[i] == calls[i].handler)
  {
    if calls == [] then [] else Handlers(calls[..|calls| - 1]) + [calls[|calls| - 1].handler]
  }

  function Replies(calls: seq<Call>): (vs: seq<Value>)
    ensures |vs| == |calls| && (forall i | 0 <= i < |calls| :: vs[i] == calls[i].reply)
  {
    if calls == [] then [] else Replies(calls[..|calls| - 1]) + [calls[|calls| - 1].reply]
  }

  /** The queue holds the last commands issued; those before it are written, and the front
      one of the queue is being written. */
  predicate InCommandOrder(issued: seq<seq<octet>>, queue: seq<seq<octet>>, writes: seq<seq<octet>>, writesDone: nat) {
    && |queue| <= |issued| && queue == issued[|issued| - |queue|..]
    && writes == issued[..if queue == [] then |issued| else |issued| - |queue| + 1]
    && writesDone == |issued| - |queue|
  }

  lemma CommandQueued(issued: seq<seq<octet>>, queue: seq<seq<octet>>, writes: seq<seq<octet>>, done: nat,
                      buff: seq<octet>)
    requires InCommandOrder(issued, queue, writes, done)
    ensures InCommandOrder(issued + [buff], queue + [buff], if queue == [] then writes + [buff] else writes, done)
  {
    assert queue == [] ==> (issued + [buff])[..|issued| + 1] == issued + [buff];
  }

  lemma WriteFinished(issued: seq<seq<octet>>, queue: seq<seq<octet>>, writes: seq<seq<octet>>, done: nat)
    requires InCommandOrder(issued, queue, writes, done)
    ensures done < |writes| <==> queue != []
    ensures queue != [] ==>
              InCommandOrder(issued, queue[1..], if |queue| > 1 then writes + [queue[1]] else writes, done + 1)
  {
    if |queue| > 1 { assert queue[1] == issued[|issued| - |queue| + 1]; }
  }

  /** A command that a handler issues while it runs, and who is to get its reply. */
  datatype Issue = Issue(buff: seq<octet>, handler: Handler)

  /** What a handler issues when it is called with a reply, as the n-th call of the run. */
  type Reaction = (Handler, Value, nat) -> seq<Issue>

  function Buffs(issues: seq<Issue>): (r: seq<seq<octet>>)
    ensures |r| == |issues|
  {
    if issues == [] then [] else Buffs(issues[..|issues| - 1]) + [issues[|issues| - 1].buff]
  }

  function Targets(issues: seq<Issue>): (r: seq<Handler>)
    ensures |r| == |issues|
  {
    if issues == [] then [] else Targets(issues[..|issues| - 1]) + [issues[|issues| - 1].handler]
  }

  /** Calls made and handlers waiting, commands issued and for whom; stuck once a reply has
      found no handler. */
  datatype Desk = Desk(calls: seq<Call>, handlers: seq<Handler>, issued: seq<seq<octet>>, issuedTo: seq<Handler>,
                       stuck: bool)

  /** A reply goes to the handler in front, which is taken off the queue after it has run:
      what it issues queues up behind all others. */
  function Attend(d: Desk, v: Value, reacts: Reaction): Desk {
    if d.stuck then d
    else if d.handlers == [] then d.(stuck := true)
    else
      var issues := reacts(d.handlers[0], v, |d.calls|);
      Desk(d.calls + [Call(d.handlers[0], v)], d.handlers[1..] + Targets(issues),
           d.issued + Buffs(issues), d.issuedTo + Targets(issues), false)
  }

  function AttendAll(d: Desk, values: seq<Value>, reacts: Reaction): Desk
    decreases |values|
  {
    if values == [] then d else AttendAll(Attend(d, values[0], reacts), values[1..], reacts)
  }

  /** Handlers called and waiting are those of the commands issued, in order. */
  predicate InTurn(d: Desk) {
    |d.issued| == |d.issuedTo| && d.issuedTo == Handlers(d.calls) + d.handlers
  }

  lemma AttendInTurn(d: Desk, v: Value, reacts: Reaction)
    requires InTurn(d)
    ensures var r := Attend(d, v, reacts);
            InTurn(r) && (!r.stuck ==> Replies(r.calls) == Replies(d.calls) + [v])
  {
    if !d.stuck && d.handlers != [] {
      assert (d.calls + [Call(d.handlers[0], v)])[..|d.calls|] == d.calls;
      assert d.handlers == [d.handlers[0]] + d.handlers[1..];
    }
  }

  /** Replies are handed over in order, whatever commands the handlers issue meanwhile. */
  lemma {:induction false} AttendAllInTurn(d: Desk, values: seq<Value>, reacts: Reaction)
    requires InTurn(d)
    ensures var r := AttendAll(d, values, reacts);
            InTurn(r) && InTurn(r.(stuck := false))
            && (!r.stuck ==> !d.stuck && Replies(r.calls) == Replies(d.calls) + values)
    decreases |values|
  {
    hide Replies, Handlers, Attend;
    if values == [] {
      assert Replies(d.calls) + values == Replies(d.calls);
    } else {
      AttendInTurn(d, values[0], reacts);
      AttendAllInTurn(Attend(d, values[0], reacts), values[1..], reacts);
      AttendAllStuck(d, values, reacts);
      assert Replies(d.calls) + values == Replies(d.calls) + [values[0]] + values[1..];
    }
  }

  lemma {:induction false} AttendAllStuck(d: Desk, values: seq<Value>, reacts: Reaction)
    ensures d.stuck ==> AttendAll(d, values, reacts) == d
    decreases |values|
  {
    if d.stuck && values != [] { AttendAllStuck(Attend(d, values[0], reacts), values[1..], reacts); }
  }

  /** A server that answers no more than it was asked never finds the client without a handler. */
  lemma {:induction false} EnoughHandlers(d: Desk, values: seq<Value>, reacts: Reaction)
    requires !d.stuck && |values| <= |d.handlers|
    ensures !AttendAll(d, values, reacts).stuck
    decreases |values|
  {
    if values != [] { EnoughHandlers(Attend(d, values[0], reacts), values[1..], reacts); }
  }

  /** Nothing happens after `failed`: the error handler throws. */
  class RedisClient {
    const redisParser: P.RedisParser
    const reacts: Reaction
    /** Commands not yet written; the front one is being written. */
    var queue: seq<seq<octet>>
    var handlers: seq<Handler>
    /** What has been asked of the socket, and what the handlers were called with. */
    var writes: seq<seq<octet>>
    var calls: seq<Call>
    var failed: bool

    ghost var issued: seq<seq<octet>>
    ghost var issuedTo: seq<Handler>
    ghost var writesDone: nat
    ghost var received: seq<octet>

    ghost function View(): Desk
      reads `calls, `handlers, `issued, `issuedTo
    {
      Desk(calls, handlers, issued, issuedTo, false)
    }

    /** Writes go out in command order and one is outstanding exactly when the queue is not
        empty. This holds while a handler runs, too. */
    ghost predicate WritesInOrder()
      reads `issued, `queue, `writes, `writesDone
    {
      InCommandOrder(issued, queue, writes, writesDone)
    }

    /** ... handlers are called in command order, and the replies handled are those of the
        bytes received. */
    ghost predicate Valid()
      reads this, redisParser
    {
      && WritesInOrder() && InTurn(View())
      && (!failed ==>
            redisParser.Valid()
            && Feed(Fresh, received) == Feeding(Replies(calls), Pending(redisParser.Suspended())))
    }

    constructor (reacts: Reaction)
      ensures Valid() && fresh(redisParser) && !failed && this.reacts == reacts
      ensures View() == Desk([], [], [], [], false) && received == [] && writes == []
    {
      this.reacts := reacts;
      redisParser := new P.RedisParser();
      queue, handlers, writes, calls, failed := [], [], [], [], false;
      issued, issuedTo, writesDone, received := [], [], 0, [];
    }

    /** May be called from a handler, whose own entry is still in front of `handlers` then. */
    method DoAsyncCommand(buff: seq<octet>, handler: Handler)
      requires WritesInOrder()
      modifies `queue, `handlers, `writes, `issued, `issuedTo
      ensures WritesInOrder() && (old(Valid()) ==> Valid())
      ensures handlers == old(handlers) + [handler]
      ensures issued == old(issued) + [buff] && issuedTo == old(issuedTo) + [handler]
    {
      hide InCommandOrder, Handlers, Replies, Feed;
      CommandQueued(issued, queue, writes, writesDone, buff);
      queue := queue + [buff];
      handlers := handlers + [handler];
      issued := issued + [buff];
      issuedTo := issuedTo + [handler];
      if |queue| == 1 {
        writes := writes + [buff];
      }
      assert Handlers(calls) + (old(handlers) + [handler]) == Handlers(calls) + old(handlers) + [handler];
    }

    /** The outstanding write is complete; the queue is not empty, as the code asserts. */
    method AsyncWrite()
      requires Valid() && writesDone < |writes|
      modifies `queue, `writes, `writesDone
      ensures Valid() && writesDone == old(writesDone) + 1
    {
      hide InCommandOrder, Handlers, Replies, Feed;
      WriteFinished(issued, queue, writes, writesDone);
      queue := queue[1..];
      writesDone := writesDone + 1;
      if queue != [] {
        writes := writes + [queue[0]];
      }
    }

    /** The handler in front is called, issues its commands, and is then taken off. */
    method DoProcessMessage(v: Value)
      requires WritesInOrder() && !failed
      modifies `queue, `handlers, `writes, `calls, `failed, `issued, `issuedTo
      ensures WritesInOrder()
      ensures View() == Attend(old(View()), v, reacts).(stuck := false)
      ensures failed == Attend(old(View()), v, reacts).stuck
    {
      hide InCommandOrder;
      if handlers != [] {
        RunHandler(v);
        handlers := handlers[1..];
      } else {
        failed := true;
      }
    }

    /** `handlers.front()(v)` */
    method RunHandler(v: Value)
      requires WritesInOrder() && handlers != []
      modifies `queue, `handlers, `writes, `calls, `issued, `issuedTo
      ensures WritesInOrder() && calls == old(calls) + [Call(old(handlers)[0], v)]
      ensures var issues := reacts(old(handlers)[0], v, |old(calls)|);
              && handlers == old(handlers) + Targets(issues)
              && issued == old(issued) + Buffs(issues) && issuedTo == old(issuedTo) + Targets(issues)
    {
      hide InCommandOrder;
      var issues := reacts(handlers[0], v, |calls|);
      calls := calls + [Call(handlers[0], v)];
      for i := 0 to |issues|
        invariant WritesInOrder() && calls == old(calls) + [Call(old(handlers)[0], v)]
        invariant handlers == old(handlers) + Targets(issues[..i])
        invariant issued == old(issued) + Buffs(issues[..i]) && issuedTo == old(issuedTo) + Targets(issues[..i])
      {
        assert issues[..i + 1][..i] == issues[..i];
        DoAsyncCommand(issues[i].buff, issues[i].handler);
      }
      assert issues[..|issues|] == issues;
    }

    /** One round of the read loop: the next reply and its handler, if there is one. */
    method ReadReply(input: seq<octet>) returns (used: nat, more: bool)
      requires !failed && redisParser.Valid() && WritesInOrder()
      modifies `queue, `handlers, `writes, `calls, `failed, `issued, `issuedTo, redisParser
      ensures WritesInOrder()
      ensures match Run(old(redisParser.Suspended()), input)
              case Reply(v, n) =>
                var d := Attend(old(View()), v, reacts);
                && View() == d.(stuck := false) && failed == d.stuck && more == !d.stuck
                && used == n && redisParser.Valid() && redisParser.Suspended() == Fresh
              case Malformed(_) => !more && failed && View() == old(View())
              case Pending(m) =>
                && !more && !failed && View() == old(View())
                && redisParser.Valid() && redisParser.Suspended() == m
    {
      hide Run, Attend, InCommandOrder;
      var result;
      used, result := redisParser.Parse(input);
      if result == P.Completed {
        var reply := redisParser.Result();
        assert redisParser.Suspended() == Fresh;
        DoProcessMessage(reply);
        more := !failed;
      } else {
        failed := result == P.Error;
        more := false;
      }
    }

    /** One read: its replies are handed over one after the other. It fails exactly if it is
        empty or malformed, or if a reply finds no handler waiting. */
    method AsyncRead(input: seq<octet>)
      requires Valid() && !failed
      modifies `queue, `handlers, `writes, `calls, `failed, `issued, `issuedTo, `received, redisParser
      ensures Valid() && received == old(received) + input
      ensures var f := Feed(old(redisParser.Suspended()), input);
              var d := AttendAll(old(View()), f.values, reacts);
              && View() == d.(stuck := false)
              && (failed <==> input == [] || d.stuck || !f.rest.Pending?)
    {
      hide Run, Feed, Handlers, Replies, Attend, AttendAll, InCommandOrder, InTurn;
      ghost var m0, d0 := redisParser.Suspended(), View();
      received := received + input;
      FeedSplit(Fresh, old(received), input);
      FeedUnfold(m0, []);
      ghost var all := Feed(m0, input);
      AttendAllInTurn(d0, all.values, reacts);
      NoneToAttend(d0, reacts);
      if |input| == 0 {
        failed := true;
        return;
      }
      var pos := 0;
      var more := true;
      ghost var fed: seq<Value> := [];
      assert input[0..] == input;
      while pos < |input| && more
        invariant pos <= |input| && more && !failed && redisParser.Valid() && WritesInOrder()
        invariant var f := Feed(redisParser.Suspended(), input[pos..]);
                  all == Feeding(fed + f.values, Shift(f.rest, pos))
                  && AttendAll(d0, all.values, reacts) == AttendAll(View(), f.values, reacts)
        modifies `queue, `handlers, `writes, `calls, `failed, `issued, `issuedTo, redisParser
      {
        ghost var m, rest, d := redisParser.Suspended(), input[pos..], View();
        ghost var o := Run(m, rest);
        FeedUnfold(m, rest);
        NoneToAttend(d, reacts);
        if o.Reply? {
          NextRound(m0, input, pos, m, fed);
          AttendNext(d, o.v, Feed(Fresh, input[pos + o.used..]).values, reacts);
        }
        var used;
        used, more := ReadReply(input[pos..]);
        if !more {
          assert o.Pending? ==> fed + [] == fed;
          return;
        }
        fed := fed + [o.v];
        pos := pos + used;
      }
      FeedUnfold(redisParser.Suspended(), []);
      NoneToAttend(View(), reacts);
      assert input[pos..] == [] && fed + [] == fed;
    }

    /** The k-th reply handled went to the handler of the k-th command and is the k-th
        reply of everything received; the commands are written in the order in which they
        were issued, by whomever. */
    lemma KthReply(k: nat)
      requires Valid() && !failed && k < |calls|
      ensures k < |issuedTo| && k < |DecodeStream(received).0|
      ensures calls[k] == Call(issuedTo[k], DecodeStream(received).0[k])
      ensures |handlers| == |issuedTo| - |calls|
      ensures writes <= issued && |issued| == |issuedTo|
    {
      FeedDecodes(received);
      assert issuedTo[k] == Handlers(calls)[k];
      assert Replies(calls)[k] == calls[k].reply;
    }
  }

  lemma NoneToAttend(d: Desk, reacts: Reaction)
    ensures AttendAll(d, [], reacts) == d
  {
  }

  lemma AttendNext(d: Desk, v: Value, values: seq<Value>, reacts: Reaction)
    ensures AttendAll(d, [v] + values, reacts) == AttendAll(Attend(d, v, reacts), values, reacts)
    ensures Attend(d, v, reacts).stuck ==> AttendAll(d, [v] + values, reacts) == Attend(d, v, reacts)
  {
    assert ([v] + values)[1..] == values;
    AttendAllStuck(Attend(d, v, reacts), values, reacts);
  }

  /** The read loop after one more reply. */
  lemma NextRound(m0: Machine, input: seq<octet>, pos: nat, m: Machine, fed: seq<Value>)
    requires pos < |input| && Run(m, input[pos..]).Reply?
    requires var f := Feed(m, input[pos..]); Feed(m0, input) == Feeding(fed + f.values, Shift(f.rest, pos))
    ensures var o := Run(m, input[pos..]);
            && 0 < o.used <= |input| - pos
            && Feed(m0, input).values == fed + [o.v] + Feed(Fresh, input[pos + o.used..]).values
            && Feed(m0, input).rest == Shift(Feed(Fresh, input[pos + o.used..]).rest, pos + o.used)
  {
    hide Run, Feed;
    var rest := input[pos..];
    var o := Run(m, rest);
    FeedUnfold(m, rest);
    assert rest[o.used..] == input[pos + o.used..];
    var f := Feed(Fresh, rest[o.used..]);
    assert fed + ([o.v] + f.values) == fed + [o.v] + f.values;
    ShiftShift(f.rest, o.used, pos);
  }

  lemma FeedUnfold(m: Machine, input: seq<octet>)
    ensures var o := Run(m, input);
            if o.Reply? then
              var f := Feed(Fresh, input[o.used..]);
              Feed(m, input) == Feeding([o.v] + f.values, Shift(f.rest, o.used))
            else Feed(m, input) == Feeding([], o)
    ensures input == [] ==> Run(m, input) == Pending(m)
  {
  }
}
