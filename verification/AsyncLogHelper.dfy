/** The log helper's own loops over the queue object: `push_msg` retries, `worker_loop` drains.
    Module LogWorker covers arbitrary interleavings. */
module AsyncLogHelper {
  import opened LogWorker
  import opened MpmcBoundedQueue

  /** The worker after some messages, one after the other. */
  function ProcessAll(w: Worker, msgs: seq<Msg>): Worker
    decreases |msgs|
  {
    if msgs == [] then w else ProcessAll(Process(w, msgs[0]), msgs[1..])
  }

  function Texts(msgs: seq<Msg>): seq<string> {
    if msgs == [] then [] else (if msgs[0].Log? then [msgs[0].text] else []) + Texts(msgs[1..])
  }

  lemma SinkTextsMore(calls: seq<SinkCall>, call: SinkCall)
    ensures SinkTexts(calls + [call]) == SinkTexts(calls) + (if call.Logged? then [call.text] else [])
  {
    assert (calls + [call])[..|calls|] == calls;
  }

  lemma ProcessOne(w: Worker, m: Msg)
    ensures var r := Process(w, m);
            && SinkTexts(r.sinks) == SinkTexts(w.sinks) + (if m.Log? then [m.text] else []) && r.running == w.running
            && r.terminateRequested == (w.terminateRequested || m == Terminate)
            && r.flushRequested == (w.flushRequested || m == Flush || m == Terminate)
  {
    if m.Log? { SinkTextsMore(w.sinks, Logged(m.text)); }
    assert SinkTexts(w.sinks) + [] == SinkTexts(w.sinks);
  }

  lemma InFront(m: Msg, msgs: seq<Msg>)
    requires msgs != []
    ensures m in msgs <==> m == msgs[0] || m in msgs[1..]
  {
    assert msgs == [msgs[0]] + msgs[1..];
  }

  /** Messages are logged once each and in order, and the flags say what was asked for. */
  lemma {:induction false} ProcessAllLogs(w: Worker, msgs: seq<Msg>)
    ensures var r := ProcessAll(w, msgs);
            && SinkTexts(r.sinks) == SinkTexts(w.sinks) + Texts(msgs) && r.running == w.running
            && (r.terminateRequested <==> w.terminateRequested || Terminate in msgs)
            && (r.flushRequested <==> w.flushRequested || Flush in msgs || Terminate in msgs)
    decreases |msgs|
  {
    hide SinkTexts, Process;
    if msgs == [] {
      assert SinkTexts(w.sinks) + [] == SinkTexts(w.sinks);
    } else {
      ProcessOne(w, msgs[0]);
      InFront(Flush, msgs);
      InFront(Terminate, msgs);
      ProcessAllLogs(Process(w, msgs[0]), msgs[1..]);
      TextsStep(SinkTexts(w.sinks), msgs);
    }
  }

  lemma TextsStep(before: seq<string>, msgs: seq<Msg>)
    requires msgs != []
    ensures before + (if msgs[0].Log? then [msgs[0].text] else []) + Texts(msgs[1..]) == before + Texts(msgs)
  {
  }

  lemma FlushedLast(w: Worker, flushDue: bool)
    ensures var r := QueueEmpty(w, flushDue);
            && SinkTexts(r.sinks) == SinkTexts(w.sinks)
            && (w.flushRequested ==> |r.sinks| > 0 && r.sinks[|r.sinks| - 1] == Flushed)
  {
    SinkTextsMore(w.sinks, Flushed);
    assert SinkTexts(w.sinks) + [] == SinkTexts(w.sinks);
  }

  // ---------- what goes on while push_msg sleeps ----------

  /** The worker takes a turn, with a flush due or not, or another thread pushes once. */
  datatype Event = Handled(flushDue: bool) | Arrived(m: Msg)

  datatype State = State(queue: seq<Msg>, w: Worker)

  function After(s: State, e: Event, size: nat): State {
    match e
    case Handled(flushDue) =>
      if s.queue != [] then State(s.queue[1..], Process(s.w, s.queue[0]))
      else State([], QueueEmpty(s.w, flushDue).(running := s.w.running))
    case Arrived(m) => if |s.queue| < size then State(s.queue + [m], s.w) else s
  }

  function During(s: State, events: seq<Event>, size: nat): State
    decreases |events|
  {
    if events == [] then s else During(After(s, events[0], size), events[1..], size)
  }

  /** After the first sleep that leaves room; after the last one given the worker takes a turn. */
  function Roomy(s: State, naps: seq<seq<Event>>, size: nat): State
    decreases |naps|
  {
    if naps == [] then After(s, Handled(false), size)
    else
      var t := During(s, naps[0], size);
      if |t.queue| < size then t else Roomy(t, naps[1..], size)
  }

  /** The messages of other threads that found room. */
  function Came(s: State, events: seq<Event>, size: nat): seq<Msg>
    decreases |events|
  {
    if events == [] then []
    else
      (if events[0].Arrived? && |s.queue| < size then [events[0].m] else [])
      + Came(After(s, events[0], size), events[1..], size)
  }

  function CameBefore(s: State, naps: seq<seq<Event>>, size: nat): seq<Msg>
    decreases |naps|
  {
    if naps == [] then []
    else
      var t := During(s, naps[0], size);
      Came(s, naps[0], size) + (if |t.queue| < size then [] else CameBefore(t, naps[1..], size))
  }

  /** What has been logged and what will be. */
  function AllTexts(s: State): seq<string> {
    SinkTexts(s.w.sinks) + Texts(s.queue)
  }

  lemma {:induction false} TextsAppend(a: seq<Msg>, b: seq<Msg>)
    ensures Texts(a + b) == Texts(a) + Texts(b)
    decreases |a|
  {
    if a == [] {
      assert a + b == b;
    } else {
      assert (a + b)[1..] == a[1..] + b;
      TextsAppend(a[1..], b);
    }
  }

  lemma OneEvent(s: State, e: Event, size: nat)
    ensures AllTexts(After(s, e, size))
            == AllTexts(s) + Texts(if e.Arrived? && |s.queue| < size then [e.m] else [])
  {
    hide Process, SinkTexts;
    match e
    case Handled(flushDue) =>
      if s.queue != [] {
        ProcessOne(s.w, s.queue[0]);
        TextsStep(SinkTexts(s.w.sinks), s.queue);
      } else {
        FlushedLast(s.w, flushDue);
      }
    case Arrived(m) => TextsAppend(s.queue, [m]);
  }

  lemma {:induction false} DuringLosesNothing(s: State, events: seq<Event>, size: nat)
    ensures AllTexts(During(s, events, size)) == AllTexts(s) + Texts(Came(s, events, size))
    decreases |events|
  {
    hide After, AllTexts;
    if events == [] {
      assert AllTexts(s) + [] == AllTexts(s);
    } else {
      var t, e := After(s, events[0], size), events[0];
      var first := if e.Arrived? && |s.queue| < size then [e.m] else [];
      OneEvent(s, e, size);
      DuringLosesNothing(t, events[1..], size);
      TextsAppend(first, Came(t, events[1..], size));
    }
  }

  /** Whatever goes on in the meantime, there is room in the end, and every text is logged or
      queued once: those of before, then those of other threads that found room. */
  lemma {:induction false} RoomyLosesNothing(s: State, naps: seq<seq<Event>>, size: nat)
    requires 0 < |s.queue| == size
    ensures |Roomy(s, naps, size).queue| < size
    ensures AllTexts(Roomy(s, naps, size)) == AllTexts(s) + Texts(CameBefore(s, naps, size))
    decreases |naps|
  {
    hide During, AllTexts, Came, Texts, Process;
    if naps == [] {
      OneEvent(s, Handled(false), size);
      assert CameBefore(s, naps, size) == [];
    } else {
      var t := During(s, naps[0], size);
      DuringLosesNothing(s, naps[0], size);
      DuringFits(s, naps[0], size);
      if |t.queue| < size {
        assert Came(s, naps[0], size) + [] == Came(s, naps[0], size);
      } else {
        RoomyLosesNothing(t, naps[1..], size);
        TextsAppend(Came(s, naps[0], size), CameBefore(t, naps[1..], size));
      }
    }
  }

  lemma {:induction false} DuringFits(s: State, events: seq<Event>, size: nat)
    requires |s.queue| <= size
    ensures |During(s, events, size).queue| <= size
    decreases |events|
  {
    hide Process, QueueEmpty;
    if events != [] { DuringFits(After(s, events[0], size), events[1..], size); }
  }

  lemma NapsFrom(s: State, naps: seq<seq<Event>>, size: nat)
    ensures Roomy(s, naps, size)
            == if naps == [] then After(s, Handled(false), size)
               else if |During(s, naps[0], size).queue| < size then During(s, naps[0], size)
               else Roomy(During(s, naps[0], size), naps[1..], size)
  {
  }

  lemma {:induction false} DuringMore(s: State, events: seq<Event>, i: nat, size: nat)
    requires i < |events|
    ensures During(s, events[..i + 1], size) == After(During(s, events[..i], size), events[i], size)
    decreases i
  {
    hide After;
    if i > 0 {
      DuringMore(After(s, events[0], size), events[1..], i - 1, size);
      assert events[1..][..i] == events[..i + 1][1..] && events[1..][..i - 1] == events[..i][1..];
    } else {
      assert events[..1] == [events[0]] && events[..1][1..] == [] && events[..0] == [];
    }
  }

  lemma NoEvents(s: State, events: seq<Event>, size: nat)
    ensures During(s, events[..0], size) == s
  {
  }

  lemma OneTurn(s: State, size: nat)
    requires |s.queue| == size > 0
    ensures During(s, [Handled(false)], size) == After(s, Handled(false), size)
    ensures |After(s, Handled(false), size).queue| < size
  {
    assert [Handled(false)][1..] == [];
  }

  lemma ProcessFirst(w: Worker, msgs: seq<Msg>)
    ensures ProcessAll(w, msgs) == if msgs == [] then w else ProcessAll(Process(w, msgs[0]), msgs[1..])
  {
  }

  lemma {:induction false} ProcessThen(w: Worker, a: seq<Msg>, b: seq<Msg>)
    ensures ProcessAll(w, a + b) == ProcessAll(ProcessAll(w, a), b)
    decreases |a|
  {
    hide Process;
    if a == [] {
      assert a + b == b;
    } else {
      assert (a + b)[1..] == a[1..] + b;
      ProcessThen(Process(w, a[0]), a[1..], b);
    }
  }

  class Helper {
    const q: BoundedQueue<Msg>
    const overflowPolicy: OverflowPolicy
    var flushRequested: bool
    var terminateRequested: bool
    var running: bool
    var sinks: seq<SinkCall>

    function View(): Worker
      reads this
    {
      Worker(flushRequested, terminateRequested, running, sinks)
    }

    constructor (q: BoundedQueue<Msg>, policy: OverflowPolicy)
      ensures this.q == q && overflowPolicy == policy && View() == Worker(false, false, true, [])
    {
      this.q, overflowPolicy := q, policy;
      flushRequested, terminateRequested, running, sinks := false, false, true, [];
    }

    ghost function Now(): State
      reads this, q, q.buffer
      requires q.Valid()
    {
      State(q.Contents(), View())
    }

    /** A message is refused only by a full queue under discard_log_msg; otherwise it waits
        behind all that are there when a sleep has made room. `naps` says what goes on while
        push_msg sleeps for the first time, the second time, and so on. */
    method PushMsg(newMsg: Msg, naps: seq<seq<Event>>) returns (ok: bool)
      requires q.Valid()
      modifies this, q`enqueuePos, q`dequeuePos, q.buffer
      ensures q.Valid()
      ensures ok <==> !(old(|q.Contents()|) == q.buffer.Length && overflowPolicy == DiscardLogMsg)
      ensures var end :=
                if ok && old(|q.Contents()|) == q.buffer.Length then Roomy(old(Now()), naps, q.buffer.Length)
                else old(Now());
              Now() == end.(queue := end.queue + if ok then [newMsg] else [])
    {
      hide Roomy;
      ok := q.Enqueue(newMsg, 0);
      if !ok && overflowPolicy != DiscardLogMsg {
        RetryLoop(newMsg, naps);
        ok := true;
      }
      if !ok { assert q.Contents() + [] == q.Contents(); }
    }

    /** The retry loop, begun with a full queue: it ends when a sleep has made room. */
    method RetryLoop(newMsg: Msg, naps: seq<seq<Event>>)
      requires q.Valid() && |q.Contents()| == q.buffer.Length
      modifies this, q`enqueuePos, q`dequeuePos, q.buffer
      ensures q.Valid()
      ensures var end := Roomy(old(Now()), naps, q.buffer.Length);
              Now() == end.(queue := end.queue + [newMsg])
    {
      hide Roomy, During;
      ghost var all := Roomy(Now(), naps, q.buffer.Length);
      var left, ok := naps, false;
      while !ok
        invariant q.Valid()
        invariant ok ==> Now() == all.(queue := all.queue + [newMsg])
        invariant !ok ==> |q.Contents()| == q.buffer.Length && Roomy(Now(), left, q.buffer.Length) == all
        decreases !ok, |left|
      {
        NapsFrom(Now(), left, q.buffer.Length);
        OneTurn(Now(), q.buffer.Length);
        ok := Retry(newMsg, if left == [] then [Handled(false)] else left[0]);
        if left != [] { left := left[1..]; }
      }
    }

    /** One round of the retry loop. */
    method Retry(newMsg: Msg, nap: seq<Event>) returns (ok: bool)
      requires q.Valid()
      modifies this, q`enqueuePos, q`dequeuePos, q.buffer
      ensures q.Valid()
      ensures var end := During(old(Now()), nap, q.buffer.Length);
              && ok == (|end.queue| < q.buffer.Length) && |end.queue| <= q.buffer.Length
              && Now() == if ok then end.(queue := end.queue + [newMsg]) else end
    {
      hide During;
      Sleep(nap);
      ok := q.Enqueue(newMsg, 0);
    }

    /** What goes on meanwhile. */
    method Sleep(events: seq<Event>)
      requires q.Valid()
      modifies this, q`enqueuePos, q`dequeuePos, q.buffer
      ensures q.Valid() && Now() == During(old(Now()), events, q.buffer.Length)
    {
      hide Process, QueueEmpty, During;
      ghost var s0 := Now();
      NoEvents(s0, events, q.buffer.Length);
      for i := 0 to |events|
        invariant q.Valid() && Now() == During(s0, events[..i], q.buffer.Length)
      {
        DuringMore(s0, events, i, q.buffer.Length);
        match events[i] {
          case Handled(flushDue) => var _ := ProcessNextMsg(flushDue);
          case Arrived(m) => var _ := q.Enqueue(m, 0);
        }
      }
      assert events[..|events|] == events;
    }

    /** One message, or, when the queue looks empty, the place where flushing and stopping
        happen. */
    method ProcessNextMsg(flushDue: bool) returns (goOn: bool)
      requires q.Valid()
      modifies this, q`dequeuePos, q.buffer
      ensures q.Valid()
      ensures var was := old(q.Contents());
              if was != [] then
                goOn && q.Contents() == was[1..] && View() == Process(old(View()), was[0])
              else
                && q.Contents() == [] && View() == QueueEmpty(old(View()), flushDue).(running := old(running))
                && goOn == !terminateRequested
    {
      ghost var was := q.Contents();
      var some, incoming := q.Dequeue(0);
      if some {
        assert was[0] == incoming && was[1..] == q.Contents();
        match incoming {
          case Flush => flushRequested := true;
          case Terminate =>
            flushRequested := true;
            terminateRequested := true;
          case Log(text) => sinks := sinks + [Logged(text)];
        }
        return true;
      }
      HandleFlushInterval(flushDue);
      goOn := !terminateRequested;
    }

    method HandleFlushInterval(flushDue: bool)
      modifies this`sinks, this`flushRequested
      ensures View() == QueueEmpty(old(View()), flushDue).(running := running)
    {
      var shouldFlush := flushRequested || flushDue;
      if shouldFlush {
        sinks := sinks + [Flushed];
        flushRequested := false;
      }
    }

    /** Messages of other threads; those that a full queue refuses are not its concern. */
    method Arrive(msgs: seq<Msg>) returns (ghost came: seq<Msg>)
      requires q.Valid()
      modifies q`enqueuePos, q.buffer
      ensures q.Valid() && q.Contents() == old(q.Contents()) + came && |came| <= |msgs|
      ensures |old(q.Contents())| + |msgs| <= q.buffer.Length ==> came == msgs
      ensures forall m | m in came :: m in msgs
    {
      came := [];
      var i := 0;
      while i < |msgs|
        invariant 0 <= i <= |msgs| && q.Valid() && q.Contents() == old(q.Contents()) + came && |came| <= i
        invariant |old(q.Contents())| + |msgs| <= q.buffer.Length ==> came == msgs[..i]
        invariant forall m | m in came :: m in msgs
      {
        var ok := q.Enqueue(msgs[i], 0);
        if ok { came := came + [msgs[i]]; }
        i := i + 1;
      }
    }

    /** With a terminate message on its way the loop ends, having handled everything that
        was queued and everything that came before it looked at the queue for the last time,
        in order, and flushed last. `arrivals` says what is pushed before each look. */
    method WorkerLoop(arrivals: seq<seq<Msg>>, flushDue: bool) returns (ghost came: seq<Msg>)
      requires q.Valid() && running && (terminateRequested || Terminate in q.Contents())
      modifies this, q`enqueuePos, q`dequeuePos, q.buffer
      ensures q.Valid() && q.Contents() == [] && !running
      ensures View() == QueueEmpty(ProcessAll(old(View()), old(q.Contents()) + came), flushDue)
      ensures SinkTexts(sinks) == SinkTexts(old(sinks)) + Texts(old(q.Contents()) + came)
      ensures !old(terminateRequested) ==> |sinks| > 0 && sinks[|sinks| - 1] == Flushed
      ensures forall m | m in came :: exists k | 0 <= k < |arrivals| :: m in arrivals[k]
    {
      hide Process, SinkTexts, Texts, ProcessAll;
      ghost var w0, msgs := View(), q.Contents();
      came := [];
      assert msgs + came == msgs;
      var goOn := true;
      var k := 0;
      while goOn
        invariant q.Valid() && running && 0 <= k <= |arrivals|
        invariant goOn ==> ProcessAll(View(), q.Contents()) == ProcessAll(w0, msgs + came)
        invariant goOn ==> terminateRequested || Terminate in q.Contents()
        invariant forall m | m in came :: exists j | 0 <= j < |arrivals| :: m in arrivals[j]
        invariant !goOn ==>
                    q.Contents() == [] && View().(running := false) == QueueEmpty(ProcessAll(w0, msgs + came), flushDue)
        decreases |arrivals| - k, |q.Contents()|, goOn
      {
        if k < |arrivals| {
          ghost var queued := q.Contents();
          ghost var more := Arrive(arrivals[k]);
          ProcessThen(View(), queued, more);
          ProcessThen(w0, msgs + came, more);
          assert msgs + came + more == msgs + (came + more);
          came := came + more;
          k := k + 1;
        }
        ghost var rest := q.Contents();
        ProcessFirst(View(), rest);
        if rest != [] {
          ProcessOne(View(), rest[0]);
          InFront(Terminate, rest);
        }
        goOn := ProcessNextMsg(flushDue);
      }
      running := false;
      ProcessAllLogs(w0, msgs + came);
      FlushedLast(ProcessAll(w0, msgs + came), flushDue);
    }
  }
}
