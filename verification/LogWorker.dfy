/** The asynchronous log helper: clients push messages into the bounded queue, and the worker,
    thread 0 of the queue's machine, drains it into the sinks. */
module LogWorker {
  import opened MpmcQueue

  datatype Msg = Log(text: string) | Flush | Terminate

  datatype OverflowPolicy = BlockRetry | DiscardLogMsg

  datatype SinkCall = Logged(text: string) | Flushed

  datatype Worker = Worker(
    flushRequested: bool,
    terminateRequested: bool,
    running: bool,
    sinks: seq<SinkCall>)

  /** `begun` and `dropped` are history: the messages of all push_msg calls so far
      and those that a full queue made a call give up. */
  datatype System = System(
    queue: State<Msg>,
    worker: Worker,
    policy: OverflowPolicy,
    begun: multiset<Msg>,
    dropped: multiset<Msg>)

  /** A client calls push_msg or takes its next step; the worker takes its next step,
      where flushDue says that the flush interval has elapsed. */
  datatype Event =
    | Push(client: nat, msg: Msg)
    | ClientGo(client: nat, spurious: bool)
    | WorkerGo(spurious: bool, flushDue: bool)

  function Start(capacity: nat, threads: nat, policy: OverflowPolicy): System {
    System(InitState(capacity, threads, Flush), Worker(false, false, true, []), policy, multiset{}, multiset{})
  }

  predicate IsClient(sys: System, t: nat) {
    0 < t < |sys.queue.threads|
  }

  /** One atomic step of push_msg: a full queue is retried or the message is dropped. */
  function ClientStep(sys: System, t: nat, spurious: bool): System
    requires IsClient(sys, t)
  {
    var pc := sys.queue.threads[t];
    var queue := Step(sys.queue, Move(t, Go(spurious)));
    if Enqueuing(pc) && t < |queue.threads| && queue.threads[t].Idle? && queue.threads[t].last.Full? then
      match sys.policy
      case BlockRetry => sys.(queue := Step(queue, Move(t, CallEnqueue(pc.item))))
      case DiscardLogMsg => sys.(queue := queue, dropped := sys.dropped + multiset{pc.item})
    else sys.(queue := queue)
  }

  function Process(w: Worker, m: Msg): Worker {
    match m
    case Flush => w.(flushRequested := true)
    case Terminate => w.(flushRequested := true, terminateRequested := true)
    case Log(text) => w.(sinks := w.sinks + [Logged(text)])
  }

  /** The queue looked empty: the only place where the worker flushes or stops. */
  function QueueEmpty(w: Worker, flushDue: bool): Worker {
    var flushed := if w.flushRequested || flushDue
                   then w.(sinks := w.sinks + [Flushed], flushRequested := false) else w;
    flushed.(running := !w.terminateRequested)
  }

  function WorkerStep(sys: System, spurious: bool, flushDue: bool): System
    requires |sys.queue.threads| > 0
  {
    if !sys.worker.running then sys
    else if sys.queue.threads[0].Idle? then sys.(queue := Step(sys.queue, Move(0, CallDequeue)))
    else
      var queue := Step(sys.queue, Move(0, Go(spurious)));
      var worker :=
        if |queue.threads| > 0 && queue.threads[0].Idle? then
          match queue.threads[0].last
          case Dequeued(_, m) => Process(sys.worker, m)
          case _ => QueueEmpty(sys.worker, flushDue)
        else sys.worker;
      sys.(queue := queue, worker := worker)
  }

  function SystemStep(sys: System, e: Event): System {
    match e
    case Push(t, m) =>
      if IsClient(sys, t) && sys.queue.threads[t].Idle?
      then sys.(queue := Step(sys.queue, Move(t, CallEnqueue(m))), begun := sys.begun + multiset{m}) else sys
    case ClientGo(t, spurious) => if IsClient(sys, t) then ClientStep(sys, t, spurious) else sys
    case WorkerGo(spurious, flushDue) =>
      if |sys.queue.threads| > 0 then WorkerStep(sys, spurious, flushDue) else sys
  }

  function SystemRun(sys: System, events: seq<Event>): System
    decreases |events|
  {
    if events == [] then sys else SystemRun(SystemStep(sys, events[0]), events[1..])
  }

  // ---------- what the sinks have seen ----------

  function LogTexts(claims: seq<Claim<Msg>>): seq<string> {
    if claims == [] then [] else
      LogTexts(claims[..|claims| - 1])
      + (match claims[|claims| - 1].item case Log(text) => [text] case _ => [])
  }

  function SinkTexts(calls: seq<SinkCall>): seq<string> {
    if calls == [] then [] else
      SinkTexts(calls[..|calls| - 1])
      + (match calls[|calls| - 1] case Logged(text) => [text] case Flushed => [])
  }

  ghost predicate HasTerminate(claims: seq<Claim<Msg>>) {
    exists p | 0 <= p < |claims| :: claims[p].item == Terminate
  }

  /** Tickets the worker has processed: all it took, less the one it is reading. */
  function Processed(q: State<Msg>): nat
    requires |q.threads| > 0
  {
    if Holding(q.threads[0]) && q.deqPos > 0 then q.deqPos - 1 else q.deqPos
  }

  ghost predicate Roles(q: State<Msg>) {
    && |q.threads| > 0 && !Enqueuing(q.threads[0])
    && (forall t | 0 < t < |q.threads| :: q.threads[t].Idle? || Enqueuing(q.threads[t]))
    && (forall p | 0 <= p < |q.takes| :: q.takes[p] == 0)
    && (Holding(q.threads[0]) ==> q.threads[0].pos == q.deqPos - 1)
  }

  /** The worker after it has processed the given tickets. */
  ghost predicate WorkerOk(w: Worker, done: seq<Claim<Msg>>) {
    && SinkTexts(w.sinks) == LogTexts(done)
    && (w.terminateRequested <==> HasTerminate(done))
    && (w.running && w.terminateRequested ==> w.flushRequested)
    && (!w.running ==> w.terminateRequested && |w.sinks| > 0 && w.sinks[|w.sinks| - 1] == Flushed)
  }

  ghost predicate WorkerInv(sys: System) {
    && Inv(sys.queue) && Roles(sys.queue)
    && WorkerOk(sys.worker, sys.queue.claims[..Processed(sys.queue)])
  }

  lemma StartInv(capacity: nat, threads: nat, policy: OverflowPolicy)
    requires capacity >= 2 && threads > 0
    ensures WorkerInv(Start(capacity, threads, policy))
  {
    InitInv<Msg>(capacity, threads, Flush);
  }

  /** A client's queue step keeps the roles and what the worker has processed. */
  lemma ClientMove(q: State<Msg>, t: nat, act: Act<Msg>)
    requires Inv(q) && Roles(q) && 0 < t < |q.threads|
    requires act.CallEnqueue? || act.Go?
    ensures var q' := Step(q, Move(t, act));
            && Inv(q') && Roles(q') && q'.threads[0] == q.threads[0] && |q'.threads| == |q.threads|
            && q'.deqPos == q.deqPos && q.claims <= q'.claims && Processed(q') == Processed(q)
  {
    StepInv(q, Move(t, act));
  }

  lemma ClientInv(sys: System, t: nat, act: Act<Msg>, sys': System)
    requires WorkerInv(sys) && IsClient(sys, t) && (act.CallEnqueue? || act.Go?)
    requires sys'.worker == sys.worker && sys'.queue == Step(sys.queue, Move(t, act))
    ensures WorkerInv(sys')
  {
    ClientMove(sys.queue, t, act);
    var k := Processed(sys.queue);
    assert sys'.queue.claims[..k] == sys.queue.claims[..k];
  }

  /** A worker step after which its call is still running. */
  lemma QuietMove(q: State<Msg>, act: Act<Msg>)
    requires Inv(q) && Roles(q) && (act.CallDequeue? || act.Go?)
    ensures var q' := Step(q, Move(0, act));
            |q'.threads| > 0 && (!q'.threads[0].Idle? ==>
              Inv(q') && Roles(q') && q'.claims == q.claims && Processed(q') == Processed(q))
  {
    assert ThreadOk(q, 0);
    StepInv(q, Move(0, act));
  }

  lemma Delivery(q: State<Msg>, spurious: bool)
    requires Inv(q) && Roles(q) && !q.threads[0].Idle?
    ensures var q' := Step(q, Move(0, Go(spurious)));
            && Inv(q') && Roles(q') && q'.claims == q.claims
            && (q'.threads[0].Idle? ==>
                if q'.threads[0].last.Dequeued?
                then Processed(q) < |q.claims| && Processed(q') == Processed(q) + 1
                     && q'.threads[0].last.item == q.claims[Processed(q)].item
                else Processed(q') == Processed(q))
  {
    CellsThere(q);
    WorkerMoves(q, spurious);
    if q.threads[0].DeqStoreSeq? { ItemOfTicket(q); }
    StepInv(q, Move(0, Go(spurious)));
    hide Inv, Roles, Step, Processed;
  }

  lemma CellsThere(q: State<Msg>)
    requires Inv(q)
    ensures |q.cells| > 0
  {
  }

  /** What the worker is about to return is the message of its ticket. */
  lemma ItemOfTicket(q: State<Msg>)
    requires Inv(q) && |q.threads| > 0 && q.threads[0].DeqStoreSeq?
    ensures q.threads[0].pos < |q.claims| && q.threads[0].item == q.claims[q.threads[0].pos].item
  {
    assert ThreadOk(q, 0);
  }

  lemma WorkerMoves(q: State<Msg>, spurious: bool)
    requires Roles(q) && |q.cells| > 0 && !q.threads[0].Idle?
    ensures var q' := Step(q, Move(0, Go(spurious)));
            && Roles(q') && q'.claims == q.claims
            && (q'.threads[0].Idle? ==>
                  if q'.threads[0].last.Dequeued? then
                    && q.threads[0].DeqStoreSeq? && q.threads[0].pos == Processed(q)
                    && Processed(q') == Processed(q) + 1 && q'.threads[0].last.item == q.threads[0].item
                  else Processed(q') == Processed(q))
  {
    hide EnqueueStep;
  }

  lemma ProcessKeeps(w: Worker, claims: seq<Claim<Msg>>, k: nat)
    requires k < |claims| && w.running && WorkerOk(w, claims[..k])
    ensures WorkerOk(Process(w, claims[k].item), claims[..k + 1])
  {
    hide HasTerminate, SinkTexts, LogTexts;
    var m := claims[k].item;
    LogTextsMore(claims, k);
    TerminateMore(claims, k);
    if m.Log? { SinkTextsLogged(w.sinks, m.text); }
  }

  lemma LogTextsMore(claims: seq<Claim<Msg>>, k: nat)
    requires k < |claims|
    ensures LogTexts(claims[..k + 1])
            == if claims[k].item.Log? then LogTexts(claims[..k]) + [claims[k].item.text] else LogTexts(claims[..k])
  {
    assert claims[..k + 1][..k] == claims[..k];
    assert LogTexts(claims[..k]) + [] == LogTexts(claims[..k]);
  }

  lemma SinkTextsLogged(sinks: seq<SinkCall>, text: string)
    ensures SinkTexts(sinks + [Logged(text)]) == SinkTexts(sinks) + [text]
  {
    assert (sinks + [Logged(text)])[..|sinks|] == sinks;
  }

  lemma TerminateMore(claims: seq<Claim<Msg>>, k: nat)
    requires k < |claims|
    ensures HasTerminate(claims[..k + 1]) <==> HasTerminate(claims[..k]) || claims[k].item == Terminate
  {
    if HasTerminate(claims[..k]) {
      var p :| 0 <= p < k && claims[..k][p].item == Terminate;
      assert claims[..k + 1][p].item == Terminate;
    } else if claims[k].item == Terminate {
      assert claims[..k + 1][k].item == Terminate;
    }
  }

  lemma QueueEmptyKeeps(w: Worker, flushDue: bool, done: seq<Claim<Msg>>)
    requires w.running && WorkerOk(w, done)
    ensures WorkerOk(QueueEmpty(w, flushDue), done)
  {
    assert (w.sinks + [Flushed])[..|w.sinks|] == w.sinks;
  }

  lemma WorkerInvStep(sys: System, spurious: bool, flushDue: bool)
    requires WorkerInv(sys)
    ensures WorkerInv(WorkerStep(sys, spurious, flushDue))
  {
    var q, sys' := sys.queue, WorkerStep(sys, spurious, flushDue);
    if sys.worker.running {
      if q.threads[0].Idle? {
        QuietMove(q, CallDequeue);
      } else {
        Delivery(q, spurious);
        if !sys'.queue.threads[0].Idle? {
          QuietMove(q, Go(spurious));
        } else if sys'.queue.threads[0].last.Dequeued? {
          ProcessKeeps(sys.worker, q.claims, Processed(q));
        } else {
          QueueEmptyKeeps(sys.worker, flushDue, q.claims[..Processed(q)]);
        }
      }
    }
  }

  lemma SystemStepInv(sys: System, e: Event)
    requires WorkerInv(sys)
    ensures WorkerInv(SystemStep(sys, e))
  {
    match e
    case Push(t, m) =>
      if IsClient(sys, t) && sys.queue.threads[t].Idle? { ClientInv(sys, t, CallEnqueue(m), SystemStep(sys, e)); }
    case ClientGo(t, spurious) =>
      if IsClient(sys, t) {
        var mid := sys.(queue := Step(sys.queue, Move(t, Go(spurious))));
        ClientInv(sys, t, Go(spurious), mid);
        var sys' := SystemStep(sys, e);
        if sys'.queue != mid.queue { ClientInv(mid, t, CallEnqueue(sys.queue.threads[t].item), sys'); }
      }
    case WorkerGo(spurious, flushDue) => WorkerInvStep(sys, spurious, flushDue);
  }

  lemma {:induction false} SystemRunInv(sys: System, events: seq<Event>)
    requires WorkerInv(sys)
    ensures WorkerInv(SystemRun(sys, events))
    decreases |events|
  {
    if events != [] {
      SystemStepInv(sys, events[0]);
      SystemRunInv(SystemStep(sys, events[0]), events[1..]);
    }
  }

  // ---------- drain on shutdown ----------

  lemma {:induction false} LogTextsGrow(claims: seq<Claim<Msg>>, i: nat, j: nat)
    requires i <= j <= |claims|
    ensures LogTexts(claims[..i]) <= LogTexts(claims[..j])
    decreases j
  {
    if i < j {
      LogTextsGrow(claims, i, j - 1);
      assert claims[..j][..j - 1] == claims[..j - 1];
    }
  }

  /** When the worker loop has ended, every log message with a ticket before the one
      terminate message was logged, each once and in ticket order, and the last thing
      the sinks saw is a flush. */
  lemma DrainOnShutdown(capacity: nat, threads: nat, policy: OverflowPolicy, events: seq<Event>, t: nat)
    requires capacity >= 2 && threads > 0
    requires var sys := SystemRun(Start(capacity, threads, policy), events);
             && !sys.worker.running
             && t < |sys.queue.claims| && sys.queue.claims[t].item == Terminate
             && (forall p | 0 <= p < |sys.queue.claims| :: sys.queue.claims[p].item == Terminate ==> p == t)
    ensures var sys := SystemRun(Start(capacity, threads, policy), events);
            && |sys.queue.threads| > 0 && t < Processed(sys.queue) <= |sys.queue.claims|
            && SinkTexts(sys.worker.sinks) == LogTexts(sys.queue.claims[..Processed(sys.queue)])
            && LogTexts(sys.queue.claims[..t]) <= SinkTexts(sys.worker.sinks)
            && |sys.worker.sinks| > 0 && sys.worker.sinks[|sys.worker.sinks| - 1] == Flushed
  {
    var sys := SystemRun(Start(capacity, threads, policy), events);
    StartInv(capacity, threads, policy);
    SystemRunInv(Start(capacity, threads, policy), events);
    var k := Processed(sys.queue);
    var p :| 0 <= p < k && sys.queue.claims[..k][p].item == Terminate;
    assert sys.queue.claims[p].item == Terminate;
    LogTextsGrow(sys.queue.claims, t, k);
  }

  // ---------- no message is lost on the way in ----------

  /** 1 for a push_msg call with message m that has not won a ticket yet. */
  function Unclaimed(pc: Pc<Msg>, m: Msg): nat {
    if (pc.EnqLoadPos? || pc.EnqLoadSeq? || pc.EnqCas?) && pc.item == m then 1 else 0
  }

  function Waiting(pcs: seq<Pc<Msg>>, m: Msg): nat {
    if pcs == [] then 0 else Waiting(pcs[1..], m) + Unclaimed(pcs[0], m)
  }

  function Claimed(claims: seq<Claim<Msg>>, m: Msg): nat {
    if claims == [] then 0
    else Claimed(claims[..|claims| - 1], m) + (if claims[|claims| - 1].item == m then 1 else 0)
  }

  lemma {:induction false} WaitingUpdate(pcs: seq<Pc<Msg>>, t: nat, pc: Pc<Msg>, m: Msg)
    requires t < |pcs|
    ensures Waiting(pcs[t := pc], m) + Unclaimed(pcs[t], m) == Waiting(pcs, m) + Unclaimed(pc, m)
  {
    if t > 0 {
      assert pcs[t := pc][1..] == pcs[1..][t - 1 := pc];
      WaitingUpdate(pcs[1..], t - 1, pc, m);
    } else {
      assert pcs[0 := pc][1..] == pcs[1..];
    }
  }

  /** Threads that are pushing m, or whose message m has a ticket. */
  function Accepted(q: State<Msg>, m: Msg): nat {
    Claimed(q.claims, m) + Waiting(q.threads, m)
  }

  lemma Moved(q: State<Msg>, q': State<Msg>, t: nat, m: Msg)
    requires t < |q.threads| == |q'.threads| && q'.threads == q.threads[t := q'.threads[t]]
    requires q'.claims == q.claims
             || (q.threads[t].EnqCas? && q'.threads[t].EnqStoreData?
                 && q'.claims == q.claims + [Claim(t, q.threads[t].item)])
    ensures q'.claims == q.claims ==>
              Accepted(q', m) + Unclaimed(q.threads[t], m) == Accepted(q, m) + Unclaimed(q'.threads[t], m)
    ensures q'.claims != q.claims ==> Accepted(q', m) == Accepted(q, m)
  {
    WaitingUpdate(q.threads, t, q'.threads[t], m);
    if q'.claims != q.claims { assert q'.claims[..|q.claims|] == q.claims; }
  }

  /** The message of a step that returns because the queue is full. */
  predicate GivesUp(q: State<Msg>, t: nat, spurious: bool)
    requires t < |q.threads| && |q.cells| > 0
  {
    Enqueuing(q.threads[t]) && EnqueueStep(q, t, spurious).threads[t].Idle?
    && EnqueueStep(q, t, spurious).threads[t].last.Full?
  }

  lemma EnqueueConserves(q: State<Msg>, t: nat, spurious: bool, m: Msg)
    requires t < |q.threads| && |q.cells| > 0 && Enqueuing(q.threads[t])
    ensures Accepted(EnqueueStep(q, t, spurious), m)
            + (if GivesUp(q, t, spurious) && q.threads[t].item == m then 1 else 0)
            == Accepted(q, m)
  {
    Moved(q, EnqueueStep(q, t, spurious), t, m);
  }

  lemma DequeueConserves(q: State<Msg>, t: nat, spurious: bool, m: Msg)
    requires t < |q.threads| && |q.cells| > 0 && !Enqueuing(q.threads[t])
    ensures Accepted(DequeueStep(q, t, spurious), m) == Accepted(q, m)
  {
    var q' := DequeueStep(q, t, spurious);
    assert q'.threads == q.threads[t := q'.threads[t]];
    Moved(q, q', t, m);
  }

  lemma CallConserves(q: State<Msg>, t: nat, act: Act<Msg>, m: Msg)
    requires t < |q.threads| && |q.cells| > 0 && q.threads[t].Idle? && !act.Go?
    ensures Accepted(Step(q, Move(t, act)), m)
            == Accepted(q, m) + (if act.CallEnqueue? && act.item == m then 1 else 0)
  {
    Moved(q, Step(q, Move(t, act)), t, m);
  }

  ghost predicate Conserved(sys: System, m: Msg) {
    && sys.begun[m] == Accepted(sys.queue, m) + sys.dropped[m]
    && (sys.policy == BlockRetry ==> sys.dropped[m] == 0)
  }

  lemma StepIsEnqueue(q: State<Msg>, t: nat, spurious: bool)
    requires t < |q.threads| && |q.cells| > 0 && Enqueuing(q.threads[t])
    ensures var q' := EnqueueStep(q, t, spurious);
            Step(q, Move(t, Go(spurious))) == q' && |q'.threads| == |q.threads| && q'.cells != []
  {
  }

  lemma ClientStepConserves(sys: System, t: nat, spurious: bool, m: Msg)
    requires |sys.queue.cells| > 0 && IsClient(sys, t) && Conserved(sys, m)
    ensures Conserved(ClientStep(sys, t, spurious), m)
  {
    hide EnqueueStep, DequeueStep, Accepted;
    var q := sys.queue;
    if Enqueuing(q.threads[t]) {
      EnqueueConserves(q, t, spurious, m);
      StepIsEnqueue(q, t, spurious);
      if GivesUp(q, t, spurious) {
        CallConserves(EnqueueStep(q, t, spurious), t, CallEnqueue(q.threads[t].item), m);
      }
    } else {
      DequeueConserves(q, t, spurious, m);
    }
  }

  lemma WorkerStepConserves(sys: System, spurious: bool, flushDue: bool, m: Msg)
    requires |sys.queue.cells| > 0 && Roles(sys.queue) && Conserved(sys, m)
    ensures Conserved(WorkerStep(sys, spurious, flushDue), m)
  {
    if sys.queue.threads[0].Idle? { CallConserves(sys.queue, 0, CallDequeue, m); }
    else { DequeueConserves(sys.queue, 0, spurious, m); }
  }

  lemma SystemStepConserves(sys: System, e: Event, m: Msg)
    requires WorkerInv(sys) && Conserved(sys, m)
    ensures Conserved(SystemStep(sys, e), m) && SystemStep(sys, e).policy == sys.policy
  {
    match e
    case Push(t, x) =>
      if IsClient(sys, t) && sys.queue.threads[t].Idle? { CallConserves(sys.queue, t, CallEnqueue(x), m); }
    case ClientGo(t, spurious) =>
      if IsClient(sys, t) { ClientStepConserves(sys, t, spurious, m); }
    case WorkerGo(spurious, flushDue) => WorkerStepConserves(sys, spurious, flushDue, m);
  }

  lemma {:induction false} WaitingNobody(pcs: seq<Pc<Msg>>, m: Msg)
    requires forall t | 0 <= t < |pcs| :: !Enqueuing(pcs[t])
    ensures Waiting(pcs, m) == 0
  {
    if pcs != [] { WaitingNobody(pcs[1..], m); }
  }

  lemma {:induction false} RunConserves(sys: System, events: seq<Event>, m: Msg)
    requires WorkerInv(sys) && Conserved(sys, m)
    ensures Conserved(SystemRun(sys, events), m) && SystemRun(sys, events).policy == sys.policy
    decreases |events|
  {
    if events != [] {
      SystemStepInv(sys, events[0]);
      SystemStepConserves(sys, events[0], m);
      RunConserves(SystemStep(sys, events[0]), events[1..], m);
    }
  }

  /** For every message: times pushed = times with a ticket + times still being pushed
      + times dropped. Under block_retry nothing is dropped, so once every push_msg
      has returned each message has exactly as many tickets as pushes. */
  lemma NothingLost(capacity: nat, threads: nat, policy: OverflowPolicy, events: seq<Event>, m: Msg)
    requires capacity >= 2 && threads > 0
    ensures var sys := SystemRun(Start(capacity, threads, policy), events);
            && sys.begun[m] == Claimed(sys.queue.claims, m) + Waiting(sys.queue.threads, m) + sys.dropped[m]
            && (policy == BlockRetry && (forall t | 0 <= t < |sys.queue.threads| :: !Enqueuing(sys.queue.threads[t]))
                ==> sys.begun[m] == Claimed(sys.queue.claims, m))
  {
    var sys0 := Start(capacity, threads, policy);
    StartInv(capacity, threads, policy);
    WaitingNobody(sys0.queue.threads, m);
    RunConserves(sys0, events, m);
    var sys := SystemRun(sys0, events);
    if forall t | 0 <= t < |sys.queue.threads| :: !Enqueuing(sys.queue.threads[t]) {
      WaitingNobody(sys.queue.threads, m);
    }
  }
}
