/** The bounded multi-producer multi-consumer queue as a machine of atomic steps. */
module MpmcQueue {
  // Every load, compare-exchange, data move and store of `enqueue` and `dequeue` is one step
  // of one thread; a schedule is any sequence of such steps by any number of threads. Steps
  // are sequentially consistent and the position counters are unbounded (module PositionBits
  // covers their 64-bit form).

  import opened PositionBits

  datatype Cell<T> = Cell(sequence: nat, data: T)

  /** What the last call of a thread returned. */
  datatype Outcome<T> =
    | Nothing
    | Enqueued(ticket: nat)
    | Full(pos: nat)
    | Dequeued(ticket: nat, item: T)
    | Empty(pos: nat)

  /** The program counter of a thread together with its local variables. */
  datatype Pc<T> =
    | Idle(last: Outcome<T>)
    | EnqLoadPos(item: T)
    | EnqLoadSeq(item: T, pos: nat)
    | EnqCas(item: T, pos: nat)
    | EnqStoreData(item: T, pos: nat)
    | EnqStoreSeq(item: T, pos: nat)
    | DeqLoadPos
    | DeqLoadSeq(pos: nat)
    | DeqCas(pos: nat)
    | DeqReadData(pos: nat)
    | DeqStoreSeq(pos: nat, item: T)

  datatype Claim<T> = Claim(producer: nat, item: T)

  /** `claims`, `takes` and `delivered` are history: no step reads them.
      claims[p] is who won ticket p with what item, takes[p] is the consumer that
      won ticket p, and delivered[p] is what that consumer returned. */
  datatype State<T> = State(
    cells: seq<Cell<T>>,
    enqPos: nat,
    deqPos: nat,
    threads: seq<Pc<T>>,
    claims: seq<Claim<T>>,
    takes: seq<nat>,
    delivered: map<nat, T>)

  /** A thread starts a call, or takes its next atomic step. A weak
      compare-exchange may also fail spuriously. */
  datatype Act<T> = CallEnqueue(item: T) | CallDequeue | Go(spurious: bool)

  datatype Move<T> = Move(thread: nat, act: Act<T>)

  // ---------- steps ----------

  predicate CapacityOk(n: nat) {
    n >= 2 && BitAnd(n, n - 1) == 0
  }

  function InitState<T>(n: nat, threads: nat, blank: T): State<T>
  {
    State(seq(n, i requires 0 <= i < n => Cell(i, blank)), 0, 0,
          seq(threads, i requires 0 <= i < threads => Idle(Nothing)), [], [], map[])
  }

  /** The cell of a position: its remainder by the capacity (see SlotIsRemainder). */
  function Slot(pos: int, n: nat): (k: nat)
    requires n > 0
    ensures k < n
    decreases if pos < 0 then n - pos else pos
  {
    if 0 <= pos < n then pos
    else if pos < 0 then Slot(pos + n, n)
    else Slot(pos - n, n)
  }

  function SetPc<T>(s: State<T>, t: nat, pc: Pc<T>): State<T>
    requires t < |s.threads|
  {
    s.(threads := s.threads[t := pc])
  }

  function EnqueueStep<T>(s: State<T>, t: nat, spurious: bool): State<T>
    requires t < |s.threads| && |s.cells| > 0
  {
    match s.threads[t]
    case EnqLoadPos(item) => SetPc(s, t, EnqLoadSeq(item, s.enqPos))
    case EnqLoadSeq(item, pos) =>
      var dif := s.cells[Slot(pos, |s.cells|)].sequence - pos;
      if dif == 0 then SetPc(s, t, EnqCas(item, pos))
      else if dif < 0 then SetPc(s, t, Idle(Full(pos)))
      else SetPc(s, t, EnqLoadPos(item))
    case EnqCas(item, pos) =>
      if s.enqPos == pos && !spurious then
        SetPc(s, t, EnqStoreData(item, pos)).(enqPos := pos + 1, claims := s.claims + [Claim(t, item)])
      else SetPc(s, t, EnqLoadSeq(item, s.enqPos))
    case EnqStoreData(item, pos) =>
      var k := Slot(pos, |s.cells|);
      SetPc(s, t, EnqStoreSeq(item, pos)).(cells := s.cells[k := s.cells[k].(data := item)])
    case EnqStoreSeq(item, pos) =>
      var k := Slot(pos, |s.cells|);
      SetPc(s, t, Idle(Enqueued(pos))).(cells := s.cells[k := s.cells[k].(sequence := pos + 1)])
    case _ => s
  }

  function DequeueStep<T>(s: State<T>, t: nat, spurious: bool): State<T>
    requires t < |s.threads| && |s.cells| > 0
  {
    match s.threads[t]
    case DeqLoadPos => SetPc(s, t, DeqLoadSeq(s.deqPos))
    case DeqLoadSeq(pos) =>
      var dif := s.cells[Slot(pos, |s.cells|)].sequence - (pos + 1);
      if dif == 0 then SetPc(s, t, DeqCas(pos))
      else if dif < 0 then SetPc(s, t, Idle(Empty(pos)))
      else SetPc(s, t, DeqLoadPos)
    case DeqCas(pos) =>
      if s.deqPos == pos && !spurious then
        SetPc(s, t, DeqReadData(pos)).(deqPos := pos + 1, takes := s.takes + [t])
      else SetPc(s, t, DeqLoadSeq(s.deqPos))
    case DeqReadData(pos) =>
      SetPc(s, t, DeqStoreSeq(pos, s.cells[Slot(pos, |s.cells|)].data))
    case DeqStoreSeq(pos, item) =>
      var k := Slot(pos, |s.cells|);
      SetPc(s, t, Idle(Dequeued(pos, item))).(
        cells := s.cells[k := s.cells[k].(sequence := pos + |s.cells|)],
        delivered := s.delivered[pos := item])
    case _ => s
  }

  predicate Enqueuing<T>(pc: Pc<T>) {
    pc.EnqLoadPos? || pc.EnqLoadSeq? || pc.EnqCas? || pc.EnqStoreData? || pc.EnqStoreSeq?
  }

  /** A move that its thread cannot make leaves the state as it is. */
  function Step<T>(s: State<T>, m: Move<T>): State<T>
  {
    if m.thread >= |s.threads| || |s.cells| == 0 then s
    else match m.act
      case CallEnqueue(item) => if s.threads[m.thread].Idle? then SetPc(s, m.thread, EnqLoadPos(item)) else s
      case CallDequeue => if s.threads[m.thread].Idle? then SetPc(s, m.thread, DeqLoadPos) else s
      case Go(spurious) =>
        if Enqueuing(s.threads[m.thread]) then EnqueueStep(s, m.thread, spurious)
        else DequeueStep(s, m.thread, spurious)
  }

  function Run<T>(s: State<T>, moves: seq<Move<T>>): State<T>
    decreases |moves|
  {
    if moves == [] then s else Run(Step(s, moves[0]), moves[1..])
  }

  // ---------- the invariant ----------

  /** The thread holds enqueue ticket p: it is between its compare-exchange and
      its store of the cell's sequence. */
  predicate Writing<T>(pc: Pc<T>, p: int) {
    (pc.EnqStoreData? || pc.EnqStoreSeq?) && pc.pos == p
  }

  predicate Reading<T>(pc: Pc<T>, p: int) {
    (pc.DeqReadData? || pc.DeqStoreSeq?) && pc.pos == p
  }

  predicate Shape<T>(s: State<T>) {
    && |s.cells| >= 2
    && s.deqPos <= s.enqPos <= s.deqPos + |s.cells|
    && |s.claims| == s.enqPos && |s.takes| == s.deqPos
    && (forall p | 0 <= p < |s.claims| :: s.claims[p].producer < |s.threads|)
    && (forall p | 0 <= p < |s.takes| :: s.takes[p] < |s.threads|)
  }

  /** The cell of ticket p, one of the last |cells| tickets claimed. */
  ghost predicate CellOk<T>(s: State<T>, p: int)
    requires Shape(s) && p < s.enqPos
  {
    var c := s.cells[Slot(p, |s.cells|)];
    if p < 0 then c.sequence == p + |s.cells|
    else if p >= s.deqPos then
      || (c.sequence == p && Writing(s.threads[s.claims[p].producer], p))
      || (c.sequence == p + 1 && c.data == s.claims[p].item)
    else
      || (c.sequence == p + 1 && c.data == s.claims[p].item
          && Reading(s.threads[s.takes[p]], p) && p !in s.delivered)
      || (c.sequence == p + |s.cells| && p in s.delivered)
  }

  ghost predicate ThreadOk<T>(s: State<T>, t: nat)
    requires Shape(s) && t < |s.threads|
  {
    var n := |s.cells|;
    match s.threads[t]
    case EnqLoadSeq(_, pos) => pos <= s.enqPos
    case EnqCas(_, pos) => pos <= s.enqPos && s.cells[Slot(pos, n)].sequence >= pos
    case EnqStoreData(item, pos) =>
      s.deqPos <= pos < s.enqPos && s.claims[pos] == Claim(t, item) && s.cells[Slot(pos, n)].sequence == pos
    case EnqStoreSeq(item, pos) =>
      s.deqPos <= pos < s.enqPos && s.claims[pos] == Claim(t, item)
      && s.cells[Slot(pos, n)] == Cell(pos, item)
    case DeqLoadSeq(pos) => pos <= s.deqPos
    case DeqCas(pos) => pos <= s.deqPos && s.cells[Slot(pos, n)].sequence >= pos + 1
    case DeqReadData(pos) =>
      s.enqPos - n <= pos < s.deqPos && s.takes[pos] == t && s.cells[Slot(pos, n)].sequence == pos + 1
    case DeqStoreSeq(pos, item) =>
      s.enqPos - n <= pos < s.deqPos && s.takes[pos] == t && s.cells[Slot(pos, n)].sequence == pos + 1
      && item == s.claims[pos].item
    case _ => true
  }

  ghost predicate HistoryOk<T>(s: State<T>)
    requires Shape(s)
  {
    && (forall p | p in s.delivered :: p < s.deqPos && s.delivered[p] == s.claims[p].item)
    && (forall p: nat | p < s.enqPos - |s.cells| :: p in s.delivered)
  }

  ghost predicate Inv<T>(s: State<T>) {
    && Shape(s)
    && HistoryOk(s)
    && (forall p | s.enqPos - |s.cells| <= p < s.enqPos :: CellOk(s, p))
    && (forall t: nat | t < |s.threads| :: ThreadOk(s, t))
  }

  // ---------- arithmetic of the ring ----------

  lemma {:induction false} SlotIsRemainder(pos: nat, n: nat)
    requires n > 0
    ensures Slot(pos, n) == pos % n
    decreases pos
  {
    if pos < n {
      RemainderUnique(pos, n, 0, pos);
    } else {
      SlotIsRemainder(pos - n, n);
      assert pos - n == n * ((pos - n) / n) + (pos - n) % n;
      RemainderUnique(pos, n, (pos - n) / n + 1, (pos - n) % n);
    }
  }

  lemma SlotShift(p: int, n: nat)
    requires n > 0
    ensures Slot(p + n, n) == Slot(p, n) && Slot(p - n, n) == Slot(p, n)
  {
    if p < 0 { assert Slot(p - n, n) == Slot(p, n); }
  }

  lemma {:induction false} SlotsDiffer(p: int, q: int, n: nat)
    requires n > 0 && p < q < p + n
    ensures Slot(p, n) != Slot(q, n)
    decreases if p < 0 then n - p else p
  {
    if p < 0 {
      SlotShift(q, n);
      SlotsDiffer(p + n, q + n, n);
    } else if p >= n {
      SlotsDiffer(p - n, q - n, n);
    }
  }

  /** The ticket among the last n before e that shares the slot of pos. */
  lemma WindowTicket(pos: nat, e: nat, n: nat) returns (q: int)
    requires n > 0 && pos <= e
    ensures e - n <= q < e && Slot(q, n) == Slot(pos, n)
    ensures pos < e ==> q >= pos
    ensures pos == e ==> q == e - n
    decreases e - pos
  {
    if pos == e {
      q := pos - n;
      SlotShift(pos, n);
    } else if pos >= e - n {
      q := pos;
    } else {
      SlotShift(pos, n);
      q := WindowTicket(pos + n, e, n);
    }
  }

  // ---------- the invariant holds in every run ----------

  lemma InitInv<T>(n: nat, threads: nat, blank: T)
    requires n >= 2
    ensures Inv(InitState(n, threads, blank))
  {
    var s := InitState(n, threads, blank);
    forall p | 0 - n <= p < 0 ensures CellOk(s, p) {
      SlotShift(p, n);
    }
  }

  predicate Holding<T>(pc: Pc<T>) {
    pc.EnqStoreData? || pc.EnqStoreSeq? || pc.DeqReadData? || pc.DeqStoreSeq?
  }

  /** A thread without a ticket moves to a program counter without a ticket. */
  lemma SetPcInv<T>(s: State<T>, t: nat, pc: Pc<T>)
    requires Inv(s) && t < |s.threads| && !Holding(s.threads[t]) && !Holding(pc)
    requires ThreadOk(SetPc(s, t, pc), t)
    ensures Inv(SetPc(s, t, pc))
  {
    var s' := SetPc(s, t, pc);
    forall p | s'.enqPos - |s'.cells| <= p < s'.enqPos ensures CellOk(s', p) {
      assert CellOk(s, p);
    }
    forall u: nat | u < |s'.threads| ensures ThreadOk(s', u) {
      assert ThreadOk(s, u);
    }
  }

  /** When enqueue_pos_ is still pos, the cell seen at sequence pos is free:
      this is where at least two cells are needed. */
  lemma FreeCell<T>(s: State<T>, pos: nat)
    requires Inv(s) && s.enqPos == pos && s.cells[Slot(pos, |s.cells|)].sequence >= pos
    ensures s.cells[Slot(pos, |s.cells|)].sequence == pos
    ensures pos < s.deqPos + |s.cells|
    ensures pos - |s.cells| >= 0 ==> pos - |s.cells| in s.delivered
  {
    var n := |s.cells|;
    SlotShift(pos, n);
    assert CellOk(s, pos - n);
  }

  lemma EnqueueCasThread<T>(s: State<T>, t: nat, u: nat)
    requires Inv(s) && t < |s.threads| && s.threads[t].EnqCas? && s.threads[t].pos == s.enqPos
    requires u < |s.threads| && Shape(EnqueueStep(s, t, false))
    ensures ThreadOk(EnqueueStep(s, t, false), u)
  {
    var n, pos := |s.cells|, s.enqPos;
    assert ThreadOk(s, t) && ThreadOk(s, u);
    FreeCell(s, pos);
    if Reading(s.threads[u], pos - n) {
      SlotShift(pos, n);
      assert CellOk(s, pos - n);
    }
  }

  lemma EnqueueCasInv<T>(s: State<T>, t: nat)
    requires Inv(s) && t < |s.threads| && s.threads[t].EnqCas? && s.threads[t].pos == s.enqPos
    ensures Inv(EnqueueStep(s, t, false))
  {
    var n, pos := |s.cells|, s.enqPos;
    var s' := EnqueueStep(s, t, false);
    assert ThreadOk(s, t);
    FreeCell(s, pos);
    assert HistoryOk(s') by {
      forall p: nat | p < s'.enqPos - n ensures p in s'.delivered {
        if p < s.enqPos - n { assert p in s.delivered; }
      }
    }
    forall p | s'.enqPos - n <= p < s'.enqPos ensures CellOk(s', p) {
      if p < pos { assert CellOk(s, p); }
    }
    forall u: nat | u < |s'.threads| ensures ThreadOk(s', u) {
      EnqueueCasThread(s, t, u);
    }
  }

  lemma EnqueueDataInv<T>(s: State<T>, t: nat)
    requires Inv(s) && t < |s.threads| && s.threads[t].EnqStoreData?
    ensures Inv(EnqueueStep(s, t, false))
  {
    var n, pos := |s.cells|, s.threads[t].pos;
    var s' := EnqueueStep(s, t, false);
    assert ThreadOk(s, t);
    forall p | s'.enqPos - n <= p < s'.enqPos ensures CellOk(s', p) {
      assert CellOk(s, p);
      OtherSlot(s, p, pos);
    }
    forall u: nat | u < |s'.threads| ensures ThreadOk(s', u) {
      assert ThreadOk(s, u);
      TicketSlot(s, u, pos);
    }
  }

  lemma EnqueueSeqInv<T>(s: State<T>, t: nat)
    requires Inv(s) && t < |s.threads| && s.threads[t].EnqStoreSeq?
    ensures Inv(EnqueueStep(s, t, false))
  {
    var n, pos := |s.cells|, s.threads[t].pos;
    var s' := EnqueueStep(s, t, false);
    assert ThreadOk(s, t);
    forall p | s'.enqPos - n <= p < s'.enqPos ensures CellOk(s', p) {
      assert CellOk(s, p);
      OtherSlot(s, p, pos);
    }
    forall u: nat | u < |s'.threads| ensures ThreadOk(s', u) {
      assert ThreadOk(s, u);
      TicketSlot(s, u, pos);
    }
  }

  /** Two tickets of the window with one slot are one ticket. */
  lemma OtherSlot<T>(s: State<T>, p: int, q: int)
    requires Shape(s)
    requires s.enqPos - |s.cells| <= p < s.enqPos && s.enqPos - |s.cells| <= q < s.enqPos
    ensures p != q ==> Slot(p, |s.cells|) != Slot(q, |s.cells|)
  {
    if p < q { SlotsDiffer(p, q, |s.cells|); } else if q < p { SlotsDiffer(q, p, |s.cells|); }
  }

  ghost function Ticket<T>(pc: Pc<T>): nat
    requires Holding(pc)
  {
    pc.pos
  }

  lemma TicketSlot<T>(s: State<T>, u: nat, q: int)
    requires Shape(s) && u < |s.threads| && ThreadOk(s, u)
    requires s.enqPos - |s.cells| <= q < s.enqPos
    ensures Holding(s.threads[u]) && Ticket(s.threads[u]) != q
            ==> Slot(Ticket(s.threads[u]), |s.cells|) != Slot(q, |s.cells|)
  {
    if Holding(s.threads[u]) { OtherSlot(s, Ticket(s.threads[u]), q); }
  }

  /** When dequeue_pos_ is still pos, the cell seen at sequence pos + 1 holds ticket pos. */
  lemma PublishedCell<T>(s: State<T>, pos: nat)
    requires Inv(s) && s.deqPos == pos && s.cells[Slot(pos, |s.cells|)].sequence >= pos + 1
    ensures pos < s.enqPos
    ensures s.cells[Slot(pos, |s.cells|)] == Cell(pos + 1, s.claims[pos].item)
  {
    var n := |s.cells|;
    SlotShift(pos, n);
    assert CellOk(s, if pos < s.enqPos then pos else pos - n);
  }

  lemma DequeueCasInv<T>(s: State<T>, t: nat)
    requires Inv(s) && t < |s.threads| && s.threads[t].DeqCas? && s.threads[t].pos == s.deqPos
    ensures Inv(DequeueStep(s, t, false))
  {
    var n, pos := |s.cells|, s.deqPos;
    var s' := DequeueStep(s, t, false);
    assert ThreadOk(s, t);
    PublishedCell(s, pos);
    forall p | s'.enqPos - n <= p < s'.enqPos ensures CellOk(s', p) {
      assert CellOk(s, p);
    }
    forall u: nat | u < |s'.threads| ensures ThreadOk(s', u) {
      assert ThreadOk(s, u);
    }
  }

  lemma DequeueDataInv<T>(s: State<T>, t: nat)
    requires Inv(s) && t < |s.threads| && s.threads[t].DeqReadData?
    ensures Inv(DequeueStep(s, t, false))
  {
    var n, pos := |s.cells|, s.threads[t].pos;
    var s' := DequeueStep(s, t, false);
    assert ThreadOk(s, t);
    assert CellOk(s, pos);
    forall p | s'.enqPos - n <= p < s'.enqPos ensures CellOk(s', p) {
      assert CellOk(s, p);
    }
    forall u: nat | u < |s'.threads| ensures ThreadOk(s', u) {
      assert ThreadOk(s, u);
    }
  }

  lemma DequeueSeqHistory<T>(s: State<T>, t: nat)
    requires Inv(s) && t < |s.threads| && s.threads[t].DeqStoreSeq?
    ensures Shape(DequeueStep(s, t, false)) && HistoryOk(DequeueStep(s, t, false))
  {
    var s' := DequeueStep(s, t, false);
    assert ThreadOk(s, t);
    forall p: nat | p < s'.enqPos - |s.cells| ensures p in s'.delivered {
      assert p in s.delivered;
    }
  }

  lemma DequeueSeqInv<T>(s: State<T>, t: nat)
    requires Inv(s) && t < |s.threads| && s.threads[t].DeqStoreSeq?
    ensures Inv(DequeueStep(s, t, false))
  {
    DequeueSeqHistory(s, t);
    DequeueSeqCells(s, t);
    DequeueSeqThreads(s, t);
  }

  lemma DequeueSeqCells<T>(s: State<T>, t: nat)
    requires Inv(s) && t < |s.threads| && s.threads[t].DeqStoreSeq? && Shape(DequeueStep(s, t, false))
    ensures var s' := DequeueStep(s, t, false);
            forall p | s'.enqPos - |s'.cells| <= p < s'.enqPos :: CellOk(s', p)
  {
    var s' := DequeueStep(s, t, false);
    assert ThreadOk(s, t);
    forall p | s'.enqPos - |s.cells| <= p < s'.enqPos ensures CellOk(s', p) {
      assert CellOk(s, p);
      OtherSlot(s, p, s.threads[t].pos);
    }
  }

  lemma DequeueSeqThreads<T>(s: State<T>, t: nat)
    requires Inv(s) && t < |s.threads| && s.threads[t].DeqStoreSeq? && Shape(DequeueStep(s, t, false))
    ensures var s' := DequeueStep(s, t, false);
            forall u: nat | u < |s'.threads| :: ThreadOk(s', u)
  {
    var pos := s.threads[t].pos;
    var s' := DequeueStep(s, t, false);
    assert ThreadOk(s, t);
    forall u: nat | u < |s'.threads| ensures ThreadOk(s', u) {
      assert ThreadOk(s, u);
      TicketSlot(s, u, pos);
    }
  }

  lemma EnqueueStepInv<T>(s: State<T>, t: nat, spurious: bool)
    requires Inv(s) && t < |s.threads| && Enqueuing(s.threads[t])
    ensures Inv(EnqueueStep(s, t, spurious))
  {
    assert ThreadOk(s, t);
    match s.threads[t]
    case EnqLoadPos(item) => SetPcInv(s, t, EnqLoadSeq(item, s.enqPos));
    case EnqLoadSeq(item, pos) => SetPcInv(s, t, EnqueueStep(s, t, spurious).threads[t]);
    case EnqCas(item, pos) =>
      if s.enqPos == pos && !spurious { EnqueueCasInv(s, t); }
      else { SetPcInv(s, t, EnqLoadSeq(item, s.enqPos)); }
    case EnqStoreData(_, _) => EnqueueDataInv(s, t);
    case EnqStoreSeq(_, _) => EnqueueSeqInv(s, t);
    case _ =>
  }

  lemma DequeueStepInv<T>(s: State<T>, t: nat, spurious: bool)
    requires Inv(s) && t < |s.threads| && !Enqueuing(s.threads[t])
    ensures Inv(DequeueStep(s, t, spurious))
  {
    assert ThreadOk(s, t);
    match s.threads[t]
    case DeqLoadPos => SetPcInv(s, t, DeqLoadSeq(s.deqPos));
    case DeqLoadSeq(pos) => SetPcInv(s, t, DequeueStep(s, t, spurious).threads[t]);
    case DeqCas(pos) =>
      if s.deqPos == pos && !spurious { DequeueCasInv(s, t); }
      else { SetPcInv(s, t, DeqLoadSeq(s.deqPos)); }
    case DeqReadData(_) => DequeueDataInv(s, t);
    case DeqStoreSeq(_, _) => DequeueSeqInv(s, t);
    case _ =>
  }

  lemma StepInv<T>(s: State<T>, m: Move<T>)
    requires Inv(s)
    ensures Inv(Step(s, m))
  {
    if m.thread < |s.threads| {
      match m.act
      case CallEnqueue(item) => if s.threads[m.thread].Idle? { SetPcInv(s, m.thread, EnqLoadPos(item)); }
      case CallDequeue => if s.threads[m.thread].Idle? { SetPcInv(s, m.thread, DeqLoadPos); }
      case Go(spurious) =>
        if Enqueuing(s.threads[m.thread]) { EnqueueStepInv(s, m.thread, spurious); }
        else { DequeueStepInv(s, m.thread, spurious); }
    }
  }

  lemma {:induction false} RunInv<T>(s: State<T>, moves: seq<Move<T>>)
    requires Inv(s)
    ensures Inv(Run(s, moves))
    decreases |moves|
  {
    if moves != [] {
      StepInv(s, moves[0]);
      RunInv(Step(s, moves[0]), moves[1..]);
    }
  }

  // ---------- what every run keeps ----------

  /** Two threads are never between their compare-exchange and their sequence
      store on one cell, so in particular no ticket is held twice. */
  lemma TicketHoldersUseDifferentCells<T>(n: nat, k: nat, blank: T, moves: seq<Move<T>>, t: nat, u: nat)
    requires n >= 2
    ensures var s := Run(InitState(n, k, blank), moves);
            t < u < |s.threads| && Holding(s.threads[t]) && Holding(s.threads[u])
            ==> Slot(Ticket(s.threads[t]), n) != Slot(Ticket(s.threads[u]), n)
  {
    InitInv(n, k, blank);
    RunInv(InitState(n, k, blank), moves);
    RunGrows(InitState(n, k, blank), moves);
    var s := Run(InitState(n, k, blank), moves);
    if t < u < |s.threads| && Holding(s.threads[t]) && Holding(s.threads[u]) {
      assert ThreadOk(s, t) && ThreadOk(s, u);
      TicketSlot(s, t, Ticket(s.threads[u]));
    }
  }

  /** Thread and cell counts never change; claims and takes only grow. */
  predicate Grows<T>(s: State<T>, s': State<T>) {
    && |s'.cells| == |s.cells| && |s'.threads| == |s.threads|
    && |s.claims| <= |s'.claims| && |s.takes| <= |s'.takes|
    && (forall i | 0 <= i < |s.claims| :: s'.claims[i].producer == s.claims[i].producer)
    && (forall i | 0 <= i < |s.takes| :: s'.takes[i] == s.takes[i])
    && s.deqPos <= s'.deqPos && s.enqPos <= s'.enqPos
  }

  lemma {:induction false} RunGrows<T>(s: State<T>, moves: seq<Move<T>>)
    ensures Grows(s, Run(s, moves))
    decreases |moves|
  {
    if moves != [] {
      StepGrows(s, moves[0]);
      RunGrows(Step(s, moves[0]), moves[1..]);
    }
  }

  /** dequeue_pos_ <= enqueue_pos_ <= dequeue_pos_ + N in every reachable state. */
  lemma PositionsBounded<T>(n: nat, k: nat, blank: T, moves: seq<Move<T>>)
    requires n >= 2
    ensures var s := Run(InitState(n, k, blank), moves); s.deqPos <= s.enqPos <= s.deqPos + n
  {
    InitInv(n, k, blank);
    RunInv(InitState(n, k, blank), moves);
    RunGrows(InitState(n, k, blank), moves);
  }

  // ---------- what calls return, over whole runs ----------

  function ReturnOf<T>(s: State<T>, m: Move<T>): seq<Outcome<T>>
  {
    if m.thread < |s.threads| && !s.threads[m.thread].Idle? && Step(s, m).threads[m.thread].Idle?
    then [Step(s, m).threads[m.thread].last] else []
  }

  /** The results of the calls that return during a run, in order. */
  function Returns<T>(s: State<T>, moves: seq<Move<T>>): seq<Outcome<T>>
    decreases |moves|
  {
    if moves == [] then [] else ReturnOf(s, moves[0]) + Returns(Step(s, moves[0]), moves[1..])
  }

  /** No enqueue has returned ticket p yet. */
  ghost predicate EnqueueOpen<T>(s: State<T>, p: nat)
    requires Shape(s)
  {
    p >= s.enqPos || Writing(s.threads[s.claims[p].producer], p)
  }

  /** A move returns the ticket its own thread holds, and only that thread can. */
  lemma ReturnedTicket<T>(s: State<T>, m: Move<T>, p: nat)
    requires Inv(s)
    ensures Enqueued(p) in ReturnOf(s, m) <==> ReleasesTicket(s, m, p)
  {
  }

  /** The move stores the sequence of enqueue ticket p. */
  predicate ReleasesTicket<T>(s: State<T>, m: Move<T>, p: nat) {
    m.thread < |s.threads| && s.threads[m.thread].EnqStoreSeq? && s.threads[m.thread].pos == p && m.act.Go?
  }

  lemma OthersStay<T>(s: State<T>, t: nat, spurious: bool, w: nat)
    requires |s.cells| > 0 && t < |s.threads| && w < |s.threads| && w != t
    ensures |EnqueueStep(s, t, spurious).threads| == |DequeueStep(s, t, spurious).threads| == |s.threads|
    ensures EnqueueStep(s, t, spurious).threads[w] == DequeueStep(s, t, spurious).threads[w] == s.threads[w]
  {
    hide Slot;
  }

  lemma WritingAfterOwn<T>(s: State<T>, t: nat, spurious: bool, p: nat)
    requires |s.cells| > 0 && t < |s.threads| && p < s.enqPos
    ensures |EnqueueStep(s, t, spurious).threads| == |DequeueStep(s, t, spurious).threads| == |s.threads|
    ensures Writing(EnqueueStep(s, t, spurious).threads[t], p)
            <==> Writing(s.threads[t], p) && !s.threads[t].EnqStoreSeq?
    ensures !Enqueuing(s.threads[t]) ==> !Writing(DequeueStep(s, t, spurious).threads[t], p)
  {
    hide Slot;
  }

  /** A thread goes on holding a ticket that is claimed already until it stores the sequence. */
  lemma WritingAfter<T>(s: State<T>, m: Move<T>, w: nat, p: nat)
    requires |s.cells| > 0 && p < s.enqPos && w < |s.threads|
    ensures w < |Step(s, m).threads|
    ensures Writing(Step(s, m).threads[w], p)
            <==> Writing(s.threads[w], p) && !(m.thread == w && ReleasesTicket(s, m, p))
  {
    hide Slot, EnqueueStep, DequeueStep;
    if m.thread < |s.threads| && m.act.Go? {
      if m.thread == w {
        WritingAfterOwn(s, w, m.act.spurious, p);
      } else {
        OthersStay(s, m.thread, m.act.spurious, w);
      }
    }
  }

  lemma StepGrows<T>(s: State<T>, m: Move<T>)
    ensures Grows(s, Step(s, m))
  {
    hide Slot;
  }

  lemma EnqueueReturnOld<T>(s: State<T>, m: Move<T>, p: nat)
    requires Inv(s) && p < s.enqPos
    ensures Shape(Step(s, m))
    ensures Enqueued(p) in ReturnOf(s, m) <==> EnqueueOpen(s, p) && !EnqueueOpen(Step(s, m), p)
    ensures EnqueueOpen(Step(s, m), p) ==> EnqueueOpen(s, p)
  {
    hide Slot, CellOk, Step, ReturnOf;
    StepInv(s, m);
    ReturnedTicket(s, m, p);
    StepGrows(s, m);
    WritingAfter(s, m, s.claims[p].producer, p);
    if m.thread < |s.threads| { assert ThreadOk(s, m.thread); }
  }

  lemma EnqueueReturn<T>(s: State<T>, m: Move<T>, p: nat)
    requires Inv(s)
    ensures Shape(Step(s, m))
    ensures Enqueued(p) in ReturnOf(s, m) <==> EnqueueOpen(s, p) && !EnqueueOpen(Step(s, m), p)
    ensures EnqueueOpen(Step(s, m), p) ==> EnqueueOpen(s, p)
  {
    if p < s.enqPos {
      EnqueueReturnOld(s, m, p);
    } else {
      StepInv(s, m);
      ReturnedTicket(s, m, p);
      if m.thread < |s.threads| { assert ThreadOk(s, m.thread); }
    }
  }

  lemma DequeueReturn<T>(s: State<T>, m: Move<T>, p: nat, x: T)
    requires Inv(s)
    ensures Dequeued(p, x) in ReturnOf(s, m)
            <==> p !in s.delivered && p in Step(s, m).delivered && Step(s, m).delivered[p] == x
    ensures p in s.delivered ==> p in Step(s, m).delivered && Step(s, m).delivered[p] == s.delivered[p]
  {
    if m.thread < |s.threads| {
      var t := m.thread;
      assert ThreadOk(s, t);
      if s.threads[t].DeqStoreSeq? { assert CellOk(s, s.threads[t].pos); }
    }
  }

  /** An enqueue returns ticket p during a run exactly if p is open before and closed after. */
  lemma {:induction false} EnqueueReturns<T>(s: State<T>, moves: seq<Move<T>>, p: nat)
    requires Inv(s)
    ensures Shape(Run(s, moves))
    ensures Enqueued(p) in Returns(s, moves) <==> EnqueueOpen(s, p) && !EnqueueOpen(Run(s, moves), p)
    ensures EnqueueOpen(Run(s, moves), p) ==> EnqueueOpen(s, p)
    decreases |moves|
  {
    if moves != [] {
      StepInv(s, moves[0]);
      EnqueueReturn(s, moves[0], p);
      EnqueueReturns(Step(s, moves[0]), moves[1..], p);
    }
  }

  /** A dequeue returns item x for ticket p during a run exactly if the run delivers it. */
  lemma {:induction false} DequeueReturns<T>(s: State<T>, moves: seq<Move<T>>, p: nat, x: T)
    requires Inv(s)
    ensures Dequeued(p, x) in Returns(s, moves)
            <==> p !in s.delivered && p in Run(s, moves).delivered && Run(s, moves).delivered[p] == x
    ensures p in s.delivered ==> p in Run(s, moves).delivered && Run(s, moves).delivered[p] == s.delivered[p]
    decreases |moves|
  {
    if moves != [] {
      StepInv(s, moves[0]);
      DequeueReturn(s, moves[0], p, x);
      DequeueReturns(Step(s, moves[0]), moves[1..], p, x);
      if p in Step(s, moves[0]).delivered {
        DequeueReturn(s, moves[0], p, Step(s, moves[0]).delivered[p]);
      }
    }
  }

  /** The ticket an outcome is about, if it is a success. */
  predicate SameTicket<T>(a: Outcome<T>, b: Outcome<T>) {
    || (a.Enqueued? && b.Enqueued? && a.ticket == b.ticket)
    || (a.Dequeued? && b.Dequeued? && a.ticket == b.ticket)
  }

  /** No two enqueues and no two dequeues of one run return the same ticket. */
  lemma {:induction false} NoTicketReturnedTwice<T>(s: State<T>, moves: seq<Move<T>>, i: nat, j: nat)
    requires Inv(s) && i < j < |Returns(s, moves)|
    ensures !SameTicket(Returns(s, moves)[i], Returns(s, moves)[j])
    decreases |moves|
  {
    var head, s' := ReturnOf(s, moves[0]), Step(s, moves[0]);
    var rest := Returns(s', moves[1..]);
    StepInv(s, moves[0]);
    if i >= |head| {
      NoTicketReturnedTwice(s', moves[1..], i - |head|, j - |head|);
    } else {
      var b := rest[j - |head|];
      assert b in rest;
      match head[i]
      case Enqueued(p) =>
        EnqueueReturn(s, moves[0], p);
        EnqueueReturns(s', moves[1..], p);
      case Dequeued(p, x) =>
        DequeueReturn(s, moves[0], p, x);
        if b.Dequeued? { DequeueReturns(s', moves[1..], b.ticket, b.item); }
      case _ =>
    }
  }

  /** Exactly once, first in first out: whatever a dequeue returns for ticket p is
      the item of the p-th successful compare-exchange of an enqueue. */
  lemma DequeueReturnsClaim<T>(n: nat, k: nat, blank: T, moves: seq<Move<T>>, p: nat, x: T)
    requires n >= 2 && Dequeued(p, x) in Returns(InitState(n, k, blank), moves)
    ensures var s := Run(InitState(n, k, blank), moves);
            p < s.deqPos <= |s.claims| && s.claims[p].item == x
  {
    InitInv(n, k, blank);
    RunInv(InitState(n, k, blank), moves);
    DequeueReturns(InitState(n, k, blank), moves, p, x);
  }

  ghost predicate Quiescent<T>(s: State<T>) {
    forall t: nat | t < |s.threads| :: s.threads[t].Idle?
  }

  /** When every call of a run has returned, the tickets returned by enqueues are
      exactly 0..enqPos, the tickets returned by dequeues are exactly 0..deqPos, each
      with the item claimed for it, and the remaining items lie in the cells. */
  lemma QuiescentRun<T>(n: nat, k: nat, blank: T, moves: seq<Move<T>>, p: nat, x: T)
    requires n >= 2 && Quiescent(Run(InitState(n, k, blank), moves))
    ensures var s := Run(InitState(n, k, blank), moves);
            && |s.claims| == s.enqPos && s.deqPos <= s.enqPos && |s.cells| == n
            && (Enqueued(p) in Returns(InitState(n, k, blank), moves) <==> p < s.enqPos)
            && (Dequeued(p, x) in Returns(InitState(n, k, blank), moves)
                <==> p < s.deqPos && x == s.claims[p].item)
            && (s.deqPos <= p < s.enqPos ==> s.cells[Slot(p, n)] == Cell(p + 1, s.claims[p].item))
  {
    var s0, s := InitState(n, k, blank), Run(InitState(n, k, blank), moves);
    InitInv(n, k, blank);
    RunInv(s0, moves);
    RunGrows(s0, moves);
    EnqueueReturns(s0, moves, p);
    DequeueReturns(s0, moves, p, x);
    if s.enqPos - n <= p < s.enqPos { assert CellOk(s, p); }
    if p < s.deqPos { assert p in s.delivered; }
  }

  /** Real-time order: an enqueue called by an idle thread after another enqueue has
      returned gets the later ticket. */
  lemma EnqueuesFollowCallOrder<T>(s: State<T>, before: seq<Move<T>>, after: seq<Move<T>>, t: nat, p: nat, q: nat)
    requires Inv(s) && t < |s.threads|
    requires var mid := Run(s, before); |mid.threads| == |s.threads| && mid.threads[t].Idle?
    requires Enqueued(p) in Returns(s, before) && Enqueued(q) in Returns(Run(s, before), after)
    ensures var end := Run(Run(s, before), after);
            q < |end.claims| && (end.claims[q].producer == t ==> p < q)
  {
    var mid := Run(s, before);
    RunInv(s, before);
    RunInv(mid, after);
    RunGrows(mid, after);
    EnqueueReturns(s, before, p);
    EnqueueReturns(mid, after, q);
  }

  /** Likewise a dequeue called after another dequeue has returned. */
  lemma DequeuesFollowCallOrder<T>(s: State<T>, before: seq<Move<T>>, after: seq<Move<T>>,
                                   t: nat, p: nat, q: nat, x: T, y: T)
    requires Inv(s) && t < |s.threads|
    requires var mid := Run(s, before); |mid.threads| == |s.threads| && mid.threads[t].Idle?
    requires Dequeued(p, x) in Returns(s, before) && Dequeued(q, y) in Returns(Run(s, before), after)
    ensures var end := Run(Run(s, before), after);
            q < |end.takes| && (end.takes[q] == t ==> p < q)
  {
    var mid := Run(s, before);
    RunInv(s, before);
    RunInv(mid, after);
    RunGrows(mid, after);
    DequeueReturns(s, before, p, x);
    DequeueReturns(mid, after, q, y);
    if q < mid.deqPos { assert CellOk(mid, q); }
  }

  /** Between calls, the sequence of a cell says whether its last ticket is stored or free. */
  ghost predicate Quiet<T>(cells: seq<Cell<T>>, enqPos: nat, deqPos: nat) {
    && |cells| >= 2 && deqPos <= enqPos <= deqPos + |cells|
    && (forall p | enqPos - |cells| <= p < enqPos ::
          cells[Slot(p, |cells|)].sequence == if p >= deqPos then p + 1 else p + |cells|)
  }

  /** The items in the ring, oldest first. */
  ghost function Stored<T>(cells: seq<Cell<T>>, enqPos: nat, deqPos: nat): (items: seq<T>)
    requires |cells| > 0 && deqPos <= enqPos
  {
    seq(enqPos - deqPos, i requires 0 <= i < enqPos - deqPos => cells[Slot(deqPos + i, |cells|)].data)
  }

  /** What the sequence at enqueue_pos_ and at dequeue_pos_ says about a quiet ring. */
  lemma QuietEnds<T>(cells: seq<Cell<T>>, enqPos: nat, deqPos: nat)
    requires Quiet(cells, enqPos, deqPos)
    ensures var seen := cells[Slot(enqPos, |cells|)].sequence;
            seen <= enqPos && (seen == enqPos <==> enqPos - deqPos < |cells|)
    ensures var seen := cells[Slot(deqPos, |cells|)].sequence;
            seen <= deqPos + 1 && (seen == deqPos + 1 <==> deqPos < enqPos)
  {
    var n := |cells|;
    SlotShift(enqPos, n);
    SlotShift(deqPos, n);
    var p, q := enqPos - n, if deqPos < enqPos then deqPos else deqPos - n;
    assert cells[Slot(p, n)].sequence == if p >= deqPos then p + 1 else p + n;
    assert cells[Slot(q, n)].sequence == if q >= deqPos then q + 1 else q + n;
  }

  /** A store to the slot of ticket pos leaves the other tickets near pos alone. */
  lemma OtherTickets<T>(cells: seq<Cell<T>>, pos: int, c: Cell<T>)
    requires |cells| > 0
    ensures var n := |cells|;
            forall p | pos - n < p < pos + n && p != pos ::
              cells[Slot(pos, n) := c][Slot(p, n)] == cells[Slot(p, n)]
  {
    var n := |cells|;
    forall p | pos - n < p < pos + n && p != pos ensures Slot(p, n) != Slot(pos, n) {
      if p < pos { SlotsDiffer(p, pos, n); } else { SlotsDiffer(pos, p, n); }
    }
  }

  lemma QuietEnqueue<T>(cells: seq<Cell<T>>, enqPos: nat, deqPos: nat, x: T)
    requires Quiet(cells, enqPos, deqPos) && enqPos - deqPos < |cells|
    ensures var cells' := cells[Slot(enqPos, |cells|) := Cell(enqPos + 1, x)];
            && Quiet(cells', enqPos + 1, deqPos)
            && Stored(cells', enqPos + 1, deqPos) == Stored(cells, enqPos, deqPos) + [x]
  {
    var n, c := |cells|, Cell(enqPos + 1, x);
    var cells' := cells[Slot(enqPos, n) := c];
    OtherTickets(cells, enqPos, c);
    forall p | enqPos + 1 - n <= p < enqPos + 1
      ensures cells'[Slot(p, n)].sequence == if p >= deqPos then p + 1 else p + n
    {
      if p < enqPos { assert cells[Slot(p, n)].sequence == if p >= deqPos then p + 1 else p + n; }
    }
  }

  lemma QuietDequeue<T>(cells: seq<Cell<T>>, enqPos: nat, deqPos: nat)
    requires Quiet(cells, enqPos, deqPos) && deqPos < enqPos
    ensures var k := Slot(deqPos, |cells|);
            var cells' := cells[k := cells[k].(sequence := deqPos + |cells|)];
            && Quiet(cells', enqPos, deqPos + 1)
            && Stored(cells, enqPos, deqPos) == [cells[k].data] + Stored(cells', enqPos, deqPos + 1)
  {
    var n, k := |cells|, Slot(deqPos, |cells|);
    var c := cells[k].(sequence := deqPos + n);
    var cells' := cells[k := c];
    OtherTickets(cells, deqPos, c);
    forall p | enqPos - n <= p < enqPos
      ensures cells'[Slot(p, n)].sequence == if p >= deqPos + 1 then p + 1 else p + n
    {
      if p != deqPos { assert cells[Slot(p, n)].sequence == if p >= deqPos then p + 1 else p + n; }
    }
  }

  lemma FreshRingIsQuiet<T>(cells: seq<Cell<T>>)
    requires |cells| >= 2 && forall j | 0 <= j < |cells| :: cells[j].sequence == j
    ensures Quiet(cells, 0, 0)
  {
    var n := |cells|;
    forall p | 0 - n <= p < 0 ensures cells[Slot(p, n)].sequence == p + n {
      SlotShift(p, n);
    }
  }

  ghost function Items<T>(claims: seq<Claim<T>>): seq<T> {
    seq(|claims|, i requires 0 <= i < |claims| => claims[i].item)
  }

  /** A quiescent state of the machine is a quiet ring that stores exactly the items
      claimed and not taken, in claim order. */
  lemma QuiescentIsQuiet<T>(s: State<T>)
    requires Inv(s) && Quiescent(s)
    ensures Quiet(s.cells, s.enqPos, s.deqPos)
    ensures Stored(s.cells, s.enqPos, s.deqPos) == Items(s.claims[s.deqPos..])
  {
    forall p | s.enqPos - |s.cells| <= p < s.enqPos
      ensures s.cells[Slot(p, |s.cells|)].sequence == if p >= s.deqPos then p + 1 else p + |s.cells|
      ensures p >= s.deqPos ==> s.cells[Slot(p, |s.cells|)].data == s.claims[p].item
    {
      assert CellOk(s, p);
    }
    var a, b := Stored(s.cells, s.enqPos, s.deqPos), Items(s.claims[s.deqPos..]);
    forall i | 0 <= i < |a| ensures a[i] == b[i] {
      assert b[i] == s.claims[s.deqPos + i].item;
    }
  }

  // ---------- when calls fail ----------

  /** enqueue returns false exactly if, when it reads the sequence, its position is
      still enqueue_pos_ and the ticket one lap before has not been released. */
  lemma EnqueueFailsIff<T>(s: State<T>, t: nat)
    requires Inv(s) && t < |s.threads| && s.threads[t].EnqLoadSeq?
    ensures var pos, n := s.threads[t].pos, |s.cells|;
            EnqueueStep(s, t, false).threads[t] == Idle(Full(pos))
            <==> pos == s.enqPos && pos >= n && pos - n !in s.delivered
  {
    var pos, n := s.threads[t].pos, |s.cells|;
    assert ThreadOk(s, t);
    var q := WindowTicket(pos, s.enqPos, n);
    assert CellOk(s, q);
  }

  /** dequeue returns false exactly if, when it reads the sequence, its position is
      still dequeue_pos_ and that ticket is unclaimed or not yet published. */
  lemma DequeueFailsIff<T>(s: State<T>, t: nat)
    requires Inv(s) && t < |s.threads| && s.threads[t].DeqLoadSeq?
    ensures var pos := s.threads[t].pos;
            DequeueStep(s, t, false).threads[t] == Idle(Empty(pos))
            <==> pos == s.deqPos && EnqueueOpen(s, pos)
  {
    var pos, n := s.threads[t].pos, |s.cells|;
    assert ThreadOk(s, t);
    var q := WindowTicket(pos, s.enqPos, n);
    assert CellOk(s, q);
    if pos < s.enqPos { assert ThreadOk(s, s.claims[pos].producer); }
  }

  // ---------- why the constructor refuses a single cell ----------

  /** The state after the six steps of an enqueue that meets no other thread. */
  function EnqueueAlone<T>(s: State<T>, t: nat, item: T): State<T>
  {
    var go := Move(t, Go(false));
    var claimed := Step(Step(Step(Step(s, Move(t, CallEnqueue(item))), go), go), go);
    Step(Step(claimed, go), go)
  }

  lemma EnqueueAloneClaims<T>(s: State<T>, t: nat, item: T)
    requires |s.cells| > 0 && t < |s.threads| && s.threads[t].Idle?
    requires s.cells[Slot(s.enqPos, |s.cells|)].sequence == s.enqPos
    ensures EnqueueAlone(s, t, item) == SetPc(s, t, Idle(Enqueued(s.enqPos))).(
              cells := s.cells[Slot(s.enqPos, |s.cells|) := Cell(s.enqPos + 1, item)],
              enqPos := s.enqPos + 1,
              claims := s.claims + [Claim(t, item)])
  {
    var go := Move(t, Go(false));
    var s1 := SetPc(s, t, EnqLoadSeq(item, s.enqPos));
    assert Step(Step(s, Move(t, CallEnqueue(item))), go) == s1;
    var s2 := SetPc(s, t, EnqStoreData(item, s.enqPos)).(enqPos := s.enqPos + 1, claims := s.claims + [Claim(t, item)]);
    assert Step(Step(s1, go), go) == s2;
  }

  /** With one cell two enqueues in a row both succeed: the second overwrites the
      item of ticket 0, which no dequeue can return any more. */
  lemma OneCellLosesAnItem<T>(x: T, y: T)
    ensures var s := EnqueueAlone(EnqueueAlone(InitState(1, 1, x), 0, x), 0, y);
            s.deqPos == 0 && s.claims == [Claim(0, x), Claim(0, y)] && s.cells == [Cell(2, y)]
  {
    var s0 := InitState(1, 1, x);
    EnqueueAloneClaims(s0, 0, x);
    EnqueueAloneClaims(EnqueueAlone(s0, 0, x), 0, y);
  }
}
