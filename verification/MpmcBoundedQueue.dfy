/** The queue object itself, for calls that meet no other thread: the retry loops of
    `enqueue` and `dequeue` over the buffer, proved to be a bounded first-in
    first-out queue. Module MpmcQueue covers interleaved calls. */
module MpmcBoundedQueue {
  import opened MpmcQueue
  import opened PositionBits

  class BoundedQueue<T(0)> {
    const buffer: array<Cell<T>>
    const mask: nat
    ghost const bits: nat
    var enqueuePos: nat
    var dequeuePos: nat

    ghost predicate Valid()
      reads this, buffer
    {
      && buffer.Length == mask + 1 == Pow2(bits)
      && Quiet(buffer[..], enqueuePos, dequeuePos)
    }

    ghost function Contents(): seq<T>
      requires Valid()
      reads this, buffer
    {
      Stored(buffer[..], enqueuePos, dequeuePos)
    }

    constructor (bufferSize: nat, ghost k: nat)
      requires bufferSize == Pow2(k) >= 2
      ensures Valid() && fresh(buffer) && buffer.Length == bufferSize && Contents() == []
    {
      buffer := new Cell<T>[bufferSize];
      mask := bufferSize - 1;
      bits := k;
      enqueuePos := 0;
      dequeuePos := 0;
      new;
      for i := 0 to bufferSize
        invariant enqueuePos == dequeuePos == 0
        invariant forall j | 0 <= j < i :: buffer[j].sequence == j
      {
        buffer[i] := buffer[i].(sequence := i);
      }
      FreshRingIsQuiet(buffer[..]);
    }

    /** The constructor's own check: null stands for its exception. */
    static method Create(bufferSize: nat) returns (q: BoundedQueue?<T>)
      ensures q == null <==> !CapacityOk(bufferSize)
      ensures q != null ==> fresh(q) && fresh(q.buffer) && q.Valid() && q.Contents() == []
    {
      if !(bufferSize >= 2 && BitAnd(bufferSize, bufferSize - 1) == 0) { return null; }
      ghost var k := PowerOfTwoTest(bufferSize);
      q := new BoundedQueue(bufferSize, k);
    }

    lemma Masked(pos: nat)
      requires Valid()
      ensures BitAnd(pos, mask) == Slot(pos, buffer.Length)
    {
      MaskIsRemainder(pos, bits);
      SlotIsRemainder(pos, buffer.Length);
    }

    /** `spurious` is how often the weak compare-exchange fails for no reason. */
    method Enqueue(data: T, spurious: nat) returns (ok: bool)
      requires Valid()
      modifies this`enqueuePos, buffer
      ensures Valid()
      ensures ok <==> old(|Contents()|) < buffer.Length
      ensures Contents() == if ok then old(Contents()) + [data] else old(Contents())
    {
      hide BitAnd, Slot;
      QuietEnds(buffer[..], enqueuePos, dequeuePos);
      var pos := enqueuePos;
      var cell := 0;
      var failures := spurious;
      while true
        invariant pos == enqueuePos == old(enqueuePos) && buffer[..] == old(buffer[..])
        decreases failures
      {
        Masked(pos);
        cell := BitAnd(pos, mask);
        var dif := buffer[cell].sequence - pos;
        if dif == 0 {
          if failures == 0 {
            enqueuePos := pos + 1;
            break;
          }
          failures := failures - 1;
        } else if dif < 0 {
          return false;
        } else {
          assert false;
        }
      }
      QuietEnqueue(buffer[..], pos, dequeuePos, data);
      buffer[cell] := buffer[cell].(data := data);
      buffer[cell] := buffer[cell].(sequence := pos + 1);
      assert buffer[..] == old(buffer[..])[cell := Cell(pos + 1, data)];
      ok := true;
    }

    method Dequeue(spurious: nat) returns (ok: bool, data: T)
      requires Valid()
      modifies this`dequeuePos, buffer
      ensures Valid()
      ensures ok <==> old(|Contents()|) > 0
      ensures ok ==> old(Contents()) == [data] + Contents()
      ensures !ok ==> Contents() == old(Contents())
    {
      hide BitAnd, Slot;
      QuietEnds(buffer[..], enqueuePos, dequeuePos);
      var pos := dequeuePos;
      var cell := 0;
      var failures := spurious;
      while true
        invariant pos == dequeuePos == old(dequeuePos) && buffer[..] == old(buffer[..])
        decreases failures
      {
        Masked(pos);
        cell := BitAnd(pos, mask);
        var dif := buffer[cell].sequence - (pos + 1);
        if dif == 0 {
          if failures == 0 {
            dequeuePos := pos + 1;
            break;
          }
          failures := failures - 1;
        } else if dif < 0 {
          return false, *;
        } else {
          assert false;
        }
      }
      QuietDequeue(buffer[..], enqueuePos, pos);
      data := buffer[cell].data;
      buffer[cell] := buffer[cell].(sequence := pos + mask + 1);
      assert buffer[..] == old(buffer[..])[cell := Cell(pos + buffer.Length, data)];
      ok := true;
    }
  }
}
