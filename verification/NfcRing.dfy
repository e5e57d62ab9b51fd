/** The byte rings of the NFC transport (src/nfc_transport.c:20-28): an array with head, tail and
    count, standing for a bounded queue. */
module NfcRing {
  import opened Serial

  const CAPACITY: nat := 1024

  class Ring {
    const data: array<byte>
    var head: nat
    var tail: nat
    var count: nat
    ghost var queue: seq<byte>

    /** The index of the i-th byte, or for i == count of the next free slot. */
    function Slot(i: nat): nat
      reads this
    {
      if tail + i < CAPACITY then tail + i else tail + i - CAPACITY
    }

    ghost predicate Valid()
      reads this, data
    {
      && data.Length == CAPACITY
      && head < CAPACITY && tail < CAPACITY && count <= CAPACITY
      && head == Slot(count)
      && |queue| == count
      && forall i :: 0 <= i < count ==> data[Slot(i)] == queue[i]
    }

    constructor ()
      ensures Valid() && queue == [] && fresh(data)
    {
      data := new byte[1024];
      head, tail, count, queue := 0, 0, 0, [];
    }

    /** Stores a byte unless the ring is full. */
    method Push(b: byte) returns (ok: bool)
      requires Valid()
      modifies this, data
      ensures Valid()
      ensures ok == (|old(queue)| < CAPACITY)
      ensures queue == if ok then old(queue) + [b] else old(queue)
    {
      ok := count < CAPACITY;
      if ok {
        data[head] := b;
        head := (head + 1) % CAPACITY;
        count := count + 1;
        queue := queue + [b];
      }
    }

    /** Takes the oldest byte. */
    method Pop() returns (b: byte)
      requires Valid() && queue != []
      modifies this
      ensures Valid() && b == old(queue)[0] && queue == old(queue)[1..]
    {
      b := data[tail];
      tail := (tail + 1) % CAPACITY;
      count := count - 1;
      queue := queue[1..];
    }
  }
}
