/** The byte ring shared between main code and the UART interrupt handler. */
module CircularBuffer {
  import opened Bytes

  /** Position after `i` in a ring of `size` slots, as the C code computes it. */
  function Succ(i: Byte, size: Byte): Byte {
    if U8(i + 1) == size then 0 else U8(i + 1)
  }

  /** The bytes between `tail` and `head`, oldest first. */
  function Queued(slots: seq<Byte>, head: nat, tail: nat): seq<Byte>
    requires head <= |slots| && tail <= |slots|
  {
    if tail <= head then slots[tail..head] else slots[tail..] + slots[..head]
  }

  /** Writing the free slot at `head` and moving on queues the byte, unless the ring is full. */
  lemma QueuedAfterPush(slots: seq<Byte>, head: Byte, tail: Byte, data: Byte)
    requires head < |slots| < 0x100 && tail < |slots|
    ensures var next := Succ(head, |slots|);
            && next < |slots|
            && Queued(slots[head := data], next, tail) ==
               if next == tail then [] else Queued(slots, head, tail) + [data]
  {
  }

  lemma SuccIs(i: Byte, size: int)
    requires i < size < 0x100
    ensures Succ(i, size) == if i + 1 == size then 0 else i + 1
  {
  }

  lemma QueuedAfterPop(slots: seq<Byte>, head: Byte, tail: Byte)
    requires head < |slots| < 0x100 && tail < |slots| && head != tail
    ensures var next := Succ(tail, |slots|);
            && next < |slots|
            && Queued(slots, head, tail) == [slots[tail]] + Queued(slots, head, next)
  {
    SuccIs(tail, |slots|);
    if tail < head {
      assert slots[tail..head] == [slots[tail]] + slots[tail + 1..head];
    } else if tail + 1 == |slots| {
      assert slots[tail..] + slots[..head] == [slots[tail]] + slots[0..head];
    } else {
      assert slots[tail..] + slots[..head] == [slots[tail]] + (slots[tail + 1..] + slots[..head]);
    }
  }

  class CircularBuffer {
    const buffer: array?<Byte>
    const size: Byte
    var head: Byte
    var tail: Byte

    ghost predicate Valid()
      reads this
    {
      && head < size && tail < size
      && (buffer != null ==> size <= buffer.Length)
    }

    function Slots(): seq<Byte>
      reads this, buffer
      requires Valid() && buffer != null
    {
      buffer[..size]
    }

    function Contents(): seq<Byte>
      reads this, buffer
      requires Valid() && buffer != null
    {
      Queued(Slots(), head, tail)
    }

    constructor Init(buffer: array<Byte>, size: Byte)
      requires 0 < size <= buffer.Length
      ensures Valid() && this.buffer == buffer && this.size == size
      ensures Contents() == []
    {
      this.buffer := buffer;
      this.size := size;
      this.head := 0;
      this.tail := 0;
    }

    /** Queues a byte. There is no check for space: pushing to a full ring empties it. */
    method Push(data: Byte)
      requires Valid()
      modifies this`head, buffer
      ensures Valid()
      ensures buffer == null ==> head == old(head)
      ensures buffer != null ==>
                Contents() == if |old(Contents())| < size - 1 then old(Contents()) + [data] else []
    {
      if buffer != null {
        QueuedAfterPush(Slots(), head, tail, data);
        ghost var before := Slots();
        buffer[head] := data;
        assert Slots() == before[head := data];
        head := U8(head + 1);

        if head == size {
          head := 0;
        }
      }
    }

    /** Takes the oldest byte. There is no check for data: popping an empty ring returns
        whatever is in the slot and makes every other slot look queued. */
    method Pop() returns (data: Byte)
      requires Valid() && buffer != null
      modifies this`tail
      ensures Valid()
      ensures old(Contents()) != [] ==> old(Contents()) == [data] + Contents()
      ensures old(Contents()) == [] ==> |Contents()| == size - 1
      ensures data == Slots()[old(tail)] && tail == Succ(old(tail), size)
    {
      if tail != head {
        QueuedAfterPop(Slots(), head, tail);
      }
      data := buffer[tail];
      tail := U8(tail + 1);

      if tail == size {
        tail := 0;
      }
    }

    method Show() returns (data: Byte)
      requires Valid() && buffer != null
      ensures Contents() != [] ==> data == Contents()[0]
    {
      data := buffer[tail];
    }

    method Empty() returns (r: bool)
      requires Valid()
      ensures buffer != null ==> (r <==> Contents() == [])
    {
      r := tail == head;
    }

    /** One slot always stays free, so the ring is full with `size - 1` bytes in it. */
    method Full() returns (r: bool)
      requires Valid()
      ensures buffer != null ==> (r <==> |Contents()| == size - 1)
    {
      var nextHead := U8(head + 1);

      if nextHead == size {
        nextHead := 0;
      }

      r := nextHead == tail;
    }

    /** `head - tail` in eight bits is the number of queued bytes exactly as long as the
        queued bytes have not wrapped around the end of the ring; then it is too large. */
    method Size() returns (n: Byte)
      requires Valid() && buffer != null
      ensures n == |Contents()| <==> tail <= head
      ensures head < tail ==> n == |Contents()| + 0x100 - size
    {
      n := U8(head - tail);
    }
  }
}
