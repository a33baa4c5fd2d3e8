/** A window over the most recent bytes of a stream, kept in a circular array. */
module PatternBuffer {
  import opened Bytes

  function Zeros(n: nat): (z: seq<Byte>)
    ensures |z| == n && forall i | 0 <= i < n :: z[i] == 0
  {
    seq(n, _ => 0)
  }

  function Reversed(s: seq<Byte>): (r: seq<Byte>)
    ensures |r| == |s| && forall i | 0 <= i < |s| :: r[i] == s[|s| - 1 - i]
  {
    seq(|s|, i requires 0 <= i < |s| => s[|s| - 1 - i])
  }

  function Next(i: nat, len: nat): nat {
    if i + 1 == len then 0 else i + 1
  }

  lemma Around(i: nat, len: nat)
    requires len > 0
    ensures i < len ==> i % len == i
    ensures len <= i < 2 * len ==> i % len == i - len
  {
  }

  lemma NextIsModulo(i: nat, len: nat)
    requires i < len
    ensures (i + 1) % len == Next(i, len) < len
  {
  }

  /** Overwriting the oldest slot and moving on slides the window by one byte. */
  lemma Slide(slots: seq<Byte>, tail: nat, data: Byte)
    requires tail < |slots|
    ensures var slots', tail' := slots[tail := data], Next(tail, |slots|);
            slots'[tail'..] + slots'[..tail'] == (slots[tail..] + slots[..tail])[1..] + [data]
  {
  }

  class PatternBuffer {
    const buffer: array?<Byte>
    const len: Byte
    var head: nat
    var tail: nat
    const pattern: array<Byte>
    var payload: Byte
    var dataCount: nat

    ghost predicate Valid()
      reads this
    {
      && tail < len && head == Next(tail, len)
      && len as int <= pattern.Length
      && (buffer != null ==> len as int <= buffer.Length && buffer != pattern)
      && dataCount < 0x1_0000
    }

    /** The last `len` bytes, oldest first. */
    function Window(): (w: seq<Byte>)
      reads this, buffer
      requires Valid() && buffer != null
      ensures |w| == len
    {
      buffer[..len][tail..] + buffer[..len][..tail]
    }

    /** The pattern is stored last byte first. */
    function Sought(): seq<Byte>
      reads this, pattern
      requires Valid()
    {
      Reversed(pattern[..len])
    }

    constructor Init(buffer: array<Byte>, len: Byte, pattern: array<Byte>)
      requires 0 < len as int <= buffer.Length && len as int <= pattern.Length && buffer != pattern
      ensures Valid() && this.buffer == buffer && this.len == len && this.pattern == pattern
      ensures tail == len - 1 && payload == 0
    {
      this.buffer := buffer;
      this.len := len;
      this.head := 0;
      this.tail := len - 1;
      this.pattern := pattern;
      this.payload := 0;
      this.dataCount := 0;
    }

    /** Slides the window by one byte; `payload` is the byte that leaves it. */
    method Push(data: Byte)
      requires Valid()
      modifies this`payload, this`tail, this`head, this`dataCount, buffer
      ensures Valid()
      ensures buffer == null ==> payload == old(payload) && tail == old(tail) && dataCount == old(dataCount)
      ensures buffer != null ==>
                && Window() == old(Window())[1..] + [data]
                && payload == old(Window())[0]
                && dataCount == (old(dataCount) + 1) % 0x1_0000
    {
      if buffer != null {
        NextIsModulo(tail, len);
        NextIsModulo(head, len);
        ghost var slots := buffer[..len];
        Slide(slots, tail, data);
        payload := buffer[tail];
        buffer[tail] := data;
        assert buffer[..len] == slots[tail := data];
        tail := (tail + 1) % len;
        head := (head + 1) % len;
        dataCount := (dataCount + 1) % 0x1_0000;
      }
    }

    method ResetBuffer()
      requires Valid() && buffer != null
      modifies this`payload, this`tail, this`head, this`dataCount, buffer
      ensures Valid()
      ensures Window() == Zeros(len) && payload == 0 && dataCount == 0
      ensures head == 0 && tail == len - 1
    {
      for i := 0 to len
        invariant Valid()
        invariant forall j | 0 <= j < i :: buffer[j] == 0
      {
        buffer[i] := 0;
      }
      payload := 0;
      dataCount := 0;

      head := 0;
      tail := len - 1;
      assert forall j | 0 <= j < len :: buffer[..len][j] == 0;
      assert Window() == Zeros(len);
    }

    method CheckPattern() returns (r: bool)
      requires Valid() && buffer != null
      ensures r <==> Window() == Sought()
    {
      ghost var w := Window();
      for i := 0 to len
        invariant w == Window()
        invariant forall j | 0 <= j < i :: w[j] == Sought()[j]
      {
        Around(tail + i, len);
        if buffer[(tail + i) % len] != pattern[len - i - 1] {
          assert Window()[i] != Sought()[i];
          return false;
        }
      }
      assert w == Sought();
      return true;
    }
  }
}
