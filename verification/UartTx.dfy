/**
 Interrupt-driven transmission: `write_serial` fills the ring, the UART handler empties it.
 The handler is atomic; `write_serial` is split into its individual reads and writes of shared
 state, so the handler may run between any two of them.
 */
module UartTx {
  import opened Bytes
  import opened CircularBuffer

  const IER_NONE: Byte := 0x00
  const IER_THRE: Byte := 0x02
  const ID_THRE: nat := 0x1

  /** The next statement of `write_serial`; `Idle` is outside of it. */
  datatype Pc =
    | Idle
    | NextHead      // next_head = head + 1
    | WrapNext      // if (next_head == size) next_head = 0
    | TestFull      // spin while next_head == tail
    | DisableIrq    // IER = 0
    | Store         // buffer[head] = data
    | Advance       // head++
    | WrapHead      // if (head == size) head = 0
    | EnableIrq     // IER = 2

  datatype Tx = Tx(
    slots: seq<Byte>,
    head: Byte,
    tail: Byte,
    ier: Byte,
    pc: Pc,
    arg: Byte,
    next: Byte,
    sent: seq<Byte>,      // bytes written to THR
    pushed: seq<Byte>,    // bytes whose push has taken effect
    enables: nat)         // how often IER was set

  /** One step of a run: main code (with the byte of the next call) or a handler activation
      that reads interrupt id `id`. */
  datatype Event = Main(byte: Byte) | Handler(id: nat)

  function Size(s: Tx): nat {
    |s.slots|
  }

  /** Between `head++` and its wrap the head is one past the end; it stands for slot 0. */
  function HeadSlot(s: Tx): nat {
    if s.head == Size(s) then 0 else s.head
  }

  function Queue(s: Tx): seq<Byte>
    requires HeadSlot(s) <= Size(s) && s.tail <= Size(s)
  {
    Queued(s.slots, HeadSlot(s), s.tail)
  }

  function MainStep(s: Tx, byte: Byte): Tx
    requires s.pc.Store? ==> s.head < Size(s)
    requires Size(s) < 0x100
  {
    match s.pc
    case Idle => s.(pc := NextHead, arg := byte)
    case NextHead => s.(pc := WrapNext, next := U8(s.head + 1))
    case WrapNext => s.(pc := TestFull, next := if s.next == Size(s) then 0 else s.next)
    case TestFull => s.(pc := if s.next == s.tail then NextHead else DisableIrq)
    case DisableIrq => s.(pc := Store, ier := IER_NONE)
    case Store => s.(pc := Advance, slots := s.slots[s.head := s.arg])
    case Advance => s.(pc := WrapHead, head := U8(s.head + 1), pushed := s.pushed + [s.arg])
    case WrapHead => s.(pc := EnableIrq, head := if s.head == Size(s) then 0 else s.head)
    case EnableIrq => s.(pc := Idle, ier := IER_THRE, enables := s.enables + 1)
  }

  /** A 16550 reports the transmit interrupt only while IER bit 1 is set. */
  predicate Reportable(s: Tx, id: nat) {
    id == ID_THRE ==> s.ier / 2 % 2 == 1
  }

  /** The transmit side of `uart_handler`; other interrupt ids do not touch it. */
  function HandlerStep(s: Tx, id: nat): Tx
    requires s.tail < Size(s) < 0x100
  {
    if id != 0x1 then s
    else if s.tail == s.head then s.(ier := IER_NONE)
    else s.(ier := IER_NONE, sent := s.sent + [s.slots[s.tail]], tail := Succ(s.tail, Size(s)))
  }

  /** The static initial state; the repository's ring has 30 slots. */
  ghost predicate Init(s: Tx) {
    && 1 < Size(s) < 0x100
    && s.head == s.tail == 0 && s.ier == IER_NONE && s.pc == Idle
    && s.sent == [] && s.pushed == [] && s.enables == 0
  }

  predicate Full(s: Tx)
    requires Size(s) < 0x100
  {
    Succ(s.head, Size(s)) == s.tail
  }

  ghost predicate Inv(s: Tx) {
    && 1 < Size(s) < 0x100
    && s.tail < Size(s)
    && (if s.pc.WrapHead? then 1 <= s.head <= Size(s) else s.head < Size(s))
    && (s.pc.WrapNext? ==> s.next == U8(s.head + 1))
    && (s.pc.TestFull? ==> s.next == Succ(s.head, Size(s)))
    && (s.pc.DisableIrq? || s.pc.Store? || s.pc.Advance? ==> !Full(s))
    && (s.pc.Advance? ==> s.slots[s.head] == s.arg)
    && (s.pc.Store? || s.pc.Advance? || s.pc.WrapHead? || s.pc.EnableIrq? ==> s.ier == IER_NONE)
    // No loss, duplication or reordering.
    && s.sent + Queue(s) == s.pushed
    // A full ring always has its interrupt armed, so that a spinning writer is released.
    && (s.pc in {Idle, NextHead, WrapNext, TestFull} && Full(s) ==> s.ier == IER_THRE)
    // Every transmit interrupt is paid for by one enable.
    && |s.sent| + (if s.ier == IER_THRE then 1 else 0) <= s.enables
    && (s.ier == IER_THRE || s.ier == IER_NONE)
  }

  function Step(s: Tx, e: Event): Tx
    requires 0 < Size(s) < 0x100 && s.tail < Size(s) && (s.pc.Store? ==> s.head < Size(s))
  {
    match e
    case Main(byte) => MainStep(s, byte)
    case Handler(id) => HandlerStep(s, id)
  }

  lemma AdvanceQueues(s: Tx, byte: Byte)
    requires Inv(s) && s.pc.Advance?
    ensures var s' := MainStep(s, byte);
            && HeadSlot(s') == Succ(s.head, Size(s)) < Size(s)
            && Queue(s') == Queue(s) + [s.arg]
  {
    SuccIs(s.head, Size(s));
    QueuedAfterPush(s.slots, s.head, s.tail, s.arg);
    assert s.slots[s.head := s.arg] == s.slots;
  }

  lemma AdvanceKeepsInv(s: Tx, byte: Byte)
    requires Inv(s) && s.pc.Advance?
    ensures Inv(MainStep(s, byte))
  {
    AdvanceQueues(s, byte);
  }

  lemma StoreKeepsInv(s: Tx, byte: Byte)
    requires Inv(s) && s.pc.Store?
    ensures Inv(MainStep(s, byte))
  {
  }

  lemma MainKeepsInv(s: Tx, byte: Byte)
    requires Inv(s)
    ensures Inv(MainStep(s, byte))
  {
    SuccIs(if s.head < Size(s) then s.head else 0, Size(s));
    match s.pc
    case Store => StoreKeepsInv(s, byte);
    case Advance => AdvanceKeepsInv(s, byte);
    case _ =>
  }

  /** Sending the oldest byte moves it from the queue to the bytes sent. */
  lemma SendMovesByte(s: Tx)
    requires Inv(s) && s.tail != s.head && s.head < Size(s)
    ensures var s' := HandlerStep(s, ID_THRE);
            && s'.tail == Succ(s.tail, Size(s)) < Size(s)
            && s.sent + Queue(s) == s'.sent + Queue(s')
  {
    SuccIs(s.tail, Size(s));
    QueuedAfterPop(s.slots, s.head, s.tail);
  }

  lemma HandlerKeepsInv(s: Tx, id: nat)
    requires Inv(s) && Reportable(s, id)
    ensures Inv(HandlerStep(s, id))
  {
    if id == ID_THRE && s.tail != s.head {
      assert s.head < Size(s) by { assert s.ier == IER_THRE; }
      SuccIs(s.head, Size(s));
      SendMovesByte(s);
    }
  }

  // ---------- Runs ----------

  predicate EventAt(states: seq<Tx>, events: seq<Event>, i: nat)
    requires i < |events| && |states| == |events| + 1
  {
    var s := states[i];
    && 0 < Size(s) < 0x100 && s.tail < Size(s) && (s.pc.Store? ==> s.head < Size(s))
    && (events[i].Handler? ==> Reportable(s, events[i].id))
    && states[i + 1] == Step(s, events[i])
  }

  ghost predicate Run(states: seq<Tx>, events: seq<Event>) {
    && |states| == |events| + 1
    && forall i: nat {:trigger EventAt(states, events, i)} :: i < |events| ==> EventAt(states, events, i)
  }

  lemma {:induction false} RunKeepsInv(states: seq<Tx>, events: seq<Event>, k: nat)
    requires Run(states, events) && Init(states[0]) && k < |states|
    ensures Inv(states[k])
  {
    if k > 0 {
      RunKeepsInv(states, events, k - 1);
      assert EventAt(states, events, k - 1);
      match events[k - 1]
      case Main(byte) => MainKeepsInv(states[k - 1], byte);
      case Handler(id) => HandlerKeepsInv(states[k - 1], id);
    }
  }

  /** Whatever the interleaving: bytes sent, then bytes queued, are the bytes pushed. */
  lemma NoLossNoReordering(states: seq<Tx>, events: seq<Event>, k: nat)
    requires Run(states, events) && Init(states[0]) && k < |states|
    ensures var s := states[k];
            && HeadSlot(s) <= Size(s) && s.tail <= Size(s)
            && s.sent + Queue(s) == s.pushed
            && |Queue(s)| < Size(s)
  {
    RunKeepsInv(states, events, k);
  }

  /** The writer is testing for room. */
  predicate Waiting(s: Tx) {
    s.pc.NextHead? || s.pc.WrapNext? || s.pc.TestFull?
  }

  /** A writer spinning on a full ring has the transmit interrupt armed; left alone with one
      such interrupt it is through after three statements. */
  lemma SpinIsArmed(states: seq<Tx>, events: seq<Event>, k: nat, byte: Byte)
    requires Run(states, events) && Init(states[0]) && k < |states|
    requires states[k].pc.TestFull? && states[k].next == states[k].tail
    ensures Inv(states[k])
    ensures states[k].ier == IER_THRE && Reportable(states[k], ID_THRE)
    ensures MainStep(states[k], byte).pc == NextHead
    ensures var freed := HandlerStep(MainStep(states[k], byte), ID_THRE);
            MainStep(MainStep(MainStep(freed, byte), byte), byte).pc == DisableIrq
  {
    RunKeepsInv(states, events, k);
    var s := states[k];
    SuccIs(s.head, Size(s));
    SuccIs(s.tail, Size(s));
  }

  /** After a transmit interrupt the interrupt stays disarmed while the writer waits, so no
      further byte is sent. */
  lemma {:induction false} StaysDisarmed(states: seq<Tx>, events: seq<Event>, a: nat, k: nat)
    requires Run(states, events) && a < k < |states|
    requires events[a] == Handler(ID_THRE)
    requires forall n | a <= n <= k :: Waiting(states[n])
    ensures states[k].ier == IER_NONE
  {
    assert EventAt(states, events, k - 1);
    if k - 1 > a {
      StaysDisarmed(states, events, a, k - 1);
    }
  }

  /**
   One transmit interrupt lets a waiting writer through, whatever else happens: if it comes in
   state `a`, then the next test for room, in any later state `k` up to which the writer has
   been waiting, with any further handler activations in between, passes.
   */
  lemma SpinIsReleased(states: seq<Tx>, events: seq<Event>, a: nat, k: nat)
    requires Run(states, events) && Init(states[0]) && a < k < |events|
    requires events[a] == Handler(ID_THRE)
    requires forall n | a <= n <= k :: Waiting(states[n])
    requires events[k].Main? && states[k].pc.TestFull?
    ensures states[k + 1].pc.DisableIrq?
  {
    RunKeepsInv(states, events, k);
    StaysDisarmed(states, events, a, k);
    assert EventAt(states, events, k);
    SuccIs(states[k].head, Size(states[k]));
  }

  /** The interrupt enable register is only ever 0 or 2. From the moment the writer has cleared it
      until it sets it again, no bit of it is set: no interrupt can be reported during the push. */
  lemma PushUndisturbed(states: seq<Tx>, events: seq<Event>, k: nat)
    requires Run(states, events) && Init(states[0]) && k < |states|
    ensures states[k].ier in {0x00, 0x02}
    ensures states[k].pc in {Store, Advance, WrapHead, EnableIrq} ==>
              states[k].ier == 0x00 && !Reportable(states[k], 0x1)
    ensures 0 < k && states[k - 1].pc.EnableIrq? && events[k - 1].Main? ==> states[k].ier == 0x02
  {
    RunKeepsInv(states, events, k);
    if k > 0 {
      assert EventAt(states, events, k - 1);
    }
  }

  /** Each completed `write_serial` pays for at most one transmitted byte. */
  lemma OneByteSentPerWrite(states: seq<Tx>, events: seq<Event>, k: nat)
    requires Run(states, events) && Init(states[0]) && k < |states|
    ensures |states[k].sent| <= states[k].enables
  {
    RunKeepsInv(states, events, k);
  }

  /** `n` statements of main code with no handler in between. */
  function MainSteps(s: Tx, byte: Byte, n: nat): (s': Tx)
    requires Inv(s)
    ensures Inv(s')
  {
    if n == 0 then s
    else
      var before := MainSteps(s, byte, n - 1);
      MainKeepsInv(before, byte);
      MainStep(before, byte)
  }

  /** The test for room, passed at the first attempt. */
  lemma RoomFound(s: Tx, byte: Byte)
    requires Inv(s) && s.pc.Idle? && !Full(s)
    ensures MainSteps(s, byte, 4) == s.(pc := DisableIrq, arg := byte, next := Succ(s.head, Size(s)))
  {
    SuccIs(s.head, Size(s));
    assert MainSteps(s, byte, 1) == s.(pc := NextHead, arg := byte);
    assert MainSteps(s, byte, 2) == s.(pc := WrapNext, arg := byte, next := U8(s.head + 1));
    assert MainSteps(s, byte, 3).pc == TestFull;
  }

  /** The push, between disabling and enabling the interrupt. */
  lemma Pushes(s: Tx, byte: Byte)
    requires Inv(s) && MainSteps(s, byte, 4).pc.DisableIrq?
    ensures var before, after := MainSteps(s, byte, 4), MainSteps(s, byte, 9);
            && after.pc == Idle && after.ier == IER_THRE
            && after.sent == before.sent && after.tail == before.tail
            && after.pushed == before.pushed + [before.arg]
  {
    assert MainSteps(s, byte, 5).pc == Store;
    assert MainSteps(s, byte, 6).pc == Advance;
    assert MainSteps(s, byte, 7).pc == WrapHead;
    assert MainSteps(s, byte, 8).pc == EnableIrq;
  }

  /** The nine statements of `write_serial` on a ring with room, left alone: the byte is
      queued last, nothing is sent, and the transmit interrupt is armed. */
  lemma WriteSerialAlone(s: Tx, byte: Byte)
    requires Inv(s) && s.pc.Idle? && !Full(s)
    ensures var s' := MainSteps(s, byte, 9);
            && s'.pc == Idle && s'.ier == IER_THRE
            && s'.sent == s.sent && s'.tail == s.tail
            && Queue(s') == Queue(s) + [byte]
  {
    RoomFound(s, byte);
    Pushes(s, byte);
    Cancel(s.sent, Queue(MainSteps(s, byte, 9)), Queue(s) + [byte]);
  }

  lemma Cancel(a: seq<Byte>, b: seq<Byte>, c: seq<Byte>)
    requires a + b == a + c
    ensures b == c
  {
    assert (a + b)[|a|..] == b && (a + c)[|a|..] == c;
  }

  ghost predicate HandlersOnly(events: seq<Event>) {
    forall i | 0 <= i < |events| :: events[i].Handler?
  }

  /** What handler activations make of an idle state: nothing until the first transmit
      interrupt, which sends one byte and disarms the interrupt for good. */
  ghost predicate Drained(first: Tx, s: Tx, fired: bool)
    requires Inv(first) && Inv(s)
  {
    if first.ier == IER_NONE || !fired then s == first
    else s.ier == IER_NONE && |Queue(s)| == (if |Queue(first)| == 0 then 0 else |Queue(first)| - 1)
  }

  ghost predicate Fired(events: seq<Event>, k: nat)
    requires k <= |events| && HandlersOnly(events)
  {
    exists i :: 0 <= i < k && events[i].id == ID_THRE
  }

  lemma HandlerDrains(first: Tx, s: Tx, fired: bool, id: nat)
    requires Inv(first) && Inv(s) && first.ier in {IER_NONE, IER_THRE}
    requires Drained(first, s, fired) && Reportable(s, id)
    ensures Inv(HandlerStep(s, id)) && Drained(first, HandlerStep(s, id), fired || id == ID_THRE)
  {
    HandlerKeepsInv(s, id);
    if id == ID_THRE && s.tail != s.head {
      assert s.ier == IER_THRE && s.head < Size(s);
      QueuedAfterPop(s.slots, s.head, s.tail);
    }
  }

  lemma {:induction false} IdleDrain(states: seq<Tx>, events: seq<Event>, k: nat)
    requires Run(states, events) && Inv(states[0]) && states[0].pc.Idle?
    requires HandlersOnly(events) && k < |states|
    ensures Inv(states[k]) && Drained(states[0], states[k], Fired(events, k))
  {
    if k > 0 {
      IdleDrain(states, events, k - 1);
      assert EventAt(states, events, k - 1);
      HandlerDrains(states[0], states[k - 1], Fired(events, k - 1), events[k - 1].id);
      assert Fired(events, k) <==> Fired(events, k - 1) || events[k - 1].id == ID_THRE;
    }
  }

  /**
   Bytes can be left in the ring forever: once main code stops writing, the handler
   activations that follow empty the ring if and only if at most one byte is queued, and a
   queued byte finds the interrupt armed and gets a transmit interrupt.
   */
  lemma DrainsIffAtMostOneQueued(states: seq<Tx>, events: seq<Event>)
    requires Run(states, events) && Inv(states[0]) && states[0].pc.Idle? && HandlersOnly(events)
    ensures Inv(states[|events|])
    ensures Queue(states[|events|]) == [] <==>
            (|Queue(states[0])| == 0 ||
             (|Queue(states[0])| == 1 && states[0].ier == IER_THRE
              && Fired(events, |events|)))
  {
    IdleDrain(states, events, |events|);
  }
}
