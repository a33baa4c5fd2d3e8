/**
 The timer driver: 64-bit operations made of 32-bit accesses while the timer keeps counting.
 Between two accesses of an operation any bus traffic of others may take place; it is given
 as a parameter, a `gap`.
 */
module MTimer {
  import opened Arith
  import opened ApbMtimer

  const MAX32: nat := U32 - 1

  function ReadCounterBus(gap: seq<Bus>): seq<Bus> {
    [Read(MTIME_HIGH)] + gap + [Read(MTIME_LOW)]
  }

  function SetCounterBus(cnt: nat, gap: seq<Bus>): seq<Bus> {
    [Write(MTIME_LOW, Split(cnt).lo)] + gap + [Write(MTIME_HIGH, Split(cnt).hi)]
  }

  function SetCmpBus(cmp: nat, gap1: seq<Bus>, gap2: seq<Bus>): seq<Bus> {
    [Write(MTIMECMP_LOW, MAX32)] + gap1
    + [Write(MTIMECMP_HIGH, Split(cmp).hi)] + gap2
    + [Write(MTIMECMP_LOW, Split(cmp).lo)]
  }

  // ---------- Reading the counter ----------

  /** What the two reads of `counter()` put together. */
  function CounterValue(r: Regs, gap: seq<Bus>): nat
    requires TimerOk(r) && BusOk(gap)
  {
    var atLow := Run(r, [Read(MTIME_HIGH)] + gap);
    Value(Word64(ReadData(r, Read(MTIME_HIGH)), ReadData(atLow, Read(MTIME_LOW))))
  }

  /**
   With `t` ticks between the two reads, the value is behind `mtime` at the low read by 2^32
   for every rollover of the low word in between, so that it always agrees with it modulo
   2^32; it is exact precisely when there was no rollover.
   */
  lemma SplitRead(r: Regs, gap: seq<Bus>)
    requires TimerOk(r) && BusOk(gap) && NoWritesTo(gap, 0) && NoWritesTo(gap, 1)
    ensures var bus := [Read(MTIME_HIGH)] + gap;
            var t := Ticks(r, bus);
            && Value(Run(r, bus).mtime) == (Value(r.mtime) + t) % U64
            && Behind(r.mtime, t, CounterValue(r, gap))
  {
    LeadingRead(gap);
    assert CounterValue(r, gap) == Value(Word64(r.mtime.hi, Run(r, [Read(MTIME_HIGH)] + gap).mtime.lo)) by {
      CounterJoins(r, gap);
    }
    JoinedAfter(r, [Read(MTIME_HIGH)] + gap);
  }

  lemma JoinedAfter(r: Regs, bus: seq<Bus>)
    requires TimerOk(r) && BusOk(bus) && NoWritesTo(bus, 0) && NoWritesTo(bus, 1)
    ensures Value(Run(r, bus).mtime) == (Value(r.mtime) + Ticks(r, bus)) % U64
    ensures Behind(r.mtime, Ticks(r, bus), Value(Word64(r.mtime.hi, Run(r, bus).mtime.lo)))
  {
    assert Behind(r.mtime, Ticks(r, bus), Value(Word64(r.mtime.hi, Run(r, bus).mtime.lo))) by {
      LowAdvances(r, bus);
      Rejoined(r.mtime, Ticks(r, bus), Run(r, bus).mtime.lo);
    }
    MtimeAdvances(r, bus);
  }

  /** How often the low half overflows in `t` ticks. */
  function Rollovers(start: Word64, t: nat): nat {
    (start.lo + t) / U32
  }

  /** `v` is read while the count goes from `start` to `t` more. */
  predicate Behind(start: Word64, t: nat, v: nat) {
    var y := Value(start) + t;
    && v == y - U32 * Rollovers(start, t)
    && (v == y <==> start.lo + t < U32)
  }

  lemma LeadingRead(gap: seq<Bus>)
    requires NoWritesTo(gap, 0) && NoWritesTo(gap, 1)
    ensures NoWritesTo([Read(MTIME_HIGH)] + gap, 0) && NoWritesTo([Read(MTIME_HIGH)] + gap, 1)
  {
  }

  lemma CounterJoins(r: Regs, gap: seq<Bus>)
    requires TimerOk(r) && BusOk(gap)
    ensures CounterValue(r, gap) == Value(Word64(r.mtime.hi, Run(r, [Read(MTIME_HIGH)] + gap).mtime.lo))
  {
  }

  /** Joining the high half of one count and the low half of a later one. */
  lemma Rejoined(start: Word64, t: nat, lo: nat)
    requires Fits(start) && lo == (start.lo + t) % U32
    ensures Behind(start, t, Value(Word64(start.hi, lo)))
  {
  }

  // ---------- Writing the counter ----------

  /**
   With `t` ticks between the two writes, the counter ends at `cnt + t` exactly when the low
   word does not overflow before the high word is written; otherwise the carry is lost.
   */
  lemma SplitWrite(r: Regs, cnt: nat, gap: seq<Bus>)
    requires TimerOk(r) && cnt < U64 && BusOk(gap) && NoWritesTo(gap, 0) && NoWritesTo(gap, 1)
    ensures BusOk(SetCounterBus(cnt, gap))
    ensures var bus := SetCounterBus(cnt, gap); SplitWritten(cnt, Ticks(r, bus), Run(r, bus).mtime)
  {
    ValueOfSplit(cnt);
    var bus := SetCounterBus(cnt, gap);
    HalvesWritten(r, Split(cnt), gap);
    LowAfterGap(Next(r, Write(MTIME_LOW, Split(cnt).lo)), cnt, gap, Ticks(r, bus), Run(r, bus).mtime);
  }

  lemma LowAfterGap(r1: Regs, cnt: nat, gap: seq<Bus>, t: nat, mtime: Word64)
    requires TimerOk(r1) && cnt < U64 && BusOk(gap) && NoWritesTo(gap, 0) && NoWritesTo(gap, 1)
    requires r1.mtime.lo == Split(cnt).lo && t == Ticks(r1, gap)
    requires mtime == Word64(Split(cnt).hi, Run(r1, gap).mtime.lo)
    ensures SplitWritten(cnt, t, mtime)
  {
    LowAdvances(r1, gap);
    CarryLost(cnt, t, Run(r1, gap).mtime.lo, mtime);
  }

  /** The count after `t` ticks between the two writes of `cnt`. */
  predicate SplitWritten(cnt: nat, t: nat, mtime: Word64) {
    var c := Split(cnt);
    && mtime == Word64(c.hi, (c.lo + t) % U32)
    && (Value(mtime) == cnt + t <==> c.lo + t < U32)
  }

  lemma HalvesWritten(r: Regs, c: Word64, gap: seq<Bus>)
    requires TimerOk(r) && Fits(c) && BusOk(gap)
    ensures var bus, r1 := [Write(MTIME_LOW, c.lo)] + gap + [Write(MTIME_HIGH, c.hi)], Next(r, Write(MTIME_LOW, c.lo));
            && BusOk(bus) && TimerOk(r1) && r1.mtime.lo == c.lo
            && Run(r, bus).mtime == Word64(c.hi, Run(r1, gap).mtime.lo)
            && Ticks(r, bus) == Ticks(r1, gap)
  {
    Bracketed(r, Write(MTIME_LOW, c.lo), gap, Write(MTIME_HIGH, c.hi));
  }

  /** What a write to each register does. */
  lemma WriteEffects(r: Regs, v: nat)
    requires TimerOk(r) && v < U32
    ensures Next(r, Write(MTIME_LOW, v)) == r.(mtime := Word64(r.mtime.hi, v), counter := 0)
    ensures Next(r, Write(MTIME_HIGH, v)) == r.(mtime := Word64(v, r.mtime.lo), counter := 0)
    ensures Next(r, Write(MTIMECMP_LOW, v)) == r.(mtimecmp := Word64(r.mtimecmp.hi, v), counter := 0)
    ensures Next(r, Write(MTIMECMP_HIGH, v)) == r.(mtimecmp := Word64(v, r.mtimecmp.lo), counter := 0)
    ensures Next(r, Write(MTIME_CTRL, v)) == r.(prescaler := v / 0x100 % 8, enable := v % 2 == 1, counter := 0)
  {
  }

  /** A write, some traffic and another write, cycle by cycle. */
  lemma Bracketed(r: Regs, first: Bus, gap: seq<Bus>, last: Bus)
    requires TimerOk(r) && BusOk(gap) && first.pwdata < U32 && last.pwdata < U32
    requires IsWrite(first) && IsWrite(last)
    ensures TimerOk(Next(r, first)) && BusOk([first] + gap + [last])
    ensures Run(r, [first] + gap + [last]) == Next(Run(Next(r, first), gap), last)
    ensures Ticks(r, [first] + gap + [last]) == Ticks(Next(r, first), gap)
  {
    NextKeepsTimerOk(r, first);
    OneCycle(r, first);
    RunAppend(r, [first], gap);
    RunAppend(r, [first] + gap, [last]);
    OneCycle(Run(r, [first] + gap), last);
  }

  lemma CarryLost(cnt: nat, t: nat, lo: nat, mtime: Word64)
    requires cnt < U64 && lo == (Split(cnt).lo + t) % U32 && mtime == Word64(Split(cnt).hi, lo)
    ensures SplitWritten(cnt, t, mtime)
  {
    ValueOfSplit(cnt);
  }

  lemma OneCycle(r: Regs, b: Bus)
    requires TimerOk(r) && b.pwdata < U32
    ensures Run(r, [b]) == Next(r, b)
    ensures Ticks(r, [b]) == if Ticks1(r, b) then 1 else 0
    ensures Writes([b]) == if IsWrite(b) then 1 else 0
  {
  }

  // ---------- Setting the compare value ----------

  predicate NoCompareWrites(gap: seq<Bus>) {
    NoWritesTo(gap, 2) && NoWritesTo(gap, 3)
  }

  /**
   At every cycle of `set_cmp`, with arbitrary other traffic between its writes, the compare
   value is at least the old one until the high word is written and at least the new one from
   then on, so the interrupt line never rises early; at the end it is the new one.
   */
  lemma CompareNeverDips(r: Regs, cmp: nat, gap1: seq<Bus>, gap2: seq<Bus>, k: nat)
    requires TimerOk(r) && cmp < U64 && BusOk(gap1) && BusOk(gap2)
    requires NoCompareWrites(gap1) && NoCompareWrites(gap2)
    requires k <= |SetCmpBus(cmp, gap1, gap2)|
    ensures BusOk(SetCmpBus(cmp, gap1, gap2))
    ensures var now := Run(r, SetCmpBus(cmp, gap1, gap2)[..k]);
            var least := if k < |gap1| + 2 then Value(r.mtimecmp) else cmp;
            && Value(now.mtimecmp) >= least
            && (Irq(now) ==> Value(now.mtime) >= least)
            && (k == |SetCmpBus(cmp, gap1, gap2)| ==> now.mtimecmp == Split(cmp))
  {
    ValueOfSplit(cmp);
    var bus := SetCmpBus(cmp, gap1, gap2);
    var first, second, third :=
      Write(MTIMECMP_LOW, MAX32), Write(MTIMECMP_HIGH, Split(cmp).hi), Write(MTIMECMP_LOW, Split(cmp).lo);
    var done := |gap1| + 2;
    CompareWrites(r, Run(r, [first] + gap1), Run(r, [first] + gap1 + [second] + gap2), cmp);
    CompareAfter(r, [], first, gap1);
    var head := [first] + gap1;
    CompareAfter(r, head, second, gap2);
    if k == 0 {
      assert bus[..0] == [];
    } else if k < done {
      assert bus[..k] == [first] + gap1[..k - 1];
      CompareAfter(r, [], first, gap1[..k - 1]);
    } else if k < |bus| {
      assert bus[..k] == head + [second] + gap2[..k - done];
      CompareAfter(r, head, second, gap2[..k - done]);
    } else {
      assert bus[..k] == head + [second] + gap2 + [third] + [];
      CompareAfter(r, head + [second] + gap2, third, []);
    }
  }

  /** The three writes, one after the other, whatever else changed in between. */
  lemma CompareWrites(r: Regs, r1: Regs, r2: Regs, cmp: nat)
    requires TimerOk(r) && TimerOk(r1) && TimerOk(r2) && cmp < U64
    ensures Fits(Split(cmp))
    ensures var c := Split(cmp);
            var s1 := Next(r, Write(MTIMECMP_LOW, MAX32)).mtimecmp;
            var s2 := Next(r1, Write(MTIMECMP_HIGH, c.hi)).mtimecmp;
            && Value(s1) >= Value(r.mtimecmp)
            && (r1.mtimecmp == s1 ==> Value(s2) >= cmp)
            && (r1.mtimecmp == s1 && r2.mtimecmp == s2 ==> Next(r2, Write(MTIMECMP_LOW, c.lo)).mtimecmp == c)
  {
  }

  /** The compare value after a write and traffic that leaves it alone. */
  lemma CompareAfter(r: Regs, before: seq<Bus>, w: Bus, gap: seq<Bus>)
    requires TimerOk(r) && BusOk(before) && BusOk(gap) && w.pwdata < U32 && NoCompareWrites(gap)
    ensures BusOk(before + [w] + gap)
    ensures Run(r, before + [w] + gap).mtimecmp == Next(Run(r, before), w).mtimecmp
    ensures before == [] ==> [w] + gap == before + [w] + gap
  {
    RunAppend(r, before, [w]);
    OneCycle(Run(r, before), w);
    RunAppend(r, before + [w], gap);
    CompareKept(Run(r, before + [w]), gap);
  }

  // ---------- Reading the compare value back ----------

  function ReadCmpBus(gap: seq<Bus>): seq<Bus> {
    [Read(MTIMECMP_HIGH)] + gap + [Read(MTIMECMP_LOW)]
  }

  /** What the two reads of `cmp()` put together. */
  function CmpValue(r: Regs, gap: seq<Bus>): nat
    requires TimerOk(r) && BusOk(gap)
  {
    var atLow := Run(r, [Read(MTIMECMP_HIGH)] + gap);
    Value(Word64(ReadData(r, Read(MTIMECMP_HIGH)), ReadData(atLow, Read(MTIMECMP_LOW))))
  }

  /** `cmp()` returns the compare value, if nobody writes it between the reads. */
  lemma CmpReadsBack(r: Regs, gap: seq<Bus>)
    requires TimerOk(r) && BusOk(gap) && NoCompareWrites(gap)
    ensures CmpValue(r, gap) == Value(r.mtimecmp)
  {
    assert NoCompareWrites([Read(MTIMECMP_HIGH)] + gap);
    CompareKept(r, [Read(MTIMECMP_HIGH)] + gap);
  }

  /** After `set_cmp(cmp)` and any traffic that leaves the compare register alone, `cmp()`
      returns `cmp`. */
  lemma SetCmpReadsBack(r: Regs, cmp: nat, gap1: seq<Bus>, gap2: seq<Bus>, wait: seq<Bus>, gap: seq<Bus>)
    requires TimerOk(r) && cmp < U64 && BusOk(gap1) && BusOk(gap2) && BusOk(wait) && BusOk(gap)
    requires NoCompareWrites(gap1) && NoCompareWrites(gap2) && NoCompareWrites(wait) && NoCompareWrites(gap)
    ensures BusOk(SetCmpBus(cmp, gap1, gap2) + wait)
    ensures CmpValue(Run(r, SetCmpBus(cmp, gap1, gap2) + wait), gap) == cmp
  {
    var s := SetCmpBus(cmp, gap1, gap2);
    CompareNeverDips(r, cmp, gap1, gap2, |s|);
    assert s[..|s|] == s;
    RunAppend(r, s, wait);
    CompareKept(Run(r, s), wait);
    CmpReadsBack(Run(r, s + wait), gap);
    ValueOfSplit(cmp);
  }

  // ---------- What the operations leave alone ----------

  lemma SetCmpLeavesTime(cmp: nat, gap1: seq<Bus>, gap2: seq<Bus>, reg: nat)
    requires reg in {0, 1, 4} && NoWritesTo(gap1, reg) && NoWritesTo(gap2, reg)
    ensures NoWritesTo(SetCmpBus(cmp, gap1, gap2), reg)
  {
  }

  /** `set_cmp` changes neither the settings nor, but for its ticks, the count. */
  lemma SetCmpKeepsRest(r: Regs, cmp: nat, gap1: seq<Bus>, gap2: seq<Bus>)
    requires TimerOk(r) && cmp < U64 && BusOk(gap1) && BusOk(gap2)
    requires forall reg: nat | reg in {0, 1, 4} :: NoWritesTo(gap1, reg) && NoWritesTo(gap2, reg)
    ensures BusOk(SetCmpBus(cmp, gap1, gap2))
    ensures var bus := SetCmpBus(cmp, gap1, gap2);
            var r' := Run(r, bus);
            && r'.enable == r.enable && r'.prescaler == r.prescaler
            && Value(r'.mtime) == (Value(r.mtime) + Ticks(r, bus)) % U64
  {
    ValueOfSplit(cmp);
    var bus := SetCmpBus(cmp, gap1, gap2);
    SetCmpLeavesTime(cmp, gap1, gap2, 0);
    SetCmpLeavesTime(cmp, gap1, gap2, 1);
    SetCmpLeavesTime(cmp, gap1, gap2, 4);
    CtrlKept(r, bus);
    MtimeAdvances(r, bus);
  }

  /** `set_counter` changes neither the compare value nor the settings. */
  lemma SetCounterKeepsRest(r: Regs, cnt: nat, gap: seq<Bus>)
    requires TimerOk(r) && cnt < U64 && BusOk(gap) && NoCompareWrites(gap) && NoWritesTo(gap, 4)
    ensures BusOk(SetCounterBus(cnt, gap))
    ensures var r' := Run(r, SetCounterBus(cnt, gap));
            r'.mtimecmp == r.mtimecmp && r'.enable == r.enable && r'.prescaler == r.prescaler
  {
    ValueOfSplit(cnt);
    var bus := SetCounterBus(cnt, gap);
    assert NoWritesTo(bus, 2) && NoWritesTo(bus, 3) && NoWritesTo(bus, 4);
    CompareKept(r, bus);
    CtrlKept(r, bus);
  }

  /** Reads change nothing but what time does. */
  lemma OnlyTimePasses(r: Regs, bus: seq<Bus>)
    requires TimerOk(r) && BusOk(bus) && HandsOff(bus)
    ensures Run(r, bus).mtimecmp == r.mtimecmp
    ensures Run(r, bus).enable == r.enable && Run(r, bus).prescaler == r.prescaler
    ensures Value(Run(r, bus).mtime) == (Value(r.mtime) + Ticks(r, bus)) % U64
  {
    CompareKept(r, bus);
    CtrlKept(r, bus);
    MtimeAdvances(r, bus);
  }

  /** `counter()` and `cmp()` only read. */
  lemma CounterAndCmpOnlyRead(gap: seq<Bus>)
    requires HandsOff(gap)
    ensures HandsOff(ReadCounterBus(gap)) && HandsOff(ReadCmpBus(gap))
  {
  }

  /** The control word of `enable_with_prescaler`. */
  function EnableWord(prescaler: nat): nat {
    prescaler * 256 + 1
  }

  /** The timer runs with the given prescaler afterwards, at the same count. */
  lemma EnabledWithPrescaler(r: Regs, prescaler: nat)
    requires TimerOk(r) && prescaler <= 7
    ensures EnableWord(prescaler) < U32
    ensures Next(r, Write(MTIME_CTRL, EnableWord(prescaler)))
            == r.(prescaler := prescaler, enable := true, counter := 0)
  {
    DivMod(EnableWord(prescaler), 0x100, prescaler, 1);
    WriteEffects(r, EnableWord(prescaler));
  }

  // ---------- Resetting ----------

  /** Traffic of others that leaves the timer's registers alone. */
  predicate HandsOff(gap: seq<Bus>) {
    forall i | 0 <= i < |gap| :: !IsWrite(gap[i])
  }

  /** One write, then traffic of others. */
  function WriteAndWait(paddr: nat, pwdata: nat, gap: seq<Bus>): seq<Bus> {
    [Write(paddr, pwdata)] + gap
  }

  function ResetCounterBus(g1: seq<Bus>, g2: seq<Bus>, g3: seq<Bus>): seq<Bus> {
    g1 + WriteAndWait(MTIME_LOW, 0, g2) + WriteAndWait(MTIME_HIGH, 0, g3)
  }

  function ResetCompareBus(g4: seq<Bus>): seq<Bus> {
    WriteAndWait(MTIMECMP_LOW, MAX32, g4) + [Write(MTIMECMP_HIGH, MAX32)]
  }

  /** The five writes of `reset`. */
  function ResetBus(g1: seq<Bus>, g2: seq<Bus>, g3: seq<Bus>, g4: seq<Bus>): seq<Bus> {
    [Write(MTIME_CTRL, 0)] + (ResetCounterBus(g1, g2, g3) + ResetCompareBus(g4))
  }

  lemma NoWritesAppend(a: seq<Bus>, b: seq<Bus>, reg: nat)
    requires NoWritesTo(a, reg) && NoWritesTo(b, reg)
    ensures NoWritesTo(a + b, reg)
  {
  }

  lemma {:induction false} StaysDisabled(r: Regs, bus: seq<Bus>)
    requires TimerOk(r) && BusOk(bus) && !r.enable && NoWritesTo(bus, 4)
    ensures !Run(r, bus).enable
  {
    if bus != [] {
      StaysDisabled(r, bus[..|bus| - 1]);
    }
  }

  lemma ResetLeavesCtrl(g1: seq<Bus>, g2: seq<Bus>, g3: seq<Bus>, g4: seq<Bus>)
    requires BusOk(g1) && BusOk(g2) && BusOk(g3) && BusOk(g4)
    requires HandsOff(g1) && HandsOff(g2) && HandsOff(g3) && HandsOff(g4)
    ensures var rest := ResetCounterBus(g1, g2, g3) + ResetCompareBus(g4); NoWritesTo(rest, 4) && BusOk(rest)
  {
  }

  /** From its first write on, `reset` keeps the interrupt line low. */
  lemma ResetSilencesIrq(r: Regs, g1: seq<Bus>, g2: seq<Bus>, g3: seq<Bus>, g4: seq<Bus>, k: nat)
    requires TimerOk(r) && BusOk(g1) && BusOk(g2) && BusOk(g3) && BusOk(g4)
    requires HandsOff(g1) && HandsOff(g2) && HandsOff(g3) && HandsOff(g4)
    requires 0 < k <= |ResetBus(g1, g2, g3, g4)|
    ensures BusOk(ResetBus(g1, g2, g3, g4))
    ensures !Irq(Run(r, ResetBus(g1, g2, g3, g4)[..k]))
  {
    ResetLeavesCtrl(g1, g2, g3, g4);
    AfterStop(r, ResetCounterBus(g1, g2, g3) + ResetCompareBus(g4), k - 1);
  }

  lemma AfterStop(r: Regs, rest: seq<Bus>, k: nat)
    requires TimerOk(r) && BusOk(rest) && NoWritesTo(rest, 4) && k <= |rest|
    ensures BusOk([Write(MTIME_CTRL, 0)] + rest)
    ensures !Irq(Run(r, ([Write(MTIME_CTRL, 0)] + rest)[..k + 1]))
  {
    var first := Write(MTIME_CTRL, 0);
    assert ([first] + rest)[..k + 1] == [first] + rest[..k];
    OneCycle(r, first);
    RunAppend(r, [first], rest[..k]);
    StaysDisabled(Run(r, [first]), rest[..k]);
  }

  /** A write that leaves the timer stopped, followed by traffic that leaves it alone. */
  lemma StoppedWrite(r: Regs, before: seq<Bus>, paddr: nat, pwdata: nat, gap: seq<Bus>)
    requires TimerOk(r) && BusOk(before) && BusOk(gap) && HandsOff(gap) && pwdata < U32
    requires !Next(Run(r, before), Write(paddr, pwdata)).enable
    ensures BusOk(before + WriteAndWait(paddr, pwdata, gap))
    ensures var r1 := Next(Run(r, before), Write(paddr, pwdata));
            var r' := Run(r, before + WriteAndWait(paddr, pwdata, gap));
            && !r'.enable && r'.prescaler == r1.prescaler
            && r'.mtime == r1.mtime && r'.mtimecmp == r1.mtimecmp
  {
    var w := Write(paddr, pwdata);
    assert before + WriteAndWait(paddr, pwdata, gap) == before + [w] + gap;
    OneCycle(Run(r, before), w);
    RunAppend(r, before, [w]);
    RunAppend(r, before + [w], gap);
    StoppedStays(Run(r, before + [w]), gap);
    CompareKept(Run(r, before + [w]), gap);
  }

  /** `reset` leaves the timer stopped at zero with the compare value at its maximum. */
  lemma ResetResult(r: Regs, g1: seq<Bus>, g2: seq<Bus>, g3: seq<Bus>, g4: seq<Bus>)
    requires TimerOk(r) && BusOk(g1) && BusOk(g2) && BusOk(g3) && BusOk(g4)
    requires HandsOff(g1) && HandsOff(g2) && HandsOff(g3) && HandsOff(g4)
    ensures BusOk(ResetBus(g1, g2, g3, g4))
    ensures var r' := Run(r, ResetBus(g1, g2, g3, g4));
            Value(r'.mtime) == 0 && Value(r'.mtimecmp) == U64 - 1 && r'.prescaler == 0 && !r'.enable
  {
    var b1, b2 := WriteAndWait(MTIME_CTRL, 0, g1), WriteAndWait(MTIME_LOW, 0, g2);
    var b3 := WriteAndWait(MTIME_HIGH, 0, g3);
    ResetBusParts(g1, g2, g3, g4);
    StoppedWrite(r, [], MTIME_CTRL, 0, g1);
    ResetCounter(r, [] + b1, g2, g3);
    ResetCompare(r, [] + b1 + b2 + b3, g4);
  }

  lemma ResetBusParts(g1: seq<Bus>, g2: seq<Bus>, g3: seq<Bus>, g4: seq<Bus>)
    ensures ResetBus(g1, g2, g3, g4)
            == [] + WriteAndWait(MTIME_CTRL, 0, g1) + WriteAndWait(MTIME_LOW, 0, g2) + WriteAndWait(MTIME_HIGH, 0, g3)
               + WriteAndWait(MTIMECMP_LOW, MAX32, g4) + WriteAndWait(MTIMECMP_HIGH, MAX32, [])
  {
  }

  lemma ResetCounter(r: Regs, before: seq<Bus>, g2: seq<Bus>, g3: seq<Bus>)
    requires TimerOk(r) && BusOk(before) && !Run(r, before).enable
    requires BusOk(g2) && BusOk(g3) && HandsOff(g2) && HandsOff(g3)
    ensures var bus := before + WriteAndWait(MTIME_LOW, 0, g2) + WriteAndWait(MTIME_HIGH, 0, g3);
            && BusOk(bus)
            && var r' := Run(r, bus);
            !r'.enable && r'.mtime == Word64(0, 0) && r'.prescaler == Run(r, before).prescaler
  {
    var mid := before + WriteAndWait(MTIME_LOW, 0, g2);
    WriteEffects(Run(r, before), 0);
    StoppedWrite(r, before, MTIME_LOW, 0, g2);
    WriteEffects(Run(r, mid), 0);
    StoppedWrite(r, mid, MTIME_HIGH, 0, g3);
  }

  lemma ResetCompare(r: Regs, before: seq<Bus>, g4: seq<Bus>)
    requires TimerOk(r) && BusOk(before) && !Run(r, before).enable && BusOk(g4) && HandsOff(g4)
    ensures var bus := before + WriteAndWait(MTIMECMP_LOW, MAX32, g4) + WriteAndWait(MTIMECMP_HIGH, MAX32, []);
            && BusOk(bus)
            && var r0, r' := Run(r, before), Run(r, bus);
            !r'.enable && r'.mtime == r0.mtime && r'.mtimecmp == Word64(MAX32, MAX32) && r'.prescaler == r0.prescaler
  {
    var mid := before + WriteAndWait(MTIMECMP_LOW, MAX32, g4);
    WriteEffects(Run(r, before), MAX32);
    StoppedWrite(r, before, MTIMECMP_LOW, MAX32, g4);
    WriteEffects(Run(r, mid), MAX32);
    StoppedWrite(r, mid, MTIMECMP_HIGH, MAX32, []);
  }

  // ---------- The driver ----------

  /** The two reads of `counter()`, in a timer that has been through `trace`. */
  lemma CounterReads(trace: seq<Bus>, gap: seq<Bus>)
    requires TimerOk(RESET) && BusOk(trace) && BusOk(gap)
    ensures BusOk(trace + [Read(MTIME_HIGH)] + gap)
    ensures CounterValue(Run(RESET, trace), gap)
            == Value(Word64(ReadData(Run(RESET, trace), Read(MTIME_HIGH)),
                            ReadData(Run(RESET, trace + [Read(MTIME_HIGH)] + gap), Read(MTIME_LOW))))
  {
    RunAppend(RESET, trace, [Read(MTIME_HIGH)] + gap);
    assert trace + [Read(MTIME_HIGH)] + gap == trace + ([Read(MTIME_HIGH)] + gap);
  }

  /** The two reads of `cmp()`, in a timer that has been through `trace`. */
  lemma CmpReads(trace: seq<Bus>, gap: seq<Bus>)
    requires TimerOk(RESET) && BusOk(trace) && BusOk(gap)
    ensures BusOk(trace + [Read(MTIMECMP_HIGH)] + gap)
    ensures CmpValue(Run(RESET, trace), gap)
            == Value(Word64(ReadData(Run(RESET, trace), Read(MTIMECMP_HIGH)),
                            ReadData(Run(RESET, trace + [Read(MTIMECMP_HIGH)] + gap), Read(MTIMECMP_LOW))))
  {
    RunAppend(RESET, trace, [Read(MTIMECMP_HIGH)] + gap);
    assert trace + [Read(MTIMECMP_HIGH)] + gap == trace + ([Read(MTIMECMP_HIGH)] + gap);
  }

  lemma ResetAccesses(t: seq<Bus>, g1: seq<Bus>, g2: seq<Bus>, g3: seq<Bus>, g4: seq<Bus>)
    ensures t + [Write(MTIME_CTRL, 0)] + g1 + [Write(MTIME_LOW, 0)] + g2 + [Write(MTIME_HIGH, 0)] + g3
            + [Write(MTIMECMP_LOW, MAX32)] + g4 + [Write(MTIMECMP_HIGH, MAX32)]
            == t + ResetBus(g1, g2, g3, g4)
  {
  }

  class MTimer {
    const dev: ApbMtimer

    constructor (dev: ApbMtimer)
      ensures this.dev == dev
    {
      this.dev := dev;
    }

    method WriteU32(paddr: nat, value: nat)
      requires dev.Valid() && value < U32
      modifies dev
      ensures dev.Valid() && dev.trace == old(dev.trace) + [Write(paddr, value)]
    {
      var _ := dev.Clock(Write(paddr, value));
    }

    method ReadU32(paddr: nat) returns (value: nat)
      requires dev.Valid()
      modifies dev
      ensures dev.Valid() && dev.trace == old(dev.trace) + [Read(paddr)]
      ensures value == ReadData(old(dev.State()), Read(paddr))
    {
      value := dev.Clock(Read(paddr));
    }

    /** What happens on the bus until the driver's next access. */
    method Others(gap: seq<Bus>)
      requires dev.Valid() && BusOk(gap)
      modifies dev
      ensures dev.Valid() && dev.trace == old(dev.trace) + gap
    {
      for i := 0 to |gap|
        invariant dev.Valid() && dev.trace == old(dev.trace) + gap[..i]
      {
        var _ := dev.Clock(gap[i]);
      }
    }

    method Counter(gap: seq<Bus>) returns (mtime: nat)
      requires dev.Valid() && BusOk(gap)
      modifies dev
      ensures dev.Valid() && dev.trace == old(dev.trace) + ReadCounterBus(gap)
      ensures mtime == CounterValue(old(dev.State()), gap)
    {
      var hi := ReadU32(MTIME_HIGH);
      Others(gap);
      CounterReads(old(dev.trace), gap);
      var lo := ReadU32(MTIME_LOW);
      mtime := Value(Word64(hi, lo));
    }

    method SetCounter(cnt: nat, gap: seq<Bus>)
      requires dev.Valid() && cnt < U64 && BusOk(gap)
      modifies dev
      ensures dev.Valid() && dev.trace == old(dev.trace) + SetCounterBus(cnt, gap)
    {
      ValueOfSplit(cnt);
      WriteU32(MTIME_LOW, Split(cnt).lo);
      Others(gap);
      WriteU32(MTIME_HIGH, Split(cnt).hi);
    }

    method Reset(g1: seq<Bus>, g2: seq<Bus>, g3: seq<Bus>, g4: seq<Bus>)
      requires dev.Valid() && BusOk(g1) && BusOk(g2) && BusOk(g3) && BusOk(g4)
      modifies dev
      ensures dev.Valid() && dev.trace == old(dev.trace) + ResetBus(g1, g2, g3, g4)
    {
      WriteU32(MTIME_CTRL, 0);
      Others(g1);
      WriteU32(MTIME_LOW, 0);
      Others(g2);
      WriteU32(MTIME_HIGH, 0);
      Others(g3);
      WriteU32(MTIMECMP_LOW, MAX32);
      Others(g4);
      WriteU32(MTIMECMP_HIGH, MAX32);
      ResetAccesses(old(dev.trace), g1, g2, g3, g4);
    }

    method SetCmp(cmp: nat, gap1: seq<Bus>, gap2: seq<Bus>)
      requires dev.Valid() && cmp < U64 && BusOk(gap1) && BusOk(gap2)
      modifies dev
      ensures dev.Valid() && dev.trace == old(dev.trace) + SetCmpBus(cmp, gap1, gap2)
    {
      ValueOfSplit(cmp);
      // Raising the low word first keeps the register from being reduced on the way.
      WriteU32(MTIMECMP_LOW, MAX32);
      Others(gap1);
      WriteU32(MTIMECMP_HIGH, Split(cmp).hi);
      Others(gap2);
      WriteU32(MTIMECMP_LOW, Split(cmp).lo);
    }

    method Cmp(gap: seq<Bus>) returns (mtimecmp: nat)
      requires dev.Valid() && BusOk(gap)
      modifies dev
      ensures dev.Valid() && dev.trace == old(dev.trace) + ReadCmpBus(gap)
      ensures mtimecmp == CmpValue(old(dev.State()), gap)
    {
      var hi := ReadU32(MTIMECMP_HIGH);
      Others(gap);
      CmpReads(old(dev.trace), gap);
      var lo := ReadU32(MTIMECMP_LOW);
      mtimecmp := Value(Word64(hi, lo));
    }

    method EnableWithPrescaler(prescaler: nat)
      requires dev.Valid() && prescaler <= 7
      modifies dev
      ensures dev.Valid() && dev.trace == old(dev.trace) + [Write(MTIME_CTRL, EnableWord(prescaler))]
    {
      WriteU32(MTIME_CTRL, EnableWord(prescaler));
    }

    /** Sets the enable bit by a read and a write of the control register. */
    method Enable(gap: seq<Bus>)
      requires dev.Valid() && BusOk(gap)
      modifies dev
      ensures dev.Valid()
      ensures dev.trace == old(dev.trace) + [Read(MTIME_CTRL)] + gap
                           + [Write(MTIME_CTRL, WithBit0(ReadData(old(dev.State()), Read(MTIME_CTRL))))]
    {
      var ctrl := ReadU32(MTIME_CTRL);
      Others(gap);
      assert WithBit0(ctrl) < U32;
      WriteU32(MTIME_CTRL, WithBit0(ctrl));
    }
  }

  /** `value | 1` */
  function WithBit0(value: nat): nat {
    if value % 2 == 1 then value else value + 1
  }

  /** The low-word variant of the driver. */
  class MTimerLo {
    const timer: MTimer

    constructor (timer: MTimer)
      ensures this.timer == timer
    {
      this.timer := timer;
    }

    /** The three writes are those of the 64-bit `set_cmp` for a value below 2^32. */
    method SetCmp(cmp: nat, gap1: seq<Bus>, gap2: seq<Bus>)
      requires timer.dev.Valid() && cmp < U32 && BusOk(gap1) && BusOk(gap2)
      modifies timer.dev
      ensures timer.dev.Valid() && timer.dev.trace == old(timer.dev.trace) + SetCmpBus(cmp, gap1, gap2)
    {
      timer.WriteU32(MTIMECMP_LOW, MAX32);
      timer.Others(gap1);
      timer.WriteU32(MTIMECMP_HIGH, 0x0);
      timer.Others(gap2);
      timer.WriteU32(MTIMECMP_LOW, cmp);
      assert Split(cmp) == Word64(0, cmp);
    }
  }
}
