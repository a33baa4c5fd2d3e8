/**
 The one-shot timer: `start` reads the count, sets the compare value that many ticks ahead
 and enables the timer, all while the timer may already be counting.
 */
module OneShot {
  import opened Arith
  import opened ApbMtimer
  import opened MTimer

  function CtrlWord(enable: bool, prescaler: nat): nat {
    (if enable then 1 else 0) + prescaler * 0x100
  }

  /** The traffic of `start` from the low-word read on: set the compare value, then read and
      write back the control register with the enable bit set. */
  function ArmBus(target: nat, ctrl: nat, g1: seq<Bus>, g2: seq<Bus>, g3: seq<Bus>, g4: seq<Bus>,
                  g5: seq<Bus>): seq<Bus>
  {
    ([Read(MTIME_LOW)] + g1) + SetCmpBus(target, g2, g3) + (g4 + [Read(MTIME_CTRL)] + g5)
    + [Write(MTIME_CTRL, WithBit0(ctrl))]
  }

  predicate GapsOk(g1: seq<Bus>, g2: seq<Bus>, g3: seq<Bus>, g4: seq<Bus>, g5: seq<Bus>) {
    && HandsOff(g1) && HandsOff(g2) && HandsOff(g3) && HandsOff(g4) && HandsOff(g5)
    && BusOk(g1) && BusOk(g2) && BusOk(g3) && BusOk(g4) && BusOk(g5)
  }

  lemma {:induction false} HandsOffWrites(gap: seq<Bus>)
    requires HandsOff(gap)
    ensures Writes(gap) == 0
  {
    if gap != [] {
      HandsOffWrites(gap[..|gap| - 1]);
    }
  }

  lemma {:induction false} WritesAppend(a: seq<Bus>, b: seq<Bus>)
    ensures Writes(a + b) == Writes(a) + Writes(b)
  {
    if b == [] {
      assert a + b == a;
    } else {
      assert (a + b)[..|a| + |b| - 1] == a + b[..|b| - 1];
      WritesAppend(a, b[..|b| - 1]);
    }
  }

  lemma OneWrite(b: Bus)
    ensures Writes([b]) == if IsWrite(b) then 1 else 0
  {
  }

  lemma SteadyAppend(p: nat, a: seq<Bus>, b: seq<Bus>)
    requires AllSteady(p, a) && AllSteady(p, b) && BusOk(a) && BusOk(b)
    ensures AllSteady(p, a + b) && BusOk(a + b)
  {
  }

  lemma SetCmpIsSteady(p: nat, cmp: nat, g2: seq<Bus>, g3: seq<Bus>)
    requires cmp < U64 && HandsOff(g2) && HandsOff(g3) && BusOk(g2) && BusOk(g3)
    ensures var bus := SetCmpBus(cmp, g2, g3); AllSteady(p, bus) && BusOk(bus) && Writes(bus) == 3
  {
    ValueOfSplit(cmp);
    var w1, w2, w3 :=
      Write(MTIMECMP_LOW, MAX32), Write(MTIMECMP_HIGH, Split(cmp).hi), Write(MTIMECMP_LOW, Split(cmp).lo);
    SteadyAppend(p, [w1], g2);
    SteadyAppend(p, [w1] + g2, [w2]);
    SteadyAppend(p, [w1] + g2 + [w2], g3);
    SteadyAppend(p, [w1] + g2 + [w2] + g3, [w3]);
    WritesAppend([w1], g2);
    WritesAppend([w1] + g2, [w2]);
    WritesAppend([w1] + g2 + [w2], g3);
    WritesAppend([w1] + g2 + [w2] + g3, [w3]);
    HandsOffWrites(g2);
    HandsOffWrites(g3);
    OneWrite(w1);
    OneWrite(w2);
    OneWrite(w3);
  }

  /** Arming a running timer is steady traffic with exactly four writes. */
  lemma ArmIsSteady(p: nat, target: nat, g1: seq<Bus>, g2: seq<Bus>, g3: seq<Bus>, g4: seq<Bus>, g5: seq<Bus>)
    requires p < 8 && target < U64 && GapsOk(g1, g2, g3, g4, g5)
    ensures var bus := ArmBus(target, CtrlWord(true, p), g1, g2, g3, g4, g5);
            AllSteady(p, bus) && BusOk(bus) && Writes(bus) == 4
  {
    var a, b := [Read(MTIME_LOW)] + g1, g4 + [Read(MTIME_CTRL)] + g5;
    var s, w := SetCmpBus(target, g2, g3), Write(MTIME_CTRL, WithBit0(CtrlWord(true, p)));
    SetCmpIsSteady(p, target, g2, g3);
    assert HandsOff(a) && HandsOff(b);
    HandsOffWrites(a);
    HandsOffWrites(b);
    OneWrite(w);
    assert CtrlWord(true, p) / 0x100 % 8 == p && CtrlWord(true, p) % 2 == 1;
    SteadyAppend(p, a, s);
    SteadyAppend(p, a + s, b);
    SteadyAppend(p, a + s + b, [w]);
    WritesAppend(a, s);
    WritesAppend(a + s, b);
    WritesAppend(a + s + b, [w]);
  }

  /** After a completed `set_cmp` and traffic that leaves the compare register alone, it holds
      the new value. */
  lemma SetCmpThenQuiet(r: Regs, before: seq<Bus>, target: nat, g2: seq<Bus>, g3: seq<Bus>, rest: seq<Bus>)
    requires TimerOk(r) && BusOk(before) && target < U64 && BusOk(rest) && NoCompareWrites(rest)
    requires HandsOff(g2) && HandsOff(g3) && BusOk(g2) && BusOk(g3)
    ensures BusOk(before + SetCmpBus(target, g2, g3) + rest)
    ensures Run(r, before + SetCmpBus(target, g2, g3) + rest).mtimecmp == Split(target)
  {
    var s := SetCmpBus(target, g2, g3);
    CompareNeverDips(Run(r, before), target, g2, g3, |s|);
    assert s[..|s|] == s;
    RunAppend(r, before, s);
    RunAppend(r, before + s, rest);
    CompareKept(Run(r, before + s), rest);
  }

  /** What follows `set_cmp` in `start`. */
  function EnableBus(ctrl: nat, g4: seq<Bus>, g5: seq<Bus>): seq<Bus> {
    g4 + [Read(MTIME_CTRL)] + g5 + [Write(MTIME_CTRL, WithBit0(ctrl))]
  }

  lemma EnableLeavesCompare(ctrl: nat, g4: seq<Bus>, g5: seq<Bus>)
    requires HandsOff(g4) && HandsOff(g5) && BusOk(g4) && BusOk(g5) && ctrl + 1 < U32
    ensures NoCompareWrites(EnableBus(ctrl, g4, g5)) && BusOk(EnableBus(ctrl, g4, g5))
  {
  }

  /** After arming, and after any wait, the compare register holds the target. */
  lemma ArmSetsCompare(r: Regs, target: nat, ctrl: nat, g1: seq<Bus>, g2: seq<Bus>, g3: seq<Bus>, g4: seq<Bus>,
                       g5: seq<Bus>, after: seq<Bus>)
    requires TimerOk(r) && target < U64 && ctrl + 1 < U32 && GapsOk(g1, g2, g3, g4, g5)
    requires HandsOff(after) && BusOk(after)
    ensures BusOk(ArmBus(target, ctrl, g1, g2, g3, g4, g5) + after)
    ensures Run(r, ArmBus(target, ctrl, g1, g2, g3, g4, g5) + after).mtimecmp == Split(target)
  {
    var a, s, e := [Read(MTIME_LOW)] + g1, SetCmpBus(target, g2, g3), EnableBus(ctrl, g4, g5);
    EnableLeavesCompare(ctrl, g4, g5);
    NoWritesAppend(e, after, 2);
    NoWritesAppend(e, after, 3);
    SetCmpThenQuiet(r, a, target, g2, g3, e + after);
    assert ArmBus(target, ctrl, g1, g2, g3, g4, g5) + after == a + s + (e + after);
  }

  /** From the rate bound to the cycles at which `k` ticks can and must have passed. */
  lemma Window(k: nat, t: nat, p: nat, c: nat, c': nat, n: nat, w: nat)
    requires Balanced(c, p, n, w, t, c')
    ensures t >= k ==> n >= k * (p + 1) - c + w
    ensures n >= k * (p + 1) - c + w * (p + 1) ==> t >= k
  {
    PeriodsProduct(k, p);
    PeriodsProduct(w, p);
    if t >= k {
      PeriodsMonotone(k, t, p);
    } else {
      PeriodsMonotone(t + 1, k, p);
    }
  }

  /** When a steady run can and when it must have counted `k` ticks. */
  lemma SteadyWindow(r: Regs, bus: seq<Bus>, k: nat, p: nat, w: nat)
    requires TimerOk(r) && r.enable && BusOk(bus) && AllSteady(r.prescaler, bus)
    requires p == r.prescaler && w == Writes(bus)
    ensures Ticks(r, bus) >= k ==> |bus| >= k * (p + 1) - r.counter + w
    ensures |bus| >= k * (p + 1) - r.counter + w * (p + 1) ==> Ticks(r, bus) >= k
  {
    TickRatePeriods(r, bus);
    Window(k, Ticks(r, bus), p, r.counter, Run(r, bus).counter, |bus|, w);
  }

  /** With the compare value `k` ticks ahead, the interrupt line is high once `k` ticks passed. */
  lemma IrqAfterTicks(r: Regs, bus: seq<Bus>, k: nat)
    requires TimerOk(r) && r.enable && BusOk(bus) && AllSteady(r.prescaler, bus)
    requires Value(Run(r, bus).mtimecmp) == Value(r.mtime) + k
    ensures Value(r.mtime) + Ticks(r, bus) < U64 ==> (Irq(Run(r, bus)) <==> Ticks(r, bus) >= k)
  {
    SteadyRun(r, bus);
    Reached(Run(r, bus), Value(r.mtime), Ticks(r, bus), k);
  }

  lemma Reached(r: Regs, start: nat, t: nat, k: nat)
    requires r.enable && Value(r.mtime) == (start + t) % U64 && Value(r.mtimecmp) == start + k
    ensures start + t < U64 ==> (Irq(r) <==> t >= k)
  {
  }

  /** Arming a running timer and waiting, all in one. */
  lemma ArmThenWait(r: Regs, target: nat, g1: seq<Bus>, g2: seq<Bus>, g3: seq<Bus>, g4: seq<Bus>, g5: seq<Bus>,
                    after: seq<Bus>)
    requires TimerOk(r) && target < U64 && GapsOk(g1, g2, g3, g4, g5) && HandsOff(after) && BusOk(after)
    ensures var p := r.prescaler;
            var bus := ArmBus(target, CtrlWord(true, p), g1, g2, g3, g4, g5) + after;
            BusOk(bus) && AllSteady(p, bus) && Writes(bus) == 4 && Run(r, bus).mtimecmp == Split(target)
  {
    var p := r.prescaler;
    var arm := ArmBus(target, CtrlWord(true, p), g1, g2, g3, g4, g5);
    ArmIsSteady(p, target, g1, g2, g3, g4, g5);
    ArmSetsCompare(r, target, CtrlWord(true, p), g1, g2, g3, g4, g5, after);
    SteadyAppend(p, arm, after);
    WritesAppend(arm, after);
    HandsOffWrites(after);
  }

  /**
   The first and the last cycle at which `k` ticks can have passed, `w` writes among the
   cycles; and the interrupt line is high exactly when they have.
   */
  predicate FiresWithin(r: Regs, bus: seq<Bus>, k: nat, w: nat)
    requires TimerOk(r) && BusOk(bus)
  {
    var n, p, t := |bus|, r.prescaler, Ticks(r, bus);
    && (t >= k ==> n >= k * (p + 1) - r.counter + w)
    && (n >= k * (p + 1) - r.counter + w * (p + 1) ==> t >= k)
    && (Value(r.mtime) + t < U64 ==> (Irq(Run(r, bus)) <==> t >= k))
  }

  /**
   `start` on a running timer. `r` is the timer when the low word is read, `c` its prescaler
   counter, `k` the requested number of ticks. At every later point, `n` cycles after that
   read, the count has advanced by `k` only if `n >= k*(p+1) - c + 4`, and certainly
   if `n >= k*(p+1) - c + 4*(p+1)`; and the interrupt line is high exactly then. The
   uncertainty is what the four writes cost.
   */
  lemma OneShotFires(r: Regs, target: nat, p: nat, k: nat, g1: seq<Bus>, g2: seq<Bus>, g3: seq<Bus>, g4: seq<Bus>,
                     g5: seq<Bus>, after: seq<Bus>)
    requires TimerOk(r) && r.enable && target == Value(r.mtime) + k < U64 && p == r.prescaler
    requires GapsOk(g1, g2, g3, g4, g5) && HandsOff(after) && BusOk(after)
    ensures var bus := ArmBus(target, CtrlWord(true, p), g1, g2, g3, g4, g5) + after;
            BusOk(bus) && FiresWithin(r, bus, k, 4)
  {
    ArmThenWait(r, target, g1, g2, g3, g4, g5, after);
    ValueOfSplit(target);
    Fires(r, ArmBus(target, CtrlWord(true, p), g1, g2, g3, g4, g5) + after, k, 4);
  }

  /** Any steady traffic with `w` writes after which the compare value is `k` ticks ahead. */
  lemma Fires(r: Regs, bus: seq<Bus>, k: nat, w: nat)
    requires TimerOk(r) && r.enable && BusOk(bus) && AllSteady(r.prescaler, bus) && w == Writes(bus)
    requires Value(Run(r, bus).mtimecmp) == Value(r.mtime) + k
    ensures FiresWithin(r, bus, k, w)
  {
    SteadyWindow(r, bus, k, r.prescaler, w);
    IrqAfterTicks(r, bus, k);
  }

  /**
   The same from the start of `start`: `r0` is the timer at the high-word read, `v` the count read. With no
   rollover of the low word between the two reads, the count read is the count at the low
   read, and the interrupt comes within the window above.
   */
  lemma StartFires(r0: Regs, v: nat, k: nat, g0: seq<Bus>, g1: seq<Bus>, g2: seq<Bus>, g3: seq<Bus>, g4: seq<Bus>,
                   g5: seq<Bus>, after: seq<Bus>)
    requires TimerOk(r0) && r0.enable && HandsOff(g0) && BusOk(g0)
    requires GapsOk(g1, g2, g3, g4, g5) && HandsOff(after) && BusOk(after)
    requires r0.mtime.lo + Ticks(r0, [Read(MTIME_HIGH)] + g0) < U32
    requires v == CounterValue(r0, g0) && v + k < U64
    ensures var r := Run(r0, [Read(MTIME_HIGH)] + g0);
            var bus := ArmBus(v + k, CtrlWord(true, r0.prescaler), g1, g2, g3, g4, g5) + after;
            Value(r.mtime) == v && BusOk(bus) && FiresWithin(r, bus, k, 4)
  {
    var r := Run(r0, [Read(MTIME_HIGH)] + g0);
    assert Value(r.mtime) == v && r.enable && r.prescaler == r0.prescaler by {
      ReadExactly(r0, g0);
    }
    OneShotFires(r, v + k, r0.prescaler, k, g1, g2, g3, g4, g5, after);
  }

  lemma ReadExactly(r0: Regs, g0: seq<Bus>)
    requires TimerOk(r0) && HandsOff(g0) && BusOk(g0)
    requires r0.mtime.lo + Ticks(r0, [Read(MTIME_HIGH)] + g0) < U32
    ensures var r := Run(r0, [Read(MTIME_HIGH)] + g0);
            Value(r.mtime) == CounterValue(r0, g0) && r.enable == r0.enable && r.prescaler == r0.prescaler
  {
    SplitRead(r0, g0);
    NoWrap(r0.mtime, Ticks(r0, [Read(MTIME_HIGH)] + g0));
    SettingsKept(r0, g0);
  }

  lemma SettingsKept(r0: Regs, g0: seq<Bus>)
    requires TimerOk(r0) && HandsOff(g0) && BusOk(g0)
    ensures var r := Run(r0, [Read(MTIME_HIGH)] + g0);
            r.enable == r0.enable && r.prescaler == r0.prescaler
  {
    assert NoWritesTo([Read(MTIME_HIGH)] + g0, 4);
    CtrlKept(r0, [Read(MTIME_HIGH)] + g0);
  }

  lemma NoWrap(w: Word64, t: nat)
    requires Fits(w) && w.lo + t < U32
    ensures (Value(w) + t) % U64 == Value(w) + t
  {
  }

  /** From a freshly armed timer that was stopped, the target is reached after exactly
      `k*(p+1)` cycles. */
  lemma OneShotOnStoppedTimer(r: Regs, k: nat, after: seq<Bus>)
    requires TimerOk(r) && r.enable && r.counter == 0 && HandsOff(after) && BusOk(after)
    requires Value(r.mtime) + k < U64 && r.mtimecmp == Split(Value(r.mtime) + k)
    ensures Ticks(r, after) >= k <==> |after| >= k * (r.prescaler + 1)
    ensures Value(r.mtime) + Ticks(r, after) < U64 ==>
              (Irq(Run(r, after)) <==> |after| >= k * (r.prescaler + 1))
  {
    HandsOffWrites(after);
    CompareKept(r, after);
    ValueOfSplit(Value(r.mtime) + k);
    Fires(r, after, k, 0);
  }

  lemma BeforeEnable(target: nat, g1: seq<Bus>, g2: seq<Bus>, g3: seq<Bus>, g4: seq<Bus>, g5: seq<Bus>)
    requires target < U64 && GapsOk(g1, g2, g3, g4, g5)
    ensures var bus := ([Read(MTIME_LOW)] + g1) + SetCmpBus(target, g2, g3) + (g4 + [Read(MTIME_CTRL)] + g5);
            BusOk(bus) && NoWritesTo(bus, 0) && NoWritesTo(bus, 1) && NoWritesTo(bus, 4)
  {
    var a, s, b := [Read(MTIME_LOW)] + g1, SetCmpBus(target, g2, g3), g4 + [Read(MTIME_CTRL)] + g5;
    assert HandsOff(a) && HandsOff(b);
    SetCmpTouchesCompareOnly(target, g2, g3);
    forall reg: nat | reg in {0, 1, 4} ensures NoWritesTo(a + s + b, reg) {
      NoWritesAppend(a, s, reg);
      NoWritesAppend(a + s, b, reg);
    }
  }

  lemma SetCmpTouchesCompareOnly(cmp: nat, g2: seq<Bus>, g3: seq<Bus>)
    requires cmp < U64 && HandsOff(g2) && HandsOff(g3) && BusOk(g2) && BusOk(g3)
    ensures var bus := SetCmpBus(cmp, g2, g3);
            BusOk(bus) && forall reg: nat | reg in {0, 1, 4} :: NoWritesTo(bus, reg)
  {
  }

  /** Arming a stopped timer starts it at the same count, with the prescaler at zero. */
  lemma ArmStartsStopped(r: Regs, target: nat, g1: seq<Bus>, g2: seq<Bus>, g3: seq<Bus>, g4: seq<Bus>, g5: seq<Bus>)
    requires TimerOk(r) && !r.enable && target < U64 && GapsOk(g1, g2, g3, g4, g5)
    ensures BusOk(ArmBus(target, CtrlWord(false, r.prescaler), g1, g2, g3, g4, g5))
    ensures Run(r, ArmBus(target, CtrlWord(false, r.prescaler), g1, g2, g3, g4, g5))
            == Regs(r.mtime, Split(target), r.prescaler, 0, true)
  {
    var ctrl := CtrlWord(false, r.prescaler);
    ArmSetsCompare(r, target, ctrl, g1, g2, g3, g4, g5, []);
    assert ArmBus(target, ctrl, g1, g2, g3, g4, g5) + [] == ArmBus(target, ctrl, g1, g2, g3, g4, g5);
    BeforeEnable(target, g1, g2, g3, g4, g5);
    var before := ([Read(MTIME_LOW)] + g1) + SetCmpBus(target, g2, g3) + (g4 + [Read(MTIME_CTRL)] + g5);
    StoppedStays(r, before);
    Enabled(r, before);
  }

  lemma Enabled(r: Regs, before: seq<Bus>)
    requires TimerOk(r) && BusOk(before) && Run(r, before).prescaler == r.prescaler
    ensures var w := Write(MTIME_CTRL, WithBit0(CtrlWord(false, r.prescaler)));
            && BusOk(before + [w])
            && Run(r, before + [w]) == Run(r, before).(counter := 0, enable := true)
  {
    var w := Write(MTIME_CTRL, WithBit0(CtrlWord(false, r.prescaler)));
    RunAppend(r, before, [w]);
    OneCycle(Run(r, before), w);
    CtrlFields(r.prescaler);
    WriteEffects(Run(r, before), w.pwdata);
  }

  lemma CtrlFields(p: nat)
    requires p < 8
    ensures var v := WithBit0(CtrlWord(false, p)); v < U32 && v / 0x100 % 8 == p && v % 2 == 1
  {
  }

  /** What `start` reads back from the control register. */
  lemma CtrlReadBack(r: Regs, bus: seq<Bus>)
    requires TimerOk(r) && BusOk(bus) && NoWritesTo(bus, 4)
    ensures ReadData(Run(r, bus), Read(MTIME_CTRL)) == CtrlWord(r.enable, r.prescaler)
  {
  }

  /** All accesses of `start` before it touches the control register. */
  function UntilEnable(target: nat, g0: seq<Bus>, g1: seq<Bus>, g2: seq<Bus>, g3: seq<Bus>, g4: seq<Bus>): seq<Bus> {
    ReadCounterBus(g0) + g1 + SetCmpBus(target, g2, g3) + g4
  }

  lemma UntilEnableLeavesCtrl(target: nat, g0: seq<Bus>, g1: seq<Bus>, g2: seq<Bus>, g3: seq<Bus>, g4: seq<Bus>)
    requires target < U64 && HandsOff(g0) && BusOk(g0) && GapsOk(g1, g2, g3, g4, [])
    ensures var bus := UntilEnable(target, g0, g1, g2, g3, g4); BusOk(bus) && NoWritesTo(bus, 4)
  {
  }

  lemma StartAccesses(t: seq<Bus>, target: nat, ctrl: nat, g0: seq<Bus>,
                      g1: seq<Bus>, g2: seq<Bus>, g3: seq<Bus>, g4: seq<Bus>, g5: seq<Bus>)
    ensures t + UntilEnable(target, g0, g1, g2, g3, g4) + [Read(MTIME_CTRL)] + g5
            + [Write(MTIME_CTRL, WithBit0(ctrl))]
            == t + [Read(MTIME_HIGH)] + g0 + ArmBus(target, ctrl, g1, g2, g3, g4, g5)
  {
  }

  class OneShot {
    const timer: MTimer

    constructor (timer: MTimer)
      ensures this.timer == timer
    {
      this.timer := timer;
    }

    /**
     Schedules the interrupt `ticks / pclkDiv` ticks after the count that was read. A zero
     clock divider, which the four-bit register can hold, makes the division panic after the
     count has been read; the sum wraps at 64 bits.
     */
    method Start(ticks: nat, pclkDiv: nat, g0: seq<Bus>,
                 g1: seq<Bus>, g2: seq<Bus>, g3: seq<Bus>, g4: seq<Bus>, g5: seq<Bus>)
      returns (panicked: bool)
      requires timer.dev.Valid() && pclkDiv < 16
      requires BusOk(g0) && HandsOff(g0) && GapsOk(g1, g2, g3, g4, g5)
      modifies timer.dev
      ensures timer.dev.Valid() && panicked == (pclkDiv == 0)
      ensures panicked ==> timer.dev.trace == old(timer.dev.trace) + ReadCounterBus(g0)
      ensures !panicked ==>
                var r := old(timer.dev.State());
                var target := (CounterValue(r, g0) + ticks / pclkDiv) % U64;
                timer.dev.trace == old(timer.dev.trace) + [Read(MTIME_HIGH)] + g0
                                   + ArmBus(target, CtrlWord(r.enable, r.prescaler), g1, g2, g3, g4, g5)
    {
      var cnt := timer.Counter(g0);
      if pclkDiv == 0 {
        return true;
      }
      var target := (cnt + ticks / pclkDiv) % U64;
      Arm(target, g0, old(timer.dev.trace), g1, g2, g3, g4, g5);
      return false;
    }

    method Arm(target: nat, ghost g0: seq<Bus>, ghost t: seq<Bus>,
               g1: seq<Bus>, g2: seq<Bus>, g3: seq<Bus>, g4: seq<Bus>, g5: seq<Bus>)
      requires timer.dev.Valid() && target < U64
      requires BusOk(g0) && HandsOff(g0) && GapsOk(g1, g2, g3, g4, g5)
      requires BusOk(t) && TimerOk(RESET) && timer.dev.trace == t + ReadCounterBus(g0)
      modifies timer.dev
      ensures timer.dev.Valid()
      ensures var r := Run(RESET, t);
              timer.dev.trace == t + [Read(MTIME_HIGH)] + g0
                                 + ArmBus(target, CtrlWord(r.enable, r.prescaler), g1, g2, g3, g4, g5)
    {
      timer.Others(g1);
      timer.SetCmp(target, g2, g3);
      timer.Others(g4);
      ghost var bus := UntilEnable(target, g0, g1, g2, g3, g4);
      assert timer.dev.trace == t + bus;
      UntilEnableLeavesCtrl(target, g0, g1, g2, g3, g4);
      RunAppend(RESET, t, bus);
      ghost var r := Run(RESET, t);
      CtrlReadBack(r, bus);
      timer.Enable(g5);
      StartAccesses(t, target, CtrlWord(r.enable, r.prescaler), g0, g1, g2, g3, g4, g5);
    }
  }
}
