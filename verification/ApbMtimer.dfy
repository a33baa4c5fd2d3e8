/**
 The memory-mapped machine timer (section 3.2.1 of the RISC-V Privileged Specification
 v1.12): a 64-bit counter behind a prescaler, a compare register and an APB port. Any write
 cycle holds `mtime` and restarts the prescaler.
 */
module ApbMtimer {
  import opened Arith

  const U64: nat := 0x1_0000_0000_0000_0000

  /** The addresses that software uses; the timer gets them in full. */
  const MTIMER_BASE: nat := 0x3_0200
  const MTIME_LOW: nat := MTIMER_BASE + 0
  const MTIME_HIGH: nat := MTIMER_BASE + 4
  const MTIMECMP_LOW: nat := MTIMER_BASE + 8
  const MTIMECMP_HIGH: nat := MTIMER_BASE + 12
  const MTIME_CTRL: nat := MTIMER_BASE + 16

  /** A 64-bit register by its two halves, which the bus accesses one at a time. */
  datatype Word64 = Word64(hi: nat, lo: nat)

  predicate Fits(w: Word64) {
    w.hi < U32 && w.lo < U32
  }

  function Value(w: Word64): nat {
    w.hi * U32 + w.lo
  }

  function Split(x: nat): Word64 {
    Word64(x / U32, x % U32)
  }

  lemma ValueOfSplit(x: nat)
    requires x < U64
    ensures Fits(Split(x)) && Value(Split(x)) == x
  {
  }

  /** Plus one, with the carry from half to half. */
  function Increment(w: Word64): Word64 {
    if w.lo + 1 < U32 then Word64(w.hi, w.lo + 1)
    else if w.hi + 1 < U32 then Word64(w.hi + 1, 0)
    else Word64(0, 0)
  }

  lemma ValueOfIncrement(w: Word64)
    requires Fits(w)
    ensures Fits(Increment(w)) && Value(Increment(w)) == (Value(w) + 1) % U64
  {
  }

  datatype Regs = Regs(mtime: Word64, mtimecmp: Word64, prescaler: nat, counter: nat, enable: bool)

  /** One clock cycle of the APB port; `psel` is not looked at. */
  datatype Bus = Bus(penable: bool, pwrite: bool, paddr: nat, pwdata: nat)

  const IDLE: Bus := Bus(false, false, 0, 0)

  function Write(paddr: nat, pwdata: nat): Bus {
    Bus(true, true, paddr, pwdata)
  }

  function Read(paddr: nat): Bus {
    Bus(true, false, paddr, 0)
  }

  predicate RegsOk(r: Regs) {
    Fits(r.mtime) && Fits(r.mtimecmp) && r.prescaler < 8 && r.counter < 8
  }

  const RESET: Regs := Regs(Word64(0, 0), Word64(0, 0), 0, 0, false)

  function IntAddr(b: Bus): nat {
    b.paddr / 4 % 8
  }

  predicate IsWrite(b: Bus) {
    b.penable && b.pwrite
  }

  predicate WritesTo(b: Bus, reg: nat) {
    IsWrite(b) && IntAddr(b) == reg
  }

  /** The prescaler elapses in this cycle. */
  predicate Ticks1(r: Regs, b: Bus) {
    !IsWrite(b) && r.enable && r.counter == r.prescaler
  }

  /** Register values after the clock edge. */
  function Next(r: Regs, b: Bus): (r': Regs)
    requires RegsOk(r) && b.pwdata < U32
  {
    Regs(
      if IsWrite(b) then
        Word64(if WritesTo(b, 1) then b.pwdata else r.mtime.hi,
               if WritesTo(b, 0) then b.pwdata else r.mtime.lo)
      else if Ticks1(r, b) then Increment(r.mtime)
      else r.mtime,
      Word64(if WritesTo(b, 3) then b.pwdata else r.mtimecmp.hi,
             if WritesTo(b, 2) then b.pwdata else r.mtimecmp.lo),
      if WritesTo(b, 4) then b.pwdata / 0x100 % 8 else r.prescaler,
      if IsWrite(b) || !r.enable || r.counter == r.prescaler then 0 else (r.counter + 1) % 8,
      if WritesTo(b, 4) then b.pwdata % 2 == 1 else r.enable)
  }

  function ReadData(r: Regs, b: Bus): (v: nat)
    requires RegsOk(r)
    ensures v < U32
  {
    if !b.penable || b.pwrite then 0
    else if IntAddr(b) == 0 then r.mtime.lo
    else if IntAddr(b) == 1 then r.mtime.hi
    else if IntAddr(b) == 2 then r.mtimecmp.lo
    else if IntAddr(b) == 3 then r.mtimecmp.hi
    else if IntAddr(b) == 4 then (if r.enable then 1 else 0) + r.prescaler * 0x100
    else 0
  }

  predicate Irq(r: Regs) {
    Value(r.mtime) >= Value(r.mtimecmp) && r.enable
  }

  /** Only address bits 4 to 2 are decoded: the registers repeat every 32 bytes, and an access
      anywhere in a word is one to the word. */
  lemma AddressDecoded(r: Regs, b: Bus, paddr: nat)
    requires RegsOk(r) && b.pwdata < U32
    requires paddr % 32 / 4 == b.paddr % 32 / 4
    ensures Next(r, b.(paddr := paddr)) == Next(r, b)
    ensures ReadData(r, b.(paddr := paddr)) == ReadData(r, b)
  {
    WordOfAddress(paddr);
    WordOfAddress(b.paddr);
  }

  lemma WordOfAddress(paddr: nat)
    ensures paddr / 4 % 8 == paddr % 32 / 4
  {
    var q, r := paddr / 32, paddr % 32;
    DivMod(paddr, 4, 8 * q + r / 4, r % 4);
    DivMod(paddr / 4, 8, q, r / 4);
  }

  /** Out of reset, until the control register is written, the line is low and time stands. */
  lemma {:induction false} SilentUntilEnabled(bus: seq<Bus>)
    requires TimerOk(RESET) && BusOk(bus) && NoWritesTo(bus, 4)
    ensures !Run(RESET, bus).enable && !Irq(Run(RESET, bus)) && Ticks(RESET, bus) == 0
  {
    if bus != [] {
      SilentUntilEnabled(bus[..|bus| - 1]);
    }
  }

  /** The all-runs invariant: the prescaler counter never passes the prescaler, even when a
      write lowers the prescaler in the middle of a count. */
  predicate TimerOk(r: Regs) {
    RegsOk(r) && r.counter <= r.prescaler
  }

  lemma NextKeepsTimerOk(r: Regs, b: Bus)
    requires TimerOk(r) && b.pwdata < U32
    ensures TimerOk(Next(r, b))
  {
  }

  // ---------- Runs ----------

  predicate BusOk(bus: seq<Bus>) {
    forall i | 0 <= i < |bus| :: bus[i].pwdata < U32
  }

  function Run(r: Regs, bus: seq<Bus>): (r': Regs)
    requires TimerOk(r) && BusOk(bus)
    ensures TimerOk(r')
  {
    if bus == [] then r
    else
      var n := |bus| - 1;
      var before := Run(r, bus[..n]);
      NextKeepsTimerOk(before, bus[n]);
      Next(before, bus[n])
  }

  /** How often the prescaler elapses during a run. */
  function Ticks(r: Regs, bus: seq<Bus>): (t: nat)
    requires TimerOk(r) && BusOk(bus)
  {
    if bus == [] then 0
    else
      var n := |bus| - 1;
      Ticks(r, bus[..n]) + if Ticks1(Run(r, bus[..n]), bus[n]) then 1 else 0
  }

  function Writes(bus: seq<Bus>): (w: nat)
    ensures w <= |bus|
  {
    if bus == [] then 0
    else Writes(bus[..|bus| - 1]) + if IsWrite(bus[|bus| - 1]) then 1 else 0
  }

  /** A cycle that changes neither `mtime` by a write nor the control settings. */
  predicate Steady(prescaler: nat, b: Bus) {
    && !WritesTo(b, 0) && !WritesTo(b, 1)
    && (WritesTo(b, 4) ==> b.pwdata % 2 == 1 && b.pwdata / 0x100 % 8 == prescaler)
  }

  predicate AllSteady(prescaler: nat, bus: seq<Bus>) {
    forall i | 0 <= i < |bus| :: Steady(prescaler, bus[i])
  }

  lemma {:induction false} RunAppend(r: Regs, a: seq<Bus>, b: seq<Bus>)
    requires TimerOk(r) && BusOk(a) && BusOk(b)
    ensures BusOk(a + b)
    ensures Run(r, a + b) == Run(Run(r, a), b)
    ensures Ticks(r, a + b) == Ticks(r, a) + Ticks(Run(r, a), b)
    ensures Writes(a + b) == Writes(a) + Writes(b)
  {
    if b == [] {
      assert a + b == a;
    } else {
      var n := |b| - 1;
      RunAppend(r, a, b[..n]);
      assert (a + b)[..|a| + n] == a + b[..n];
    }
  }

  lemma SteadyCycle(r: Regs, b: Bus)
    requires TimerOk(r) && r.enable && b.pwdata < U32 && Steady(r.prescaler, b)
    ensures var r' := Next(r, b);
            && r'.enable && r'.prescaler == r.prescaler
            && r'.mtime == (if Ticks1(r, b) then Increment(r.mtime) else r.mtime)
            && r'.counter == if IsWrite(b) || Ticks1(r, b) then 0 else r.counter + 1
  {
  }

  /** A steady run keeps the settings and advances `mtime` by the number of ticks. */
  lemma {:induction false} SteadyRun(r: Regs, bus: seq<Bus>)
    requires TimerOk(r) && r.enable && BusOk(bus) && AllSteady(r.prescaler, bus)
    ensures var r' := Run(r, bus);
            r'.enable && r'.prescaler == r.prescaler && Value(r'.mtime) == (Value(r.mtime) + Ticks(r, bus)) % U64
  {
    if bus != [] {
      var n := |bus| - 1;
      SteadyRun(r, bus[..n]);
      SteadyCycle(Run(r, bus[..n]), bus[n]);
      TickAgain(Run(r, bus[..n]).mtime, Value(r.mtime) + Ticks(r, bus[..n]));
    }
  }

  /** `n` prescaler periods in cycles, that is `n * (p + 1)`. */
  function Periods(n: nat, p: nat): nat {
    if n == 0 then 0 else Periods(n - 1, p) + p + 1
  }

  lemma {:induction false} PeriodsProduct(n: nat, p: nat)
    ensures Periods(n, p) == n * (p + 1)
  {
    if n > 0 {
      PeriodsProduct(n - 1, p);
      assert n * (p + 1) == (n - 1) * (p + 1) + (p + 1);
    }
  }

  lemma {:induction false} PeriodsMonotone(m: nat, n: nat, p: nat)
    requires m <= n
    ensures Periods(m, p) <= Periods(n, p)
  {
    if m < n {
      PeriodsMonotone(m, n - 1, p);
    }
  }

  /** The account of a run: cycles, less what the writes cost, go into ticks and the counter. */
  predicate Balanced(counter0: nat, p: nat, cycles: nat, writes: nat, ticks: nat, counter: nat) {
    && counter <= p
    && counter0 + cycles - Periods(writes, p) <= Periods(ticks, p) + counter <= counter0 + cycles - writes
  }

  lemma BalancedStep(counter0: nat, p: nat, cycles: nat, writes: nat, ticks: nat, counter: nat, write: bool)
    requires Balanced(counter0, p, cycles, writes, ticks, counter)
    ensures write ==> Balanced(counter0, p, cycles + 1, writes + 1, ticks, 0)
    ensures !write && counter == p ==> Balanced(counter0, p, cycles + 1, writes, ticks + 1, 0)
    ensures !write && counter < p ==> Balanced(counter0, p, cycles + 1, writes, ticks, counter + 1)
  {
  }

  lemma {:induction false} TickRatePeriods(r: Regs, bus: seq<Bus>)
    requires TimerOk(r) && r.enable && BusOk(bus) && AllSteady(r.prescaler, bus)
    ensures Balanced(r.counter, r.prescaler, |bus|, Writes(bus), Ticks(r, bus), Run(r, bus).counter)
  {
    if bus != [] {
      var n := |bus| - 1;
      var r1 := Run(r, bus[..n]);
      TickRatePeriods(r, bus[..n]);
      SteadyRun(r, bus[..n]);
      SteadyCycle(r1, bus[n]);
      BalancedStep(r.counter, r.prescaler, n, Writes(bus[..n]), Ticks(r, bus[..n]), r1.counter, IsWrite(bus[n]));
    }
  }

  /**
   Over any steady run of an enabled timer, `ticks * (prescaler + 1) + counter` grows by the
   number of cycles minus what the writes cost: each write costs at least one cycle and at
   most a whole prescaler period.
   */
  lemma TickRate(r: Regs, bus: seq<Bus>)
    requires TimerOk(r) && r.enable && BusOk(bus) && AllSteady(r.prescaler, bus)
    ensures var r', t, w, p := Run(r, bus), Ticks(r, bus), Writes(bus), r.prescaler;
            r.counter + |bus| - w * (p + 1) <= t * (p + 1) + r'.counter <= r.counter + |bus| - w
  {
    TickRatePeriods(r, bus);
    PeriodsProduct(Writes(bus), r.prescaler);
    PeriodsProduct(Ticks(r, bus), r.prescaler);
  }

  lemma TickAgain(w: Word64, x: nat)
    requires Fits(w) && Value(w) == x % U64
    ensures Value(Increment(w)) == (x + 1) % U64
  {
  }

  /** As long as nobody writes `mtime`, it advances by the number of ticks. */
  lemma {:induction false} MtimeAdvances(r: Regs, bus: seq<Bus>)
    requires TimerOk(r) && BusOk(bus) && NoWritesTo(bus, 0) && NoWritesTo(bus, 1)
    ensures Value(Run(r, bus).mtime) == (Value(r.mtime) + Ticks(r, bus)) % U64
  {
    if bus == [] {
      DivMod(Value(r.mtime), U64, 0, Value(r.mtime));
    } else {
      var n := |bus| - 1;
      MtimeAdvances(r, bus[..n]);
      TickAgain(Run(r, bus[..n]).mtime, Value(r.mtime) + Ticks(r, bus[..n]));
    }
  }

  /** And so does its low half by itself. */
  lemma {:induction false} LowAdvances(r: Regs, bus: seq<Bus>)
    requires TimerOk(r) && BusOk(bus) && NoWritesTo(bus, 0) && NoWritesTo(bus, 1)
    ensures Run(r, bus).mtime.lo == (r.mtime.lo + Ticks(r, bus)) % U32
  {
    if bus == [] {
      DivMod(r.mtime.lo, U32, 0, r.mtime.lo);
    } else {
      var n := |bus| - 1;
      LowAdvances(r, bus[..n]);
      LowTicksAgain(Run(r, bus[..n]).mtime, r.mtime.lo + Ticks(r, bus[..n]));
    }
  }

  lemma LowTicksAgain(w: Word64, x: nat)
    requires Fits(w) && w.lo == x % U32
    ensures Increment(w).lo == (x + 1) % U32
  {
  }

  predicate NoWritesTo(bus: seq<Bus>, reg: nat) {
    forall i | 0 <= i < |bus| :: !WritesTo(bus[i], reg)
  }

  /** The compare register changes only by writes to its halves. */
  lemma {:induction false} CompareKept(r: Regs, bus: seq<Bus>)
    requires TimerOk(r) && BusOk(bus) && NoWritesTo(bus, 2) && NoWritesTo(bus, 3)
    ensures Run(r, bus).mtimecmp == r.mtimecmp
  {
    if bus != [] {
      var n := |bus| - 1;
      CompareKept(r, bus[..n]);
    }
  }

  /** The settings change only by writes to the control register. */
  lemma {:induction false} CtrlKept(r: Regs, bus: seq<Bus>)
    requires TimerOk(r) && BusOk(bus) && NoWritesTo(bus, 4)
    ensures Run(r, bus).enable == r.enable && Run(r, bus).prescaler == r.prescaler
  {
    if bus != [] {
      CtrlKept(r, bus[..|bus| - 1]);
    }
  }

  /** A stopped timer that is left alone stays stopped, with its count and settings. */
  lemma {:induction false} StoppedStays(r: Regs, bus: seq<Bus>)
    requires TimerOk(r) && BusOk(bus) && !r.enable
    requires NoWritesTo(bus, 0) && NoWritesTo(bus, 1) && NoWritesTo(bus, 4)
    ensures var r' := Run(r, bus); !r'.enable && r'.mtime == r.mtime && r'.prescaler == r.prescaler
  {
    if bus != [] {
      var n := |bus| - 1;
      StoppedStays(r, bus[..n]);
    }
  }

  /** The registers as updated on every clock edge. */
  class ApbMtimer {
    var mtime: Word64
    var mtimecmp: Word64
    var prescaler: nat
    var counter: nat
    var enable: bool
    ghost var trace: seq<Bus>     // all cycles since reset

    function State(): Regs
      reads this
    {
      Regs(mtime, mtimecmp, prescaler, counter, enable)
    }

    ghost predicate Valid()
      reads this
    {
      TimerOk(RESET) && BusOk(trace) && State() == Run(RESET, trace)
    }

    constructor ()
      ensures Valid() && State() == RESET && trace == []
    {
      mtime, mtimecmp, prescaler, counter, enable := Word64(0, 0), Word64(0, 0), 0, 0, false;
      trace := [];
    }

    /** One clock cycle: combinational next-state logic, then the register update. */
    method Clock(b: Bus) returns (prdata: nat)
      requires Valid() && b.pwdata < U32
      modifies this
      ensures Valid() && trace == old(trace) + [b]
      ensures State() == Next(old(State()), b)
      ensures prdata == ReadData(old(State()), b)
    {
      var mtimeW, cmpW := mtime, mtimecmp;
      var prescalerD, enableD := prescaler, enable;
      prdata := 0;
      if b.penable {
        if b.pwrite {
          match IntAddr(b) {
            case 0 => mtimeW := mtimeW.(lo := b.pwdata);
            case 1 => mtimeW := mtimeW.(hi := b.pwdata);
            case 2 => cmpW := cmpW.(lo := b.pwdata);
            case 3 => cmpW := cmpW.(hi := b.pwdata);
            case 4 =>
              enableD := b.pwdata % 2 == 1;
              prescalerD := b.pwdata / 0x100 % 8;
            case _ =>
          }
        } else {
          match IntAddr(b) {
            case 0 => prdata := mtime.lo;
            case 1 => prdata := mtime.hi;
            case 2 => prdata := mtimecmp.lo;
            case 3 => prdata := mtimecmp.hi;
            case 4 => prdata := (if enable then 1 else 0) + prescaler * 0x100;
            case _ =>
          }
        }
      }

      var mtimeD, counterD := mtime, 0;
      if b.penable && b.pwrite {
        mtimeD := mtimeW;
      } else if enable {
        counterD := (counter + 1) % 8;
        if counter == prescaler {
          counterD := 0;
          mtimeD := Increment(mtime);
        }
      }

      mtime := mtimeD;
      mtimecmp := cmpW;
      prescaler := prescalerD;
      enable := enableD;
      counter := counterD;
      assert (trace + [b])[..|trace|] == trace;
      trace := trace + [b];
    }
  }
}
