/** The run-time configurable clock divider of the FPGA build: a two-bit counter gates the clock. */
module ClockDivider {
  import opened Arith
  import IrqPulseCdc

  /** `$clog2(MAX_DIV_BY)` bits for `MAX_DIV_BY` = 3. */
  const RANGE: nat := 4

  lemma CounterRange()
    ensures RANGE == Pow2(Clog2(3))
  {
    assert Clog2(2) == 1 && Pow2(1) == 2;
  }

  datatype Regs = Regs(divider: nat, cnt: nat, en: bool)

  const RESET: Regs := Regs(1, 0, false)

  /** `divider - 1` in 32-bit arithmetic. */
  function Limit(divider: nat): nat {
    if divider == 0 then 0xFFFF_FFFF else divider - 1
  }

  /** The counter's next value. With divider 0 the limit is out of reach and the counter wraps
      by itself. */
  function NextCnt(cnt: nat, divider: nat): nat {
    if cnt == Limit(divider) then 0 else (cnt + 1) % RANGE
  }

  function Next(r: Regs, conf: nat): Regs
    requires conf < RANGE
  {
    Regs(conf, NextCnt(r.cnt, r.divider), r.cnt == 0)
  }

  class ClockDivider {
    var divider: nat
    var cnt: nat
    var en: bool

    constructor ()
      ensures Regs(divider, cnt, en) == RESET
    {
      divider, cnt, en := 1, 0, false;
    }

    method Clock(conf: nat)
      requires conf < RANGE && divider < RANGE && cnt < RANGE
      modifies this
      ensures Regs(divider, cnt, en) == Next(old(Regs(divider, cnt, en)), conf)
      ensures divider < RANGE && cnt < RANGE
    {
      var limit := Limit(divider);
      en := cnt == 0;
      cnt := if cnt == limit then 0 else (cnt + 1) % RANGE;
      divider := conf;
    }
  }

  /** The division a register value stands for; zero divides by four. */
  function Period(divider: nat): (p: nat)
    requires divider < RANGE
    ensures 1 <= p <= RANGE
  {
    if divider == 0 then RANGE else divider
  }

  /** The counter `n` cycles after `cnt`, with the divider register stable at `d`. */
  function CntAfter(cnt: nat, d: nat, n: nat): (c: nat)
    requires cnt < RANGE && d < RANGE
    ensures c < RANGE
  {
    if n == 0 then cnt else NextCnt(CntAfter(cnt, d, n - 1), d)
  }

  /** From any counter value, whatever divider was in force before: within four cycles the
      counter is below the period, and it stays there counting modulo the period. */
  lemma {:induction false} Settles(cnt: nat, d: nat, n: nat)
    requires cnt < RANGE && d < RANGE
    ensures n >= 4 ==> CntAfter(cnt, d, n) < Period(d)
    ensures CntAfter(cnt, d, n) < Period(d) ==>
              CntAfter(cnt, d, n + 1) == if CntAfter(cnt, d, n) + 1 == Period(d) then 0 else CntAfter(cnt, d, n) + 1
  {
    if n >= 5 {
      Settles(cnt, d, n - 1);
    } else if n == 4 {
      var c1 := NextCnt(cnt, d);
      var c2 := NextCnt(c1, d);
      assert CntAfter(cnt, d, 1) == c1;
      assert CntAfter(cnt, d, 2) == c2;
      FourCycles(cnt, d);
      assert CntAfter(cnt, d, 4) == NextCnt(NextCnt(c2, d), d);
    }
  }

  lemma FourCycles(cnt: nat, d: nat)
    requires cnt < RANGE && d < RANGE
    ensures NextCnt(NextCnt(NextCnt(NextCnt(cnt, d), d), d), d) < Period(d)
  {
  }

  /** How many of the `len` cycles from cycle `n` on find the counter at zero, each raising
      the enable one cycle later. */
  function ZeroCycles(cnt: nat, d: nat, n: nat, len: nat): nat
    requires cnt < RANGE && d < RANGE
  {
    if len == 0 then 0
    else ZeroCycles(cnt, d, n, len - 1) + if CntAfter(cnt, d, n + len - 1) == 0 then 1 else 0
  }

  /** Counting from `c` modulo the period, `len` cycles meet zero this often. */
  function Expected(c: nat, period: nat, len: nat): nat
    requires c < period
    decreases len
  {
    if len == 0 then 0
    else if c == 0 then 1 + Expected(if period == 1 then 0 else 1, period, len - 1)
    else Expected(if c + 1 == period then 0 else c + 1, period, len - 1)
  }

  lemma {:induction false} ZeroCyclesFromFront(cnt: nat, d: nat, n: nat, len: nat)
    requires cnt < RANGE && d < RANGE && len > 0
    ensures ZeroCycles(cnt, d, n, len) ==
            (if CntAfter(cnt, d, n) == 0 then 1 else 0) + ZeroCycles(cnt, d, n + 1, len - 1)
  {
    if len > 1 {
      ZeroCyclesFromFront(cnt, d, n, len - 1);
    }
  }

  lemma {:induction false} ZeroCyclesAsExpected(cnt: nat, d: nat, n: nat, len: nat)
    requires cnt < RANGE && d < RANGE && n >= 4
    ensures CntAfter(cnt, d, n) < Period(d)
    ensures ZeroCycles(cnt, d, n, len) == Expected(CntAfter(cnt, d, n), Period(d), len)
    decreases len
  {
    Settles(cnt, d, n);
    if len > 0 {
      ZeroCyclesFromFront(cnt, d, n, len);
      ZeroCyclesAsExpected(cnt, d, n + 1, len - 1);
    }
  }

  /** Within one period zero is met at most once: when the counter comes around. */
  lemma {:induction false} MetOnce(c: nat, period: nat, len: nat)
    requires c < period && len <= period
    ensures Expected(c, period, len) == if len > (if c == 0 then 0 else period - c) then 1 else 0
    decreases len
  {
    if len > 0 {
      MetOnce(if c + 1 == period then 0 else c + 1, period, len - 1);
    }
  }

  /** Once settled, the counter is at zero exactly once in `Period(d)` consecutive cycles. */
  lemma ZeroOncePerPeriod(cnt: nat, d: nat, n: nat)
    requires cnt < RANGE && d < RANGE && n >= 4
    ensures ZeroCycles(cnt, d, n, Period(d)) == 1
  {
    ZeroCyclesAsExpected(cnt, d, n, Period(d));
    MetOnce(CntAfter(cnt, d, n), Period(d), Period(d));
  }

  /** The settled divider is a slow clock as the pulse synchronizer needs it: some phase
      describes all its edges. */
  lemma DividesAtSomePhase(cnt: nat, d: nat) returns (q0: nat)
    requires cnt < RANGE && d < RANGE
    ensures 1 <= q0 <= Period(d)
    ensures forall n: nat :: IrqPulseCdc.Slow(n, Period(d), q0) <==> CntAfter(cnt, d, 4 + n) == 0
  {
    Settles(cnt, d, 4);
    var c := CntAfter(cnt, d, 4);
    q0 := if c == 0 then Period(d) else c;
    forall n: nat ensures IrqPulseCdc.Slow(n, Period(d), q0) <==> CntAfter(cnt, d, 4 + n) == 0 {
      SamePhase(cnt, d, q0, n);
    }
  }

  lemma {:induction false} SamePhase(cnt: nat, d: nat, q0: nat, n: nat)
    requires cnt < RANGE && d < RANGE && CntAfter(cnt, d, 4) < Period(d)
    requires q0 == if CntAfter(cnt, d, 4) == 0 then Period(d) else CntAfter(cnt, d, 4)
    ensures var c := CntAfter(cnt, d, 4 + n);
            && c < Period(d)
            && IrqPulseCdc.Since(n, Period(d), q0) == if c == 0 then Period(d) else c
  {
    if n > 0 {
      SamePhase(cnt, d, q0, n - 1);
      Settles(cnt, d, 4 + n - 1);
      assert CntAfter(cnt, d, 4 + n) == NextCnt(CntAfter(cnt, d, 4 + n - 1), d);
    }
  }

  // ---------- Runs of the divider ----------

  predicate RegsOk(r: Regs) {
    r.divider < RANGE && r.cnt < RANGE
  }

  /** The registers `n` cycles after `r`, the configuration input being `d` from then on. */
  function StableRun(r: Regs, d: nat, n: nat): (r': Regs)
    requires RegsOk(r) && d < RANGE
    ensures RegsOk(r')
  {
    if n == 0 then r else Next(StableRun(r, d, n - 1), d)
  }

  /** A new configuration takes one cycle to reach the divider register. */
  function LoadDelay(r: Regs, d: nat): nat {
    if r.divider == d then 0 else 1
  }

  /** The counter value at which the configuration takes effect. */
  function CntAtLoad(r: Regs, d: nat): (c: nat)
    requires RegsOk(r)
    ensures c < RANGE
  {
    if r.divider == d then r.cnt else NextCnt(r.cnt, r.divider)
  }

  /** From any registers, whatever was configured before: the divider register holds `d` from the
      next cycle on, the counter counts for it, and the enable marks the cycles after a zero. */
  lemma {:induction false} RunIs(r: Regs, d: nat, n: nat)
    requires RegsOk(r) && d < RANGE
    ensures var s, l := StableRun(r, d, n), LoadDelay(r, d);
            && (n >= l ==> s.divider == d && s.cnt == CntAfter(CntAtLoad(r, d), d, n - l))
            && (n >= l + 1 ==> (s.en <==> CntAfter(CntAtLoad(r, d), d, n - l - 1) == 0))
  {
    if n > 0 {
      RunIs(r, d, n - 1);
    }
  }

  /** How many of the `len` cycles from cycle `n` on are enabled. */
  function Enables(r: Regs, d: nat, n: nat, len: nat): nat
    requires RegsOk(r) && d < RANGE
  {
    if len == 0 then 0
    else Enables(r, d, n, len - 1) + if StableRun(r, d, n + len - 1).en then 1 else 0
  }

  lemma {:induction false} EnablesAreZeros(r: Regs, d: nat, n: nat, len: nat)
    requires RegsOk(r) && d < RANGE && n >= LoadDelay(r, d) + 1
    ensures Enables(r, d, n, len) == ZeroCycles(CntAtLoad(r, d), d, n - LoadDelay(r, d) - 1, len)
  {
    if len > 0 {
      EnablesAreZeros(r, d, n, len - 1);
      RunIs(r, d, n + len - 1);
    }
  }

  /** Cycles after which a configuration is in force: five, and one more if it is new. */
  function Settling(r: Regs, d: nat): nat {
    5 + LoadDelay(r, d)
  }

  /** From any registers: once settled, exactly one clock edge passes in every `Period(d)`
      consecutive cycles. */
  lemma OneEnablePerPeriod(r: Regs, d: nat, n: nat)
    requires RegsOk(r) && d < RANGE && n >= Settling(r, d)
    ensures Enables(r, d, n, Period(d)) == 1
  {
    EnablesAreZeros(r, d, n, Period(d));
    ZeroOncePerPeriod(CntAtLoad(r, d), d, n - LoadDelay(r, d) - 1);
  }

  // ---------- Divider and synchronizer together ----------

  /** The synchronizer's counter, from any value on. */
  function SyncCnt(c0: nat, pulses: seq<bool>, d: nat): nat {
    if pulses == [] then c0
    else
      var n := |pulses| - 1;
      IrqPulseCdc.NextCnt(SyncCnt(c0, pulses[..n], d), pulses[n], d, IrqPulseCdc.Modulus(DIV_MAX))
  }

  /** The width of the divisor input of the peripherals' synchronizers. */
  const DIV_MAX: nat := 4

  /** The synchronizer's output; its slow clock rises at the end of an enabled cycle. */
  predicate SyncOut(c0: nat, out: bool, r: Regs, d: nat, pulses: seq<bool>)
    requires RegsOk(r) && d < RANGE
  {
    if pulses == [] then out
    else
      var n := |pulses| - 1;
      IrqPulseCdc.NextOut(SyncOut(c0, out, r, d, pulses[..n]), SyncCnt(c0, pulses[..n], d), StableRun(r, d, n).en)
  }

  /** Cycles of the divided clock in which the synchronizer's output is high. */
  function HighCycles(c0: nat, out: bool, r: Regs, d: nat, pulses: seq<bool>): nat
    requires RegsOk(r) && d < RANGE
  {
    if pulses == [] then 0
    else
      var n := |pulses| - 1;
      HighCycles(c0, out, r, d, pulses[..n])
      + if StableRun(r, d, n).en && SyncOut(c0, out, r, d, pulses) then 1 else 0
  }

  predicate Quiet(pulses: seq<bool>) {
    forall i | 0 <= i < |pulses| :: !pulses[i]
  }

  /** The synchronizer's counter `k` quiet cycles after `c0`. */
  function Fading(c0: nat, d: nat, k: nat): nat {
    if k == 0 then c0 else IrqPulseCdc.NextCnt(Fading(c0, d, k - 1), false, d, IrqPulseCdc.Modulus(DIV_MAX))
  }

  lemma {:induction false} QuietFades(c0: nat, d: nat, quiet: seq<bool>)
    requires Quiet(quiet)
    ensures SyncCnt(c0, quiet, d) == Fading(c0, d, |quiet|)
  {
    if quiet != [] {
      QuietFades(c0, d, quiet[..|quiet| - 1]);
    }
  }

  lemma {:induction false} FadesOut(c0: nat, d: nat, k: nat)
    requires c0 < RANGE && 1 <= d < RANGE && k >= 5
    ensures Fading(c0, d, k) == 0
  {
    IrqPulseCdc.PeripheralDivisors(d);
    if k > 5 {
      FadesOut(c0, d, k - 1);
    } else {
      var c1, c2 := Fading(c0, d, 1), Fading(c0, d, 2);
      assert c0 == 0 || c0 == d ==> c1 == 0;
      assert Fading(c0, d, 3) == IrqPulseCdc.NextCnt(c2, false, d, 4);
      assert Fading(c0, d, 4) == IrqPulseCdc.NextCnt(Fading(c0, d, 3), false, d, 4);
    }
  }

  /** The settled divider is a slow clock of phase `q0`. */
  ghost predicate InPhase(r: Regs, d: nat, q0: nat)
    requires RegsOk(r) && 1 <= q0 <= d < RANGE
  {
    forall n: nat :: IrqPulseCdc.Slow(n, d, q0) <==> CntAfter(CntAtLoad(r, d), d, 4 + n) == 0
  }

  lemma EnablesInPhase(r: Regs, d: nat, q0: nat, n: nat)
    requires RegsOk(r) && 1 <= q0 <= d < RANGE && InPhase(r, d, q0)
    ensures IrqPulseCdc.Slow(n, d, q0) <==> StableRun(r, d, Settling(r, d) + n).en
  {
    RunIs(r, d, Settling(r, d) + n);
  }

  /** After the quiet cycles the synchronizer counts as if freshly reset. */
  lemma {:induction false} CountsOn(c0: nat, d: nat, quiet: seq<bool>, pulses: seq<bool>)
    requires 1 <= d < RANGE && SyncCnt(c0, quiet, d) == 0
    ensures IrqPulseCdc.Modulus(DIV_MAX) == 4
    ensures SyncCnt(c0, quiet + pulses, d) == IrqPulseCdc.Cnt(pulses, d, 4)
  {
    IrqPulseCdc.PeripheralDivisors(d);
    if pulses == [] {
      assert quiet + pulses == quiet;
    } else {
      var n := |pulses| - 1;
      CountsOn(c0, d, quiet, pulses[..n]);
      assert (quiet + pulses)[..|quiet| + n] == quiet + pulses[..n];
    }
  }

  lemma HighCyclesOneMore(c0: nat, out: bool, r: Regs, d: nat, p: seq<bool>, x: bool)
    requires RegsOk(r) && d < RANGE
    ensures HighCycles(c0, out, r, d, p + [x])
            == HighCycles(c0, out, r, d, p)
               + if StableRun(r, d, |p|).en && SyncCnt(c0, p, d) != 0 then 1 else 0
  {
    assert (p + [x])[..|p|] == p;
  }

  /** The two together see what the synchronizer sees at the phase `q0`. */
  lemma {:induction false} RunsOn(c0: nat, out: bool, r: Regs, d: nat, quiet: seq<bool>, pulses: seq<bool>, q0: nat)
    requires RegsOk(r) && 1 <= q0 <= d < RANGE && |quiet| == Settling(r, d) && SyncCnt(c0, quiet, d) == 0
    requires InPhase(r, d, q0)
    ensures HighCycles(c0, out, r, d, quiet + pulses)
            == HighCycles(c0, out, r, d, quiet) + IrqPulseCdc.Highs(pulses, d, 4, q0)
  {
    if pulses == [] {
      assert quiet + pulses == quiet;
    } else {
      var n := |pulses| - 1;
      RunsOn(c0, out, r, d, quiet, pulses[..n], q0);
      CountsOn(c0, d, quiet, pulses[..n]);
      assert quiet + pulses == quiet + pulses[..n] + [pulses[n]];
      HighCyclesOneMore(c0, out, r, d, quiet + pulses[..n], pulses[n]);
      EnablesInPhase(r, d, q0, n);
    }
  }

  /**
   At the divisors 1 to 3, from any state of divider and synchronizer: after five cycles
   without a pulse, six if the divisor is new, every pulse of a train spaced by at least the
   division is seen exactly once.
   */
  lemma DividedClockSeesEveryPulse(c0: nat, out: bool, r: Regs, d: nat, quiet: seq<bool>, pulses: seq<bool>)
    requires c0 < RANGE && RegsOk(r) && 1 <= d < RANGE && |quiet| == Settling(r, d) && Quiet(quiet)
    requires IrqPulseCdc.Spaced(pulses, d) && IrqPulseCdc.QuietAtEnd(pulses, d)
    ensures HighCycles(c0, out, r, d, quiet + pulses) - HighCycles(c0, out, r, d, quiet)
            == IrqPulseCdc.Count(pulses)
  {
    QuietFades(c0, d, quiet);
    FadesOut(c0, d, |quiet|);
    var q0 := DividesAtSomePhase(CntAtLoad(r, d), d);
    RunsOn(c0, out, r, d, quiet, pulses, q0);
    IrqPulseCdc.OneHighCyclePerPulse(pulses, d, 4, q0);
  }
}
