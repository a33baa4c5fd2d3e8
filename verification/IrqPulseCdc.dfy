/**
 The interrupt pulse synchronizer: a one-cycle pulse of the fast clock is stretched by a
 counter until the slow clock, a division of the fast one, has sampled it.
 */
module IrqPulseCdc {
  import opened Arith

  /** The stretch counter counts modulo this. */
  function Modulus(divMax: nat): nat {
    Pow2(Clog2(divMax))
  }

  function NextCnt(cnt: nat, pulse: bool, divisor: nat, modulus: nat): nat
    requires modulus >= 2
  {
    if pulse then 1
    else if cnt == divisor then 0
    else if cnt != 0 then (cnt + 1) % modulus
    else 0
  }

  /** The output register: it samples on the slow clock only. */
  function NextOut(out: bool, cnt: nat, slow: bool): bool {
    if slow then cnt != 0 else out
  }

  /** The reduction-or of `2**cnt - 1` in `divMax` bits. */
  predicate PulseD(cnt: nat, divMax: nat) {
    (Pow2(cnt) - 1) % Pow2(divMax) != 0
  }

  lemma PulseDMeansCounting(cnt: nat, divMax: nat)
    requires divMax >= 1
    ensures PulseD(cnt, divMax) <==> cnt != 0
  {
    if cnt == 0 {
      DivMod(0, Pow2(divMax), 0, 0);
    } else {
      var x, m := Pow2(cnt) - 1, Pow2(divMax);
      var q, h := x / m, Pow2(divMax - 1);
      assert x % m == x - q * m;
      assert q * m == 2 * (q * h);
    }
  }

  /** The two registers, on their two clocks. */
  class IrqPulseCdc {
    const divMax: nat
    var cnt: nat
    var pulseO: bool

    constructor (divMax: nat)
      requires divMax >= 2
      ensures this.divMax == divMax && cnt == 0 && !pulseO
    {
      this.divMax := divMax;
      this.cnt := 0;
      this.pulseO := false;
    }

    /** One rising edge of the fast clock, on which the slow clock may rise too; both
        registers take the values from before the edge. */
    method Edge(pulse: bool, divisor: nat, slow: bool)
      requires divMax >= 1 && Modulus(divMax) >= 2
      modifies this
      ensures cnt == NextCnt(old(cnt), pulse, divisor, Modulus(divMax))
      ensures pulseO == NextOut(old(pulseO), old(cnt), slow)
    {
      PulseDMeansCounting(cnt, divMax);
      var cntD := 0;
      if pulse {
        cntD := 1;
      } else if cnt == divisor {
        cntD := 0;
      } else if cnt != 0 {
        cntD := (cnt + 1) % Modulus(divMax);
      }
      if slow {
        pulseO := PulseD(cnt, divMax);
      }
      cnt := cntD;
    }
  }

  // ---------- Runs: one input bit per fast cycle ----------

  /** The counter after the given fast cycles from reset. */
  function Cnt(pulses: seq<bool>, d: nat, m: nat): nat
    requires m >= 2
  {
    if pulses == [] then 0
    else
      var n := |pulses| - 1;
      NextCnt(Cnt(pulses[..n], d, m), pulses[n], d, m)
  }

  /** Fast cycles since the slow clock last rose; `q0` is its phase at reset. */
  function Since(n: nat, d: nat, q0: nat): (q: nat)
    requires 1 <= q0 <= d
    ensures 1 <= q <= d
  {
    if n == 0 then q0
    else if Since(n - 1, d, q0) == d then 1
    else Since(n - 1, d, q0) + 1
  }

  /** The slow clock rises together with the edge that ends fast cycle `n`. */
  predicate Slow(n: nat, d: nat, q0: nat)
    requires 1 <= q0 <= d
  {
    Since(n, d, q0) == d
  }

  /** The output after the given fast cycles from reset. */
  predicate Out(pulses: seq<bool>, d: nat, m: nat, q0: nat)
    requires m >= 2 && 1 <= q0 <= d
  {
    if pulses == [] then false
    else
      var n := |pulses| - 1;
      NextOut(Out(pulses[..n], d, m, q0), Cnt(pulses[..n], d, m), Slow(n, d, q0))
  }

  /** Number of slow cycles in which the output is high. */
  function Highs(pulses: seq<bool>, d: nat, m: nat, q0: nat): nat
    requires m >= 2 && 1 <= q0 <= d
  {
    if pulses == [] then 0
    else
      var n := |pulses| - 1;
      Highs(pulses[..n], d, m, q0) + if Slow(n, d, q0) && Out(pulses, d, m, q0) then 1 else 0
  }

  function Count(pulses: seq<bool>): nat {
    if pulses == [] then 0
    else Count(pulses[..|pulses| - 1]) + if pulses[|pulses| - 1] then 1 else 0
  }

  predicate Spaced(pulses: seq<bool>, d: nat) {
    forall i, j | 0 <= i < j < |pulses| && pulses[i] && pulses[j] :: j - i >= d
  }

  /** No pulse in the last `d` cycles. */
  predicate QuietAtEnd(pulses: seq<bool>, d: nat) {
    forall i | 0 <= i < |pulses| && |pulses| - d <= i :: !pulses[i]
  }

  /** A running counter is the age of the last pulse, however close together the pulses are; it
      stands still once that pulse is more than `d` cycles old. */
  lemma {:induction false} CounterIsAge(pulses: seq<bool>, d: nat, m: nat)
    requires m >= 2 && 1 <= d < m
    ensures var k := Cnt(pulses, d, m);
            && k <= d
            && (k != 0 ==> k <= |pulses| && pulses[|pulses| - k]
                           && forall i | |pulses| - k < i < |pulses| :: !pulses[i])
            && (k == 0 ==> QuietAtEnd(pulses, d))
  {
    if pulses != [] {
      var n := |pulses| - 1;
      CounterIsAge(pulses[..n], d, m);
      Small(Cnt(pulses[..n], d, m) + 1, m);
      assert forall i | 0 <= i < n :: pulses[i] == pulses[..n][i];
    }
  }

  lemma Small(x: nat, m: nat)
    requires m > 0
    ensures x < m ==> x % m == x
  {
  }

  /** The pulse that is being stretched has not been sampled yet. */
  predicate Pending(pulses: seq<bool>, d: nat, m: nat, q0: nat)
    requires m >= 2 && 1 <= q0 <= d
  {
    0 < Cnt(pulses, d, m) <= Since(|pulses|, d, q0)
  }

  lemma {:induction false} HighsCountPulses(pulses: seq<bool>, d: nat, m: nat, q0: nat)
    requires m >= 2 && 1 <= q0 <= d < m && Spaced(pulses, d)
    ensures Highs(pulses, d, m, q0) + (if Pending(pulses, d, m, q0) then 1 else 0) == Count(pulses)
  {
    if pulses != [] {
      var n := |pulses| - 1;
      HighsCountPulses(pulses[..n], d, m, q0);
      CounterIsAge(pulses[..n], d, m);
      var k := Cnt(pulses[..n], d, m);
      Small(k + 1, m);
      if pulses[n] && k != 0 {
        assert pulses[n - k];
      }
    }
  }

  /**
   For a divisor below the counter's modulus, at any phase of the slow clock, every train of
   pulses at least `d` apart gives exactly one high slow cycle per pulse; a pulse of the last
   `d` cycles may still be on its way.
   */
  lemma OneHighCyclePerPulse(pulses: seq<bool>, d: nat, m: nat, q0: nat)
    requires m >= 2 && 1 <= q0 <= d < m && Spaced(pulses, d)
    ensures Highs(pulses, d, m, q0) <= Count(pulses) <= Highs(pulses, d, m, q0) + 1
    ensures QuietAtEnd(pulses, d) ==> Highs(pulses, d, m, q0) == Count(pulses)
  {
    HighsCountPulses(pulses, d, m, q0);
    CounterIsAge(pulses, d, m);
  }

  lemma {:induction false} SinceAdvances(n: nat, d: nat, q0: nat, j: nat)
    requires 1 <= q0 <= d && Since(n, d, q0) + j <= d
    ensures Since(n + j, d, q0) == Since(n, d, q0) + j
  {
    if j > 0 {
      SinceAdvances(n, d, q0, j - 1);
      assert Since(n + j, d, q0) == Since(n + j - 1, d, q0) + 1;
    }
  }

  /** No pulse is lost however close it comes to others: the output is high from the first slow
      edge in the `d` cycles after it. */
  lemma EveryPulseShows(pulses: seq<bool>, d: nat, m: nat, q0: nat, t: nat) returns (n: nat)
    requires m >= 2 && 1 <= q0 <= d < m
    requires t + d < |pulses| && pulses[t]
    ensures t < n <= t + d && Slow(n, d, q0) && Out(pulses[..n + 1], d, m, q0)
  {
    n := t + 1 + (d - Since(t + 1, d, q0));
    SinceAdvances(t + 1, d, q0, n - (t + 1));
    CounterIsAge(pulses[..n], d, m);
    assert pulses[..n][t] == pulses[t];
    assert pulses[..n + 1][..n] == pulses[..n];
  }

  ghost predicate Faithful(d: nat, m: nat)
    requires m >= 2 && d >= 1
  {
    forall pulses: seq<bool>, q0: nat | 1 <= q0 <= d && Spaced(pulses, d) && QuietAtEnd(pulses, d) ::
      Highs(pulses, d, m, q0) == Count(pulses)
  }

  /** A single pulse followed by `n` quiet cycles. */
  function SinglePulse(n: nat): seq<bool> {
    seq(n + 1, i => i == 0)
  }

  lemma {:induction false} SinglePulseFades(n: nat, d: nat, m: nat)
    requires m >= 2 && d >= m
    ensures Cnt(SinglePulse(n), d, m) == if n + 1 < m then n + 1 else 0
    ensures Count(SinglePulse(n)) == 1
  {
    var p := SinglePulse(n);
    if n == 0 {
      assert p[..0] == [] && p[0];
    } else {
      assert p[..n] == SinglePulse(n - 1);
      SinglePulseFades(n - 1, d, m);
      Small(n + 1, m);
      if n + 1 == m {
        DivMod(m, m, 1, 0);
      }
    }
  }

  lemma {:induction false} SinglePulseMissed(n: nat, d: nat, m: nat)
    requires m >= 2 && d >= m && n <= d
    ensures n > 0 ==> Since(n, d, d) == n
    ensures Highs(SinglePulse(n), d, m, d) == 0
  {
    var p := SinglePulse(n);
    if n == 0 {
      assert p[..0] == [];
    } else {
      assert p[..n] == SinglePulse(n - 1);
      SinglePulseMissed(n - 1, d, m);
      SinglePulseFades(n - 1, d, m);
    }
  }

  /**
   The exact range of the synchronizer: it is faithful for every train and phase if and only
   if the divisor is below the counter's modulus. From there on the counter wraps before the
   slow clock comes, and a pulse that just missed one slow edge is lost.
   */
  lemma FaithfulIffCounterReachesDivisor(d: nat, m: nat)
    requires m >= 2 && d >= 1
    ensures Faithful(d, m) <==> d < m
  {
    if d < m {
      forall pulses: seq<bool>, q0: nat | 1 <= q0 <= d && Spaced(pulses, d) && QuietAtEnd(pulses, d)
        ensures Highs(pulses, d, m, q0) == Count(pulses)
      {
        OneHighCyclePerPulse(pulses, d, m, q0);
      }
    } else {
      var p := SinglePulse(d);
      SinglePulseMissed(d, d, m);
      SinglePulseFades(d, d, m);
      assert Spaced(p, d) && QuietAtEnd(p, d);
    }
  }

  /** The counter's modulus is the least power of two that is not below the parameter, so divisors
      below the parameter are always handled and those from twice the parameter on never. */
  lemma ParameterRange(divMax: nat, d: nat)
    requires divMax >= 2 && d >= 1
    ensures 2 <= divMax <= Modulus(divMax) < 2 * divMax && exists k :: Modulus(divMax) == Pow2(k)
    ensures d < divMax ==> Faithful(d, Modulus(divMax))
    ensures d >= 2 * divMax ==> !Faithful(d, Modulus(divMax))
  {
    Clog2Covers(divMax);
    FaithfulIffCounterReachesDivisor(d, Modulus(divMax));
  }

  /** With the four-bit divisor of the peripheral clock the parameter is 4: divisors 1 to 3
      are handled, 4 to 15 are not. */
  lemma PeripheralDivisors(d: nat)
    requires 1 <= d < 16
    ensures Modulus(4) == 4
    ensures Faithful(d, Modulus(4)) <==> d <= 3
  {
    assert Clog2(4) == 2 by {
      assert Clog2(2) == 1;
    }
    assert Pow2(2) == 4;
    FaithfulIffCounterReachesDivisor(d, Modulus(4));
  }
}
