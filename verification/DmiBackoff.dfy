/**
 Reading a debug-module register with exponential back-off, as a function of the transport's
 state: each scan and each wait is a number of TCK cycles.
 */
module DmiBackoff {
  import opened Arith
  import opened Dtm

  /** Cycles of an IR scan, of a scan of `dmi`, of a scan of `dtmcs`. */
  const IR_SCAN: nat := 11
  const DMI_SCAN: nat := 46
  const DTMCS_SCAN: nat := 37

  /** Capture-DR is the third cycle of a scan, Update-DR the last one. */
  const CAPTURE: nat := 3

  function DmiScan(d: Dtm, op: nat, data: Word32, addr: nat, dm: DebugModule): Dtm {
    Update(Age(Capture(Age(d, CAPTURE)), DMI_SCAN - CAPTURE), op, data, addr % 128, dm)
  }

  function ResetDmi(d: Dtm): Dtm {
    Age(d, IR_SCAN + DTMCS_SCAN).(sticky := false)
  }

  /** The request has been sent, `gap` cycles after the start, and waited for. */
  function Requested(d: Dtm, addr: nat, wait: nat, gap: nat, dm: DebugModule): Dtm {
    Age(DmiScan(Age(d, gap), OP_READ, 0, addr, dm), wait)
  }

  /** The transport as the second scan captures it. */
  function Reply(d: Dtm, addr: nat, wait: nat, gap: nat, dm: DebugModule): Dtm {
    Age(Requested(d, addr, wait, gap, dm), CAPTURE)
  }

  /** The state after one read: two scans with a wait in between. */
  function Trial(d: Dtm, addr: nat, wait: nat, gap: nat, dm: DebugModule): Dtm {
    DmiScan(Requested(d, addr, wait, gap, dm), OP_NOP, 0, addr, dm)
  }

  /** `wait_cycles` of the n-th trial: a 32-bit variable that doubles. */
  function Wait(n: nat): (w: nat) {
    if n == 0 then 8 else Wait(n - 1) * 2 % U32
  }

  function Gap(first: nat, n: nat): nat {
    if n == 0 then first else IR_SCAN
  }

  /** The state before the n-th trial, if all earlier ones reported busy. */
  function Before(d: Dtm, addr: nat, first: nat, n: nat, dm: DebugModule): Dtm {
    if n == 0 then d
    else ResetDmi(Trial(Before(d, addr, first, n - 1, dm), addr, Wait(n - 1), Gap(first, n - 1), dm))
  }

  function NthReply(d: Dtm, addr: nat, first: nat, n: nat, dm: DebugModule): Dtm {
    Reply(Before(d, addr, first, n, dm), addr, Wait(n), Gap(first, n), dm)
  }

  ghost predicate Bounded(dm: DebugModule, limit: nat) {
    forall h {:trigger dm(h)} :: dm(h).latency <= limit
  }

  /** The wait doubles up to 2^31, then wraps to 0 and stays there. */
  function Doubling(n: nat): nat {
    if n <= 28 then 8 * Pow2(n) else 0
  }

  lemma DoublingStep(n: nat)
    ensures Doubling(n) * 2 % U32 == Doubling(n + 1)
  {
    Pow2Of28();
    if n < 28 {
      Pow2Monotone(n + 1, 28);
      DivMod(8 * Pow2(n + 1), U32, 0, 8 * Pow2(n + 1));
    }
  }

  lemma {:induction false} WaitIs(n: nat)
    ensures Wait(n) == Doubling(n)
  {
    if n > 0 {
      WaitIs(n - 1);
      DoublingStep(n - 1);
    }
  }

  lemma Pow2Of28()
    ensures Pow2(27) == 0x800_0000 && Pow2(28) == 0x1000_0000
  {
    assert Pow2(4) == 16 && Pow2(7) == 128;
    PowPlus(4, 4);
    PowPlus(8, 8);
    PowPlus(16, 4);
    PowPlus(20, 7);
  }

  lemma {:induction false} Pow2Monotone(a: nat, b: nat)
    requires a <= b
    ensures Pow2(a) <= Pow2(b)
  {
    if a < b {
      Pow2Monotone(a, b - 1);
    }
  }

  // ---------- One trial ----------

  /** What one read does, whatever state it starts from. */
  lemma TrialFacts(d: Dtm, addr: nat, wait: nat, gap: nat, dm: DebugModule, limit: nat)
    requires Bounded(dm, limit) && d.busy <= limit
    ensures var d', reply := Trial(d, addr, wait, gap, dm), Reply(d, addr, wait, gap, dm);
            var h := d.history + [Read(addr % 128)];
            && (d'.busy <= limit - wait - DMI_SCAN || d'.busy == 0)
            && reply.history == d'.history
            && (ReportsBusy(reply) || (d'.history == h && reply.data == dm(h).data))
            && (!d.sticky && d.busy <= gap + CAPTURE && limit <= wait + CAPTURE ==> !ReportsBusy(reply))
            && (d'.history == d.history || d'.history == h)
  {
  }

  // ---------- All trials ----------

  lemma {:induction false} BeforeFacts(d: Dtm, addr: nat, first: nat, n: nat, dm: DebugModule, limit: nat)
    requires Bounded(dm, limit) && d.busy <= limit
    ensures Before(d, addr, first, n, dm).busy <= limit
    ensures n > 0 ==>
              var b := Before(d, addr, first, n, dm);
              !b.sticky && (limit <= Wait(n - 1) + 108 ==> b.busy <= IR_SCAN + CAPTURE)
  {
    if n > 0 {
      BeforeFacts(d, addr, first, n - 1, dm, limit);
      TrialFacts(Before(d, addr, first, n - 1, dm), addr, Wait(n - 1), Gap(first, n - 1), dm, limit);
    }
  }

  /** `h` is `from` and then at most `n` reads of the address. */
  ghost predicate OnlyReads(from: seq<Access>, h: seq<Access>, addr: nat, n: nat) {
    && from <= h
    && |h| <= |from| + n
    && forall i | |from| <= i < |h| :: h[i] == Read(addr % 128)
  }

  lemma {:induction false} BeforeReads(d: Dtm, addr: nat, first: nat, n: nat, dm: DebugModule, limit: nat)
    requires Bounded(dm, limit) && d.busy <= limit
    ensures OnlyReads(d.history, Before(d, addr, first, n, dm).history, addr, n)
  {
    if n > 0 {
      BeforeReads(d, addr, first, n - 1, dm, limit);
      BeforeFacts(d, addr, first, n - 1, dm, limit);
      TrialFacts(Before(d, addr, first, n - 1, dm), addr, Wait(n - 1), Gap(first, n - 1), dm, limit);
    }
  }

  /** The word is the debug module's answer to a read that was the last access made. */
  ghost predicate Answered(from: Dtm, d: Dtm, addr: nat, n: nat, word: nat, dm: DebugModule) {
    && OnlyReads(from.history, d.history, addr, n)
    && from.history < d.history
    && word == dm(d.history).data
  }

  /** A reply that is not busy carries the answer to the read just made. */
  lemma ReplyAnswers(d: Dtm, addr: nat, first: nat, n: nat, dm: DebugModule, limit: nat)
    requires Bounded(dm, limit) && d.busy <= limit
    requires !ReportsBusy(NthReply(d, addr, first, n, dm))
    ensures Answered(d, Trial(Before(d, addr, first, n, dm), addr, Wait(n), Gap(first, n), dm), addr, n + 1,
                     NthReply(d, addr, first, n, dm).data, dm)
  {
    BeforeReads(d, addr, first, n, dm, limit);
    BeforeFacts(d, addr, first, n, dm, limit);
    TrialFacts(Before(d, addr, first, n, dm), addr, Wait(n), Gap(first, n), dm, limit);
  }

  /** A trial succeeds once its wait, and the time since the last request, cover the limit. */
  lemma TrialSucceeds(d: Dtm, addr: nat, first: nat, n: nat, dm: DebugModule, limit: nat)
    requires Bounded(dm, limit) && d.busy <= limit
    requires n > 0 && limit <= Wait(n - 1) + 108 && limit <= Wait(n) + CAPTURE
    ensures !ReportsBusy(NthReply(d, addr, first, n, dm))
  {
    BeforeFacts(d, addr, first, n, dm, limit);
    TrialFacts(Before(d, addr, first, n, dm), addr, Wait(n), IR_SCAN, dm, limit);
  }

  /** The slowest debug module that the back-off copes with: 2^30 + 108 cycles. */
  const SLOWEST: nat := 0x4000_006C

  /** The index of the last trial that can be needed when `8 * 2^k` covers the latency. */
  function LastTrial(k: nat): nat {
    if k < 28 then k + 1 else 28
  }

  /**
   From any state of the transport, with any access still in flight and any sticky error: at
   most `k + 2` trials when `8 * 2^k` covers the latency, and never more than 29.
   */
  lemma BackoffTerminates(d: Dtm, addr: nat, first: nat, k: nat, dm: DebugModule, limit: nat)
    requires Bounded(dm, limit) && d.busy <= limit && limit <= SLOWEST
    requires limit <= 8 * Pow2(k)
    ensures !ReportsBusy(NthReply(d, addr, first, LastTrial(k), dm))
  {
    LimitCovered(k, limit);
    TrialSucceeds(d, addr, first, LastTrial(k), dm, limit);
  }

  lemma LimitCovered(k: nat, limit: nat)
    requires limit <= SLOWEST && limit <= 8 * Pow2(k)
    ensures limit <= Wait(LastTrial(k) - 1) + 108 && limit <= Wait(LastTrial(k)) + CAPTURE
  {
    var n := LastTrial(k);
    WaitIs(n - 1);
    WaitIs(n);
    if k < 28 {
      assert Pow2(k + 1) == 2 * Pow2(k);
    } else {
      Pow2Of28();
    }
  }

  // ---------- Beyond the limit ----------

  /** Each access takes a little longer than the wait, and number 27 outlasts the reset. */
  function Laggard(h: seq<Access>): Answer {
    var n := |h| - 1;
    Answer(if 0 <= n < 27 then Wait(n) + 4 else if n == 27 then SLOWEST + 1 else 4, 0)
  }

  lemma LaggardBounded(limit: nat)
    requires limit > SLOWEST
    ensures Bounded(Laggard, limit)
  {
    forall h {:trigger Laggard(h)} ensures Laggard(h).latency <= limit {
      var n := |h| - 1;
      if 0 <= n < 27 {
        WaitIs(n);
        Pow2Monotone(n, 27);
        Pow2Of28();
      }
    }
  }

  const IDLE: Dtm := Dtm(false, 0, 0, 0, [])

  /** Where the laggard has the transport before the n-th trial. */
  ghost predicate Lagging(d: Dtm, n: nat) {
    && !d.sticky
    && d.busy == (if n == 28 then 15 else 0)
    && |d.history| == (if n <= 28 then n else n - 1)
  }

  lemma LaggardStep(d: Dtm, addr: nat, n: nat)
    requires Lagging(d, n)
    ensures ReportsBusy(Reply(d, addr, Wait(n), Gap(0, n), Laggard))
    ensures Lagging(ResetDmi(Trial(d, addr, Wait(n), Gap(0, n), Laggard)), n + 1)
  {
    WaitIs(n);
    Pow2Of28();
  }

  lemma {:induction false} LaggardLags(addr: nat, n: nat)
    ensures Lagging(Before(IDLE, addr, 0, n, Laggard), n)
    ensures ReportsBusy(NthReply(IDLE, addr, 0, n, Laggard))
  {
    if n > 0 {
      LaggardLags(addr, n - 1);
      LaggardStep(Before(IDLE, addr, 0, n - 1, Laggard), addr, n - 1);
    }
    LaggardStep(Before(IDLE, addr, 0, n, Laggard), addr, n);
  }

  ghost predicate Returns(d: Dtm, addr: nat, first: nat, dm: DebugModule) {
    exists n: nat :: !ReportsBusy(NthReply(d, addr, first, n, dm))
  }

  /** Every read returns, from every state of every debug module with this latency. */
  ghost predicate AlwaysReturns(limit: nat) {
    forall d: Dtm, addr: nat, first: nat, dm: DebugModule {:trigger Returns(d, addr, first, dm)} ::
      d.busy <= limit && Bounded(dm, limit) ==> Returns(d, addr, first, dm)
  }

  /** The read loop ends for all debug modules of a given latency exactly up to 2^30 + 108. */
  lemma BackoffLimit(limit: nat)
    ensures AlwaysReturns(limit) <==> limit <= SLOWEST
  {
    if limit <= SLOWEST {
      forall d: Dtm, addr: nat, first: nat, dm: DebugModule {:trigger Returns(d, addr, first, dm)}
        | d.busy <= limit && Bounded(dm, limit)
        ensures Returns(d, addr, first, dm)
      {
        Pow2Of28();
        BackoffTerminates(d, addr, first, 28, dm, limit);
      }
    } else {
      LaggardBounded(limit);
      forall n: nat ensures ReportsBusy(NthReply(IDLE, 0, 0, n, Laggard)) {
        LaggardLags(0, n);
      }
      assert !Returns(IDLE, 0, 0, Laggard);
    }
  }
}
