/** The JTAG half of the simulation testbench: bit-banged scans through the TAP controller. */
module Testbench {
  import opened Arith
  import opened Bits
  import opened Dtm
  import opened JtagTap
  import DmiBackoff

  const U64: nat := 0x1_0000_0000_0000_0000

  type Byte8 = b: nat | b < 256

  /** A register after shifting `bits` in: the first to come fall out again if it is too short. */
  function Pushed(shift: seq<bool>, bits: seq<bool>): (s: seq<bool>)
    ensures |s| == |shift|
  {
    (shift + bits)[|bits|..]
  }

  lemma PushedStep(shift: seq<bool>, bits: seq<bool>, i: nat)
    requires shift != [] && i < |bits|
    ensures Shifted(Pushed(shift, bits[..i]), bits[i]) == Pushed(shift, bits[..i + 1])
    ensures Pushed(shift, bits[..i])[0] == (shift + bits)[i]
  {
  }

  /** The cycles `set_ir` takes, given the cached opcode. */
  function IrCost(cached: nat, opcode: nat): nat {
    if opcode % 32 == cached % 32 then 0 else DmiBackoff.IR_SCAN
  }

  // The driver's own constants.

  const DMI_WIDTH: nat := 7 + 2 + 32
  const DMI_ACCESS: nat := 0x11
  const DTM_CSR: nat := 0x10
  const DTM_NOP: nat := 0x0
  const DTM_READ: nat := 0x1
  const DTM_WRITE: nat := 0x2
  const DTM_BUSY: nat := 0x3

  /** What Update-DR sees of a driver's DMI scan. */
  function DmiUpdate(op: nat, data: Word32, addr: Byte8): Scan {
    Scan(DMI_ACCESS, ToBits(op, 2) + ToBits(data, 32) + ToBits(addr, 7))
  }

  /** The scan in numbers: instruction 0x11, 41 bits, op first and then data and address. */
  lemma DmiUpdateInNumbers(op: nat, data: Word32, addr: Byte8)
    requires op < 4
    ensures var u := DmiUpdate(op, data, addr);
            && u.ir == 0x11 && |u.bits| == 41
            && u.bits[0] == (op % 2 == 1) && u.bits[1] == (op / 2 == 1)
            && Value(u.bits) == op + 4 * data + 0x4_0000_0000 * (addr % 128)
  {
    PowersUsed();
    var o, d, a := ToBits(op, 2), ToBits(data, 32), ToBits(addr, 7);
    ValueOfAppend(o + d, a);
    ValueOfAppend(o, d);
    ValueOfToBits(op, 2);
    ValueOfToBits(data, 32);
    ValueOfLowBits(addr, 7);
    assert Shr(op, 1) == op / 2;
  }

  lemma DmiresetBit()
    ensures Bit(0x10000, DMIRESET) && !Bit(0x10000, DMIHARDRESET)
  {
    ShrPow2(16);
    assert Pow2(4) == 16;
    PowPlus(4, 4);
    PowPlus(8, 8);
    ShrMore(0x10000, 16, 1);
  }

  lemma {:induction false} ShrPow2(i: nat)
    ensures Shr(Pow2(i), i) == 1
  {
    if i > 0 {
      ShrPow2(i - 1);
    }
  }

  lemma {:induction false} ShrMore(n: nat, i: nat, j: nat)
    ensures Shr(n, i + j) == Shr(Shr(n, i), j)
  {
    if i > 0 {
      ShrMore(n / 2, i - 1, j);
    }
  }

  /** The four cycles from Run-Test/Idle to Shift-IR. */
  lemma EnterIr(d: Device, tdi: bool, idcode: Word32, dm: DebugModule)
    requires Ok(d) && d.tap.RunTestIdle?
    ensures var d1 := Tick(d, true, tdi, idcode, dm);
            var d2 := Tick(d1, true, tdi, idcode, dm);
            var d3 := Tick(d2, false, tdi, idcode, dm);
            Tick(d3, false, tdi, idcode, dm)
            == d.(tap := TapState.ShiftIr, shift := ToBits(1, IR_LENGTH), dtm := Age(d.dtm, 4))
  {
  }

  /** The two cycles from Exit1-IR to Run-Test/Idle. */
  lemma LeaveIr(d: Device, tdi: bool, idcode: Word32, dm: DebugModule)
    requires Ok(d) && d.tap.Exit1Ir?
    ensures Tick(Tick(d, true, tdi, idcode, dm), false, tdi, idcode, dm)
            == d.(tap := RunTestIdle, ir := IrValue(d.shift), dtm := Age(d.dtm, 2))
  {
  }

  lemma IrOfOpcode(opcode: nat)
    ensures IrValue(ToBits(opcode, 5)) == opcode % 32
  {
    ValueOfLowBits(opcode, 5);
    assert Pow2(5) == 32;
  }

  lemma LowBitsOfByte(opcode: nat)
    ensures opcode % 256 % 32 == opcode % 32
  {
    var q, r := opcode / 256, opcode % 256;
    DivMod(opcode, 32, 8 * q + r / 32, r % 32);
  }

  class Testbench {
    const idcode: Word32
    const dm: DebugModule

    var tms: bool
    var tdi: bool
    var tdo: bool
    var jtagIr: Byte8
    var dut: Device

    /** The controller may power up in any state. */
    constructor (dut: Device, idcode: Word32, dm: DebugModule)
      ensures this.dut == dut && this.idcode == idcode && this.dm == dm && jtagIr == 0xFF
    {
      this.dut, this.idcode, this.dm := dut, idcode, dm;
      jtagIr := 0xFF;
    }

    /**
     The cached opcode is the mark left by a reset, with IDCODE still selected, or agrees with
     the instruction register in its low five bits.
     */
    ghost predicate Cached()
      reads this
    {
      jtagIr % 32 == dut.ir || (jtagIr == 0xFF && dut.ir == IDCODE)
    }

    /** Between two operations. */
    ghost predicate Idle()
      reads this
    {
      Ok(dut) && dut.tap.RunTestIdle? && !tms && Cached()
    }

    method JtagTick()
      requires Ok(dut)
      modifies `tdo, `dut
      ensures Ok(dut)
      ensures dut == Tick(old(dut), tms, tdi, idcode, dm)
      ensures tdo == Tdo(old(dut))
    {
      tdo := Tdo(dut);
      dut := Tick(dut, tms, tdi, idcode, dm);
    }

    /** From any state of the controller: Run-Test/Idle, IDCODE selected, at most one Update-DR. */
    method JtagSoftreset()
      requires Ok(dut)
      modifies this
      ensures Idle()
      ensures dut.ir == IDCODE && jtagIr == 0xFF
      ensures old(dut.updates) <= dut.updates
      ensures |dut.updates| <= |old(dut.updates)| + Ahead(old(dut.tap))
    {
      tms := true;
      tdi := false;
      for i := 0 to 6
        invariant tms && !tdi
        invariant Climbed(old(dut), dut, i)
      {
        ClimbStep(old(dut), dut, i, tdi, idcode, dm);
        JtagTick();
      }
      tms := false;
      JtagTick();
      jtagIr := 0xFF;
    }

    method WriteTms(val: bool)
      requires Ok(dut)
      modifies `tms, `tdo, `dut
      ensures Ok(dut) && tms == val
      ensures dut == Tick(old(dut), val, tdi, idcode, dm)
    {
      tms := val;
      JtagTick();
    }

    method WriteBits(wdata: nat, size: nat, tmsLast: bool)
      requires Ok(dut) && !tms && (dut.tap.ShiftDr? || dut.tap.ShiftIr?)
      requires wdata < U64 && size <= 64
      modifies `tms, `tdi, `tdo, `dut
      ensures Ok(dut) && !tms
      ensures dut == old(dut).(tap := NextTap(old(dut.tap), size > 0 && tmsLast),
                               shift := Pushed(old(dut.shift), ToBits(wdata, size)),
                               dtm := Age(old(dut.dtm), size))
    {
      ghost var bits := ToBits(wdata, size);
      for i := 0 to size
        invariant Ok(dut) && tms == (size > 0 && i == size && tmsLast)
        invariant dut == old(dut).(tap := NextTap(old(dut.tap), size > 0 && i == size && tmsLast),
                                   shift := Pushed(old(dut.shift), bits[..i]),
                                   dtm := Age(old(dut.dtm), i))
      {
        tdi := Bit(wdata, i);
        if i == size - 1 {
          tms := tmsLast;
        }
        PushedStep(old(dut.shift), bits, i);
        JtagTick();
      }
      assert bits[..size] == bits;
      tms := false;
    }

    /** The instruction scan of `set_ir`. */
    method ScanIr(opcode: nat)
      requires Ok(dut) && dut.tap.RunTestIdle? && opcode < U32
      modifies `tms, `tdi, `tdo, `dut
      ensures Ok(dut) && !tms
      ensures dut == old(dut).(ir := opcode % 32, shift := ToBits(opcode, 5), dtm := Age(old(dut.dtm), 11))
    {
      EnterIr(dut, tdi, idcode, dm);
      WriteTms(true);
      WriteTms(true);
      WriteTms(false);
      WriteTms(false);
      PushedAll(dut.shift, ToBits(opcode, 5));
      WriteBits(opcode, 5, true);
      IrOfOpcode(opcode);
      LeaveIr(dut, tdi, idcode, dm);
      WriteTms(true);
      WriteTms(false);
    }

    /**
     After this the wanted instruction is selected, unless the opcode is all ones and the
     cache still holds the reset mark: then IDCODE stays.
     */
    method SetIr(opcode: nat)
      requires Idle() && opcode < U32
      modifies this
      ensures Idle()
      ensures dut == old(dut).(ir := if IrCost(old(jtagIr), opcode) == 0 then old(dut.ir) else opcode % 32,
                               shift := dut.shift,
                               dtm := Age(old(dut.dtm), IrCost(old(jtagIr), opcode)))
      ensures opcode % 32 != 31 ==> dut.ir == opcode % 32
    {
      if opcode % 32 == jtagIr % 32 {
        return;
      }
      LowBitsOfByte(opcode);
      ScanIr(opcode);
      jtagIr := opcode % 256;
    }

    method ShiftDr()
      requires Idle()
      modifies `tms, `tdo, `dut
      ensures Ok(dut) && !tms
      ensures var d := Age(old(dut.dtm), DmiBackoff.CAPTURE);
              dut == old(dut).(tap := TapState.ShiftDr,
                               shift := CapturedBits(old(dut.ir), d, idcode),
                               dtm := CaptureData(old(dut.ir), d))
    {
      WriteTms(true);
      WriteTms(false);
      WriteTms(false);
    }

    method ReadwriteBits(wdata: nat, size: nat, tmsLast: bool) returns (res: nat)
      requires Ok(dut) && !tms && dut.tap.ShiftDr?
      requires wdata < U64 && size <= 64
      modifies `tms, `tdi, `tdo, `dut
      ensures Ok(dut) && tms == (size > 0 && tmsLast)
      ensures dut == old(dut).(tap := NextTap(old(dut.tap), size > 0 && tmsLast),
                               shift := Pushed(old(dut.shift), ToBits(wdata, size)),
                               dtm := Age(old(dut.dtm), size))
      ensures res == Value((old(dut.shift) + ToBits(wdata, size))[..size])
    {
      res := 0;
      ghost var bits := ToBits(wdata, size);
      ghost var all := old(dut.shift) + bits;
      for i := 0 to size
        invariant Ok(dut) && tms == (size > 0 && i == size && tmsLast)
        invariant dut == old(dut).(tap := NextTap(old(dut.tap), size > 0 && i == size && tmsLast),
                                   shift := Pushed(old(dut.shift), bits[..i]),
                                   dtm := Age(old(dut.dtm), i))
        invariant res == Value(all[..i])
      {
        tdi := Bit(wdata, i);
        if i == size - 1 {
          tms := tmsLast;
        }
        PushedStep(old(dut.shift), bits, i);
        ValueSnoc(all, i);
        JtagTick();
        res := res + if tdo then Pow2(i) else 0;
      }
      assert bits[..size] == bits;
    }

    /** `exit1`: the last bit was shifted with TMS low, so that one more shift leaves Shift-DR. */
    method UpdateDr(exit1: bool)
      requires Ok(dut) && (if exit1 then dut.tap.ShiftDr? else dut.tap.Exit1Dr?)
      modifies `tms, `tdo, `dut
      ensures Ok(dut) && !tms
      ensures var bits := if exit1 then Shifted(old(dut.shift), tdi) else old(dut.shift);
              var d := Age(old(dut.dtm), if exit1 then 3 else 2);
              dut == old(dut).(tap := RunTestIdle,
                               shift := bits,
                               dtm := UpdateData(old(dut.ir), d, bits, dm),
                               updates := old(dut.updates) + [Scan(old(dut.ir), bits)])
    {
      if exit1 {
        WriteTms(true);
      }
      WriteTms(true);
      WriteTms(false);
    }

    /** One Update-DR of the DMI register, with exactly these fields; any error or wait aside. */
    method JtagWriteDmi(csrAddr: Byte8, data: Word32)
      requires Idle()
      modifies this
      ensures Idle() && dut.ir == DMI
      ensures dut.updates == old(dut.updates) + [DmiUpdate(2, data, csrAddr)]
      ensures dut.dtm == DmiBackoff.DmiScan(Age(old(dut.dtm), IrCost(old(jtagIr), DMI)), OP_WRITE, data, csrAddr, dm)
    {
      var writeData := DmiWord(DTM_WRITE, data, csrAddr);
      SetIr(DMI_ACCESS);
      ShiftDr();
      PushedAll(dut.shift, ToBits(writeData, DMI_WIDTH));
      WriteBits(writeData, DMI_WIDTH, true);
      UpdateUnpacks(Age(dut.dtm, 2), OP_WRITE, data, csrAddr, dm);
      WordLayout(OP_WRITE, data, csrAddr);
      UpdateDr(false);
    }

    method WriteDtmcs(data: Word32)
      requires Idle()
      modifies this
      ensures Idle() && dut.ir == DTMCS
      ensures dut.updates == old(dut.updates) + [Scan(0x10, ToBits(data, 32))]
      ensures var cycles := IrCost(old(jtagIr), DTMCS) + DmiBackoff.DTMCS_SCAN;
              dut.dtm == UpdateDtmcs(Age(old(dut.dtm), cycles), ToBits(data, 32))
    {
      SetIr(DTM_CSR);
      ShiftDr();
      PushedAll(dut.shift, ToBits(data, 32));
      WriteBits(data, 32, true);
      UpdateDr(false);
    }

    /** Clears the sticky error, and nothing else; an access in flight stays in flight. */
    method ResetDmi()
      requires Idle()
      modifies this
      ensures Idle() && dut.ir == DTMCS
      ensures dut.updates == old(dut.updates) + [Scan(0x10, ToBits(0x10000, 32))]
      ensures dut.dtm == Age(old(dut.dtm), IrCost(old(jtagIr), DTMCS) + DmiBackoff.DTMCS_SCAN).(sticky := false)
    {
      DmiresetBit();
      WriteDtmcs(0x10000);
    }

    /** 32 bits shifted with TMS low, then a 33rd shift that the update discards. */
    method GetIdcode(opcode: nat) returns (res: nat)
      requires Idle() && opcode < U32
      modifies this
      ensures Idle()
      ensures |dut.updates| == |old(dut.updates)| + 1 && old(dut.updates) <= dut.updates
      ensures dut.ir == IDCODE ==> res == idcode
      ensures DrLength(dut.ir) == 1 ==> res == 0
      ensures var d := Age(old(dut.dtm), IrCost(old(jtagIr), opcode) + DmiBackoff.CAPTURE);
              && (dut.ir == DTMCS ==> res == Dtmcs(d))
              && (dut.ir == DMI ==> res == Captured(d) % U32)
      ensures dut.ir == if IrCost(old(jtagIr), opcode) == 0 then old(dut.ir) else opcode % 32
    {
      SetIr(opcode);
      ghost var dtmAtCapture := Age(dut.dtm, DmiBackoff.CAPTURE);
      ShiftDr();
      ghost var captured := dut.shift;
      res := ReadwriteBits(0, 32, false);
      if dut.ir == IDCODE {
        assert (captured + ToBits(0, 32))[..32] == captured;
        PowersUsed();
        ValueOfToBits(idcode, 32);
      } else if dut.ir == DTMCS {
        assert (captured + ToBits(0, 32))[..32] == captured;
        PowersUsed();
        ValueOfToBits(Dtmcs(dtmAtCapture), 32);
      } else if dut.ir == DMI {
        assert (captured + ToBits(0, 32))[..32] == captured[..32] == ToBits(Captured(dtmAtCapture), 32);
        PowersUsed();
        ValueOfLowBits(Captured(dtmAtCapture), 32);
      } else {
        ZerosFollow(captured, 32);
      }
      UpdateDr(true);
    }

    method WaitIdle(waitCycles: nat)
      requires Idle()
      modifies `tdo, `dut
      ensures dut == old(dut).(dtm := Age(old(dut.dtm), waitCycles))
    {
      for i := 0 to waitCycles
        invariant Ok(dut)
        invariant dut == old(dut).(dtm := Age(old(dut.dtm), i))
      {
        JtagTick();
      }
    }

    /** Two DMI scans: the request, and after a wait a no-op that shifts out the reply. */
    method JtagReadDmi(addr: Byte8, waitCycles: nat) returns (dataOut: nat)
      requires Idle()
      modifies this
      ensures Idle() && dut.ir == DMI
      ensures dut.updates == old(dut.updates) + [DmiUpdate(1, 0, addr), DmiUpdate(0, 0, addr)]
      ensures var gap := IrCost(old(jtagIr), DMI);
              var reply := DmiBackoff.Reply(old(dut.dtm), addr, waitCycles, gap, dm);
              && dut.dtm == DmiBackoff.Trial(old(dut.dtm), addr, waitCycles, gap, dm)
              && dataOut == Value(ToBits(Captured(reply), DMI_WIDTH))
    {
      SendRead(addr);
      WaitIdle(waitCycles);
      dataOut := TakeReply(addr);
    }

    method SendRead(addr: Byte8)
      requires Idle()
      modifies this
      ensures Idle() && dut.ir == DMI
      ensures dut.updates == old(dut.updates) + [DmiUpdate(1, 0, addr)]
      ensures dut.dtm == DmiBackoff.DmiScan(Age(old(dut.dtm), IrCost(old(jtagIr), DMI)), OP_READ, 0, addr, dm)
    {
      var writeData := DmiWord(DTM_READ, 0, addr);
      SetIr(DMI_ACCESS);
      ShiftDr();
      PushedAll(dut.shift, ToBits(writeData, DMI_WIDTH));
      WriteBits(writeData, DMI_WIDTH, true);
      UpdateUnpacks(Age(dut.dtm, 2), OP_READ, 0, addr, dm);
      WordLayout(OP_READ, 0, addr);
      UpdateDr(false);
    }

    method TakeReply(addr: Byte8) returns (dataOut: nat)
      requires Idle() && dut.ir == DMI
      modifies `tms, `tdi, `tdo, `dut
      ensures Idle() && dut.ir == DMI
      ensures dut.updates == old(dut.updates) + [DmiUpdate(0, 0, addr)]
      ensures dut.dtm == DmiBackoff.DmiScan(old(dut.dtm), OP_NOP, 0, addr, dm)
      ensures dataOut == Value(ToBits(Captured(Age(old(dut.dtm), DmiBackoff.CAPTURE)), DMI_WIDTH))
    {
      var writeData := DmiWord(DTM_NOP, 0, addr);
      ShiftDr();
      ghost var captured := dut.shift;
      PushedAll(dut.shift, ToBits(writeData, DMI_WIDTH));
      dataOut := ReadwriteBits(writeData, DMI_WIDTH, true);
      assert (captured + ToBits(writeData, DMI_WIDTH))[..DMI_WIDTH] == captured;
      UpdateUnpacks(Age(dut.dtm, 2), OP_NOP, 0, addr, dm);
      WordLayout(OP_NOP, 0, addr);
      UpdateDr(false);
    }

    ghost function Tried(d: Dtm, addr: nat, first: nat, n: nat): Dtm {
      DmiBackoff.Trial(DmiBackoff.Before(d, addr, first, n, dm), addr, DmiBackoff.Wait(n), DmiBackoff.Gap(first, n), dm)
    }

    /** The n-th trial is over. */
    ghost predicate After(d: Dtm, addr: nat, first: nat, n: nat, op: nat, word: nat)
      reads this
    {
      var reply := DmiBackoff.NthReply(d, addr, first, n, dm);
      && dut.ir == DMI
      && dut.dtm == Tried(d, addr, first, n)
      && op == (if ReportsBusy(reply) then OP_BUSY else OP_NOP)
      && (op != OP_BUSY ==> word == reply.data)
    }

    /** Where the back-off loop is before trial `n`. */
    ghost predicate Before(d: Dtm, addr: nat, first: nat, n: nat, op: nat, word: nat)
      reads this
    {
      if n == 0 then op == OP_BUSY && dut.dtm == d && IrCost(jtagIr, DMI) == first
      else After(d, addr, first, n - 1, op, word)
    }

    /** The body of the back-off loop: after the first trial the sticky error is cleared before. */
    method Attempt(addr: Byte8, trialIdx: nat, waitCycles: nat, ghost d: Dtm, ghost first: nat,
                   ghost lastOp: nat, ghost last: nat)
        returns (op: nat, readResult: nat)
      requires Idle() && waitCycles == DmiBackoff.Wait(trialIdx)
      requires Before(d, addr, first, trialIdx, lastOp, last)
      modifies this
      ensures Idle() && Before(d, addr, first, trialIdx + 1, op, readResult)
    {
      if trialIdx != 0 {
        ResetDmi();
      }
      var readData := JtagReadDmi(addr, waitCycles);
      CapturedUnpacks(DmiBackoff.NthReply(d, addr, first, trialIdx, dm));
      op := readData % 4;
      readResult := readData / 4 % U32;
    }

    /**
     For every debug module that answers within `limit` cycles, from any state of the
     transport: the loop ends within `k + 2` trials, where `8 * 2^k` covers the limit, and the
     word is the module's answer to a read of this address.
     */
    method JtagReadDmiExpBackoff(addr: Byte8, ghost k: nat, ghost limit: nat) returns (readResult: nat, trialIdx: nat)
      requires Idle() && DmiBackoff.Bounded(dm, limit) && dut.dtm.busy <= limit
      requires limit <= DmiBackoff.SLOWEST && limit <= 8 * Pow2(k)
      modifies this
      ensures Idle() && 0 < trialIdx <= k + 2 && trialIdx <= 29
      ensures DmiBackoff.Answered(old(dut.dtm), dut.dtm, addr, trialIdx, readResult, dm)
    {
      ghost var d := dut.dtm;
      ghost var first := IrCost(jtagIr, DMI);
      var op: nat := DTM_BUSY;
      var waitCycles := 8;
      trialIdx, readResult := 0, 0;
      while op == DTM_BUSY
        invariant Idle() && waitCycles == DmiBackoff.Wait(trialIdx)
        invariant Before(d, addr, first, trialIdx, op, readResult)
        invariant trialIdx <= DmiBackoff.LastTrial(k) + 1
        decreases DmiBackoff.LastTrial(k) + 1 - trialIdx
      {
        NotBeyond(d, addr, first, trialIdx, op, readResult, k, limit);
        op, readResult := Attempt(addr, trialIdx, waitCycles, d, first, op, readResult);
        waitCycles := waitCycles * 2 % U32;
        trialIdx := trialIdx + 1;
      }
      Finished(d, addr, first, trialIdx, op, readResult, limit);
    }

    /** A busy reply means that a further trial is in the plan. */
    lemma NotBeyond(d: Dtm, addr: nat, first: nat, n: nat, op: nat, word: nat, k: nat, limit: nat)
      requires DmiBackoff.Bounded(dm, limit) && d.busy <= limit
      requires limit <= DmiBackoff.SLOWEST && limit <= 8 * Pow2(k)
      requires Before(d, addr, first, n, op, word) && op == OP_BUSY
      ensures n != DmiBackoff.LastTrial(k) + 1 && DmiBackoff.LastTrial(k) <= k + 1
      ensures DmiBackoff.Wait(n + 1) == DmiBackoff.Wait(n) * 2 % U32
    {
      DmiBackoff.BackoffTerminates(d, addr, first, k, dm, limit);
    }

    lemma Finished(d: Dtm, addr: nat, first: nat, n: nat, op: nat, word: nat, limit: nat)
      requires DmiBackoff.Bounded(dm, limit) && d.busy <= limit
      requires Before(d, addr, first, n, op, word) && op != OP_BUSY
      ensures DmiBackoff.Answered(d, dut.dtm, addr, n, word, dm)
    {
      DmiBackoff.ReplyAnswers(d, addr, first, n - 1, dm, limit);
    }
  }

  lemma PushedAll(shift: seq<bool>, bits: seq<bool>)
    requires |shift| == |bits|
    ensures Pushed(shift, bits) == bits
  {
  }

  lemma ValueSnoc(bits: seq<bool>, i: nat)
    requires i < |bits|
    ensures Value(bits[..i + 1]) == Value(bits[..i]) + if bits[i] then Pow2(i) else 0
  {
    assert bits[..i + 1] == bits[..i] + [bits[i]];
    ValueOfAppend(bits[..i], [bits[i]]);
    assert Value([bits[i]]) == if bits[i] then 1 else 0;
  }

  /** Shifting zeros out of a zero register. */
  lemma ZerosFollow(shift: seq<bool>, n: nat)
    requires shift == [false]
    ensures Value((shift + ToBits(0, n))[..n]) == 0
  {
    forall i: nat | i < n ensures !Bit(0, i) {
      ShrZero(i);
    }
    AllLow((shift + ToBits(0, n))[..n]);
  }

  lemma {:induction false} ShrZero(i: nat)
    ensures Shr(0, i) == 0
  {
    if i > 0 {
      ShrZero(i - 1);
    }
  }

  lemma {:induction false} AllLow(bits: seq<bool>)
    requires forall i | 0 <= i < |bits| :: !bits[i]
    ensures Value(bits) == 0
  {
    if bits != [] {
      AllLow(bits[1..]);
    }
  }
}
