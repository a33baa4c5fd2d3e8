/**
 The debug transport module's side of a DMI access: RISC-V External Debug Support 0.13.2,
 sections 6.1.4 (dtmcs) and 6.1.5 (dmi), with a debug module that may answer anything, at
 any speed.
 */
module Dtm {
  import opened Arith
  import opened Bits

  type Word32 = w: nat | w < 0x1_0000_0000
  type DmiAddress = a: nat | a < 128

  datatype Access = Read(addr: DmiAddress) | Write(addr: DmiAddress, data: Word32)

  datatype Answer = Answer(latency: nat, data: Word32)

  /**
   A debug module, by its answer to the last access of each history: the word, and the number
   of TCK cycles after Update-DR that the access takes.
   */
  type DebugModule = seq<Access> -> Answer

  /** `busy` counts down the cycles of the access in progress. */
  datatype Dtm = Dtm(sticky: bool, busy: nat, addr: DmiAddress, data: Word32, history: seq<Access>)

  const OP_NOP: nat := 0
  const OP_READ: nat := 1
  const OP_WRITE: nat := 2
  const OP_BUSY: nat := 3

  function Age(d: Dtm, cycles: nat): Dtm {
    d.(busy := if d.busy <= cycles then 0 else d.busy - cycles)
  }

  /** The 41-bit word: op in bits 1..0, data in bits 33..2, address from bit 34 on. */
  function DmiWord(op: nat, data: nat, addr: nat): nat {
    op + 4 * data + 0x4_0000_0000 * addr
  }

  // ---------- Capture-DR and Update-DR of `dmi` ----------

  predicate ReportsBusy(d: Dtm) {
    d.sticky || d.busy > 0
  }

  function Capture(d: Dtm): Dtm {
    d.(sticky := ReportsBusy(d))
  }

  /** The captured word: no result is shown while the status is an error. */
  function Captured(d: Dtm): nat {
    if ReportsBusy(d) then DmiWord(OP_BUSY, 0, 0) else DmiWord(OP_NOP, d.data, d.addr)
  }

  function Start(d: Dtm, a: Access, dm: DebugModule): Dtm {
    var h := d.history + [a];
    Dtm(d.sticky, dm(h).latency, a.addr, dm(h).data, h)
  }

  /** A sticky status makes the DTM ignore the operation; a busy one becomes sticky. */
  function Update(d: Dtm, op: nat, data: Word32, addr: DmiAddress, dm: DebugModule): Dtm {
    if ReportsBusy(d) then d.(sticky := true)
    else if op == OP_READ then Start(d, Read(addr), dm)
    else if op == OP_WRITE then Start(d, Write(addr, data), dm)
    else d
  }

  // ---------- `dtmcs` ----------

  const DMIRESET: nat := 16
  const DMIHARDRESET: nat := 17

  /** version 1, 7 address bits, dmistat, idle hint 1 */
  function Dtmcs(d: Dtm): nat {
    0x1071 + if d.sticky then 0xC00 else 0
  }

  function UpdateDtmcs(d: Dtm, bits: seq<bool>): Dtm
    requires |bits| == 32
  {
    if bits[DMIHARDRESET] then d.(sticky := false, busy := 0)
    else if bits[DMIRESET] then d.(sticky := false)
    else d
  }

  // ---------- Bit layout ----------

  function UpdateBits(d: Dtm, bits: seq<bool>, dm: DebugModule): Dtm
    requires |bits| == 41
  {
    ToBitsOfValue(bits[2..34]);
    ToBitsOfValue(bits[34..]);
    assert Pow2(7) == 128 && Pow2(32) == 0x1_0000_0000 by { PowersUsed(); }
    Update(d, Value(bits[..2]), Value(bits[2..34]), Value(bits[34..]), dm)
  }

  lemma PowersUsed()
    ensures Pow2(2) == 4 && Pow2(7) == 128 && Pow2(32) == 0x1_0000_0000 && Pow2(34) == 0x4_0000_0000
  {
    PowPlus(8, 8);
    PowPlus(16, 16);
    PowPlus(32, 2);
    assert Pow2(4) == 16;
    assert Pow2(8) == 256;
  }

  lemma {:induction false} PowPlus(a: nat, b: nat)
    ensures Pow2(a + b) == Pow2(a) * Pow2(b)
  {
    if a > 0 {
      PowPlus(a - 1, b);
      assert 2 * (Pow2(a - 1) * Pow2(b)) == Pow2(a) * Pow2(b);
    }
  }

  lemma WordLayout(op: nat, data: Word32, addr: nat)
    requires op < 4
    ensures ToBits(DmiWord(op, data, addr), 41) == ToBits(op, 2) + ToBits(data, 32) + ToBits(addr, 7)
  {
    PowersUsed();
    ToBitsOfPair(op, 2, data + Pow2(32) * addr, 39);
    ToBitsOfPair(data, 32, addr, 7);
    assert DmiWord(op, data, addr) == op + Pow2(2) * (data + Pow2(32) * addr);
    assert ToBits(op, 2) + (ToBits(data, 32) + ToBits(addr, 7)) == ToBits(op, 2) + ToBits(data, 32) + ToBits(addr, 7);
  }

  /** What the driver packs is what the DTM unpacks; only seven address bits are shifted. */
  lemma UpdateUnpacks(d: Dtm, op: nat, data: Word32, addr: nat, dm: DebugModule)
    requires op < 4
    ensures UpdateBits(d, ToBits(DmiWord(op, data, addr), 41), dm) == Update(d, op, data, addr % 128, dm)
  {
    var bits := ToBits(DmiWord(op, data, addr), 41);
    PowersUsed();
    WordLayout(op, data, addr);
    assert bits[..2] == ToBits(op, 2);
    assert bits[2..34] == ToBits(data, 32);
    assert bits[34..] == ToBits(addr, 7);
    ValueOfToBits(op, 2);
    ValueOfToBits(data, 32);
    ValueOfLowBits(addr, 7);
  }

  /** The word a reader assembles from the captured bits. */
  lemma CapturedUnpacks(d: Dtm)
    ensures var w := Value(ToBits(Captured(d), 41));
            && w % 4 == (if ReportsBusy(d) then 3 else 0)
            && w / 4 % 0x1_0000_0000 == (if ReportsBusy(d) then 0 else d.data)
  {
    var w := Captured(d);
    var op := if ReportsBusy(d) then OP_BUSY else OP_NOP;
    var data := if ReportsBusy(d) then 0 else d.data;
    var addr := if ReportsBusy(d) then 0 else d.addr;
    PowersUsed();
    PowPlus(34, 7);
    ValueOfToBits(w, 41);
    DivMod(w, 4, data + 0x1_0000_0000 * addr, op);
    DivMod(w / 4, 0x1_0000_0000, addr, data);
  }
}
