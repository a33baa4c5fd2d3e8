/**
 The part of an RV32E hart with a CLIC that the interrupt trampolines touch:
 sixteen registers, word memory, `mepc`, `mcause`, the global interrupt enable
 and the current interrupt level. Trap entry and `mret` follow section 3.1.6.1
 of the RISC-V Privileged Specification v1.12; the `mpie`, `mpp` and `mpil`
 fields of `mcause` follow the CLIC draft, where `mcause.mpie` mirrors
 `mstatus.mpie`.
 */
module Rv32e {
  import opened Arith

  const WORD: int := 0x1_0000_0000

  type Word = x: int | 0 <= x < WORD witness 0

  type Reg = r: int | 0 <= r < 16 witness 0

  const RA: Reg := 1
  const SP: Reg := 2

  /** The fields of `mcause`; `code` is the exception code. */
  datatype Cause = Cause(intr: bool, minhv: bool, mpp: nat, mpie: bool, mpil: nat, code: nat)

  predicate CauseOk(c: Cause) {
    c.mpp < 4 && c.mpil < 0x100 && c.code < 0x1000
  }

  function Flag(b: bool, weight: nat): nat {
    if b then weight else 0
  }

  /** What `csrr rd, mcause` reads: interrupt at bit 31, minhv at 30, mpp at 29:28,
      mpie at 27, mpil at 23:16, exception code at 11:0. */
  function EncodeCause(c: Cause): (w: Word)
    requires CauseOk(c)
  {
    Flag(c.intr, 0x8000_0000) + Flag(c.minhv, 0x4000_0000) + c.mpp * 0x1000_0000
    + Flag(c.mpie, 0x0800_0000) + c.mpil * 0x1_0000 + c.code
  }

  /** What `csrw mcause, rs` stores. */
  function DecodeCause(w: Word): (c: Cause)
    ensures CauseOk(c)
  {
    Cause(w / 0x8000_0000 % 2 == 1, w / 0x4000_0000 % 2 == 1, w / 0x1000_0000 % 4,
          w / 0x0800_0000 % 2 == 1, w / 0x1_0000 % 0x100, w % 0x1000)
  }

  /** Saving `mcause` to memory and writing it back loses no field: this is why the
      trampolines need not save `mstatus.mpie` separately. */
  lemma CauseRoundTrip(c: Cause)
    requires CauseOk(c)
    ensures DecodeCause(EncodeCause(c)) == c
  {
    EncodedHigh(c);
    EncodedLow(c);
  }

  lemma EncodedHigh(c: Cause)
    requires CauseOk(c)
    ensures var w := EncodeCause(c);
            && w / 0x8000_0000 % 2 == Flag(c.intr, 1)
            && w / 0x4000_0000 % 2 == Flag(c.minhv, 1)
            && w / 0x1000_0000 % 4 == c.mpp
  {
    var w, intr, minhv := EncodeCause(c), Flag(c.intr, 1), Flag(c.minhv, 1);
    Field(w, 0x8000_0000, 2, 0, intr, w - intr * 0x8000_0000);
    Field(w, 0x4000_0000, 2, intr, minhv, w - (intr * 2 + minhv) * 0x4000_0000);
    Field(w, 0x1000_0000, 4, intr * 2 + minhv, c.mpp, w - (intr * 8 + minhv * 4 + c.mpp) * 0x1000_0000);
  }

  lemma EncodedLow(c: Cause)
    requires CauseOk(c)
    ensures var w := EncodeCause(c);
            && w / 0x0800_0000 % 2 == Flag(c.mpie, 1)
            && w / 0x1_0000 % 0x100 == c.mpil
            && w % 0x1000 == c.code
  {
    var w, mpie := EncodeCause(c), Flag(c.mpie, 1);
    var top4 := Flag(c.intr, 8) + Flag(c.minhv, 4) + c.mpp;
    Field(w, 0x0800_0000, 2, top4, mpie, c.mpil * 0x1_0000 + c.code);
    Field(w, 0x1_0000, 0x100, top4 * 0x10 + mpie * 8, c.mpil, c.code);
    DivMod(w, 0x1000, top4 * 0x1_0000 + mpie * 0x8000 + c.mpil * 0x10, c.code);
  }

  /** The field `f` of `n` values that starts at weight `k`. */
  lemma Field(w: nat, k: nat, n: nat, above: nat, f: nat, below: nat)
    requires k > 0 && below < k && f < n && w == (above * n + f) * k + below
    ensures w / k % n == f
  {
    DivMod(w, k, above * n + f, below);
    DivMod(above * n + f, n, above, f);
  }

  datatype Machine = Machine(
    pc: Word,
    regs: seq<Word>,
    mem: map<int, Word>,
    mepc: Word,
    mcause: Cause,
    mie: bool,
    level: nat)

  predicate MachineOk(m: Machine) {
    && |m.regs| == 16 && m.regs[0] == 0
    && CauseOk(m.mcause)
    && m.level < 0x100
    && m.pc % 2 == 0
  }

  function Wrap(x: int): Word {
    x % WORD
  }

  /** The word at `a`; memory that was never written reads as zero. */
  function Load(mem: map<int, Word>, a: int): Word {
    if a in mem then mem[a] else 0
  }

  /** `x0` is hard-wired to zero. */
  function SetReg(regs: seq<Word>, rd: Reg, v: Word): (r: seq<Word>)
    requires |regs| == 16
    ensures |r| == 16
  {
    if rd == 0 then regs else regs[rd := v]
  }

  datatype Instr =
    | Addi(rd: Reg, rs: Reg, imm: int)
    | Sw(rs: Reg, off: nat)           // sw rs, off(sp)
    | Lw(rd: Reg, off: nat)           // lw rd, off(sp)
    | CsrrCause(rd: Reg)
    | CsrrEpc(rd: Reg)
    | CsrwCause(rs: Reg)
    | CsrwEpc(rs: Reg)
    | SetMie                          // csrsi mstatus, 8
    | ClearMie                        // csrci mstatus, 8
    | LaHi(rd: Reg, target: Word)     // first half of la
    | LaLo(rd: Reg, target: Word)     // second half of la
    | Jump(target: Word)
    | Jalr(rd: Reg, rs: Reg)          // jalr rd, rs, 0
    | Mret

  function Exec(i: Instr, m: Machine): (m': Machine)
    requires MachineOk(m)
    ensures MachineOk(m')
  {
    var next := m.(pc := Wrap(m.pc + 4));
    match i
    case Addi(rd, rs, imm) => next.(regs := SetReg(m.regs, rd, Wrap(m.regs[rs] + imm)))
    case Sw(rs, off) => next.(mem := m.mem[Wrap(m.regs[SP] + off) := m.regs[rs]])
    case Lw(rd, off) => next.(regs := SetReg(m.regs, rd, Load(m.mem, Wrap(m.regs[SP] + off))))
    case CsrrCause(rd) => next.(regs := SetReg(m.regs, rd, EncodeCause(m.mcause)))
    case CsrrEpc(rd) => next.(regs := SetReg(m.regs, rd, m.mepc))
    case CsrwCause(rs) => next.(mcause := DecodeCause(m.regs[rs]))
    case CsrwEpc(rs) => next.(mepc := m.regs[rs] - m.regs[rs] % 2)
    case SetMie => next.(mie := true)
    case ClearMie => next.(mie := false)
    case LaHi(rd, t) => next.(regs := SetReg(m.regs, rd, t - t % 0x1000))
    case LaLo(rd, t) => next.(regs := SetReg(m.regs, rd, Wrap(m.regs[rd] + t % 0x1000)))
    case Jump(t) => m.(pc := t - t % 2)
    case Jalr(rd, rs) =>
      m.(pc := m.regs[rs] - m.regs[rs] % 2, regs := SetReg(m.regs, rd, Wrap(m.pc + 4)))
    case Mret =>
      m.(pc := m.mepc - m.mepc % 2, mie := m.mcause.mpie, level := m.mcause.mpil,
         mcause := m.mcause.(mpie := true))
  }

  /** Hardware trap entry for a vectored interrupt `irq` of level `level`. */
  function TakeTrap(m: Machine, irq: nat, level: nat, vector: Word): Machine {
    m.(pc := vector, mepc := m.pc, mcause := Cause(true, false, 3, m.mie, m.level, irq),
       mie := false, level := level)
  }

  /** Straight-line execution. */
  function ExecAll(code: seq<Instr>, m: Machine): (m': Machine)
    requires MachineOk(m)
    ensures MachineOk(m')
  {
    if code == [] then m
    else ExecAll(code[1..], Exec(code[0], m))
  }

  lemma {:induction false} ExecAllAppend(a: seq<Instr>, b: seq<Instr>, m: Machine)
    requires MachineOk(m)
    ensures ExecAll(a + b, m) == ExecAll(b, ExecAll(a, m))
  {
    if a == [] {
      assert a + b == b;
    } else {
      assert (a + b)[1..] == a[1..] + b;
      assert (a + b)[0] == a[0];
      ExecAllAppend(a[1..], b, Exec(a[0], m));
    }
  }
}
