/** The code generators of the software-stacked trap frame, on instructions instead of text. */
module TrapFrame {
  import opened Rv32e

  /** Caller-saved registers of the RV32E EABI. */
  const CALLER_SAVE_EABI: seq<Reg> := [1, 5, 10, 11, 12, 13, 15]

  /** Callee-saved registers of the RV32E EABI. */
  const CALLEE_SAVE_EABI_RVE: seq<Reg> := [2, 6, 7, 8, 9, 14]

  const WIDTH: nat := 4
  const CALLER_SAVE_COUNT: nat := |CALLER_SAVE_EABI|
  const CAUSE_POS: nat := CALLER_SAVE_COUNT * 4
  const EPC_POS: nat := (CALLER_SAVE_COUNT + 1) * 4
  const FRAME_BYTES: nat := (CALLER_SAVE_COUNT + 2) * WIDTH

  function StoreTrap(frame: seq<Reg>): (code: seq<Instr>)
    ensures |code| == |frame|
  {
    seq(|frame|, i requires 0 <= i < |frame| => Sw(frame[i], i * WIDTH))
  }

  function LoadTrap(frame: seq<Reg>): (code: seq<Instr>)
    ensures |code| == |frame|
  {
    seq(|frame|, i requires 0 <= i < |frame| => Lw(frame[i], i * WIDTH))
  }

  ghost predicate Distinct(frame: seq<Reg>) {
    forall i, j | 0 <= i < j < |frame| :: frame[i] != frame[j]
  }

  /** Address of the `i`-th word above `sp`. */
  function Slot(sp: Word, i: nat): Word {
    Wrap(sp + i * WIDTH)
  }

  lemma SlotsDiffer(sp: Word, i: nat, j: nat)
    requires i < j <= 16
    ensures Slot(sp, i) != Slot(sp, j)
  {
  }

  /** At most `n` distinct registers are numbered below `n`. */
  lemma {:induction false} DistinctIsShort(frame: seq<Reg>, n: nat)
    requires Distinct(frame) && forall i | 0 <= i < |frame| :: frame[i] < n
    ensures |frame| <= n
  {
    if frame == [] {
    } else {
      assert frame[0] < n;
      if i :| 0 <= i < |frame| && frame[i] == n - 1 {
        DistinctIsShort(frame[..i] + frame[i + 1..], n - 1);
      } else {
        DistinctIsShort(frame, n - 1);
      }
    }
  }

  /** `m'` differs from `m` in that the first `k` slots hold the first `k` listed registers. */
  ghost predicate Stored(frame: seq<Reg>, k: nat, m: Machine, m': Machine)
    requires MachineOk(m) && MachineOk(m') && k <= |frame|
  {
    && m'.regs == m.regs
    && (forall i | 0 <= i < k :: Load(m'.mem, Slot(m.regs[SP], i)) == m.regs[frame[i]])
    && (forall a | forall i | 0 <= i < k :: a != Slot(m.regs[SP], i) ::
          Load(m'.mem, a) == Load(m.mem, a))
  }

  lemma StoreOne(frame: seq<Reg>, k: nat, m: Machine, m': Machine)
    requires MachineOk(m) && MachineOk(m') && k < |frame| <= 16 && Stored(frame, k, m, m')
    ensures Stored(frame, k + 1, m, Exec(Sw(frame[k], k * WIDTH), m'))
  {
    forall i | 0 <= i < k ensures Slot(m.regs[SP], i) != Slot(m.regs[SP], k) {
      SlotsDiffer(m.regs[SP], i, k);
    }
  }

  lemma {:induction false} StorePrefix(frame: seq<Reg>, k: nat, m: Machine)
    requires MachineOk(m) && k <= |frame| <= 16
    ensures Stored(frame, k, m, ExecAll(StoreTrap(frame)[..k], m))
  {
    if k > 0 {
      var code := StoreTrap(frame);
      StorePrefix(frame, k - 1, m);
      assert code[..k] == code[..k - 1] + [code[k - 1]];
      ExecAllAppend(code[..k - 1], [code[k - 1]], m);
      var m1 := ExecAll(code[..k - 1], m);
      assert ExecAll([code[k - 1]], m1) == Exec(code[k - 1], m1);
      StoreOne(frame, k - 1, m, m1);
    }
  }

  /** `m'` differs from `m` in that the first `k` listed registers hold the first `k` slots. */
  ghost predicate Loaded(frame: seq<Reg>, k: nat, m: Machine, m': Machine)
    requires MachineOk(m) && MachineOk(m') && k <= |frame|
  {
    && m'.mem == m.mem
    && (forall i | 0 <= i < k && frame[i] != 0 :: m'.regs[frame[i]] == Load(m.mem, Slot(m.regs[SP], i)))
    && (forall r: Reg | r !in frame[..k] :: m'.regs[r] == m.regs[r])
  }

  lemma LoadOne(frame: seq<Reg>, k: nat, m: Machine, m': Machine)
    requires MachineOk(m) && MachineOk(m') && k < |frame| && SP !in frame && Distinct(frame)
    requires Loaded(frame, k, m, m')
    ensures Loaded(frame, k + 1, m, Exec(Lw(frame[k], k * WIDTH), m'))
  {
  }

  lemma {:induction false} LoadPrefix(frame: seq<Reg>, k: nat, m: Machine)
    requires MachineOk(m) && k <= |frame| && SP !in frame && Distinct(frame)
    ensures Loaded(frame, k, m, ExecAll(LoadTrap(frame)[..k], m))
  {
    if k > 0 {
      var code := LoadTrap(frame);
      LoadPrefix(frame, k - 1, m);
      assert code[..k] == code[..k - 1] + [code[k - 1]];
      ExecAllAppend(code[..k - 1], [code[k - 1]], m);
      var m1 := ExecAll(code[..k - 1], m);
      assert ExecAll([code[k - 1]], m1) == Exec(code[k - 1], m1);
      LoadOne(frame, k - 1, m, m1);
    }
  }

  /**
   For any list of distinct registers without `sp`: storing and later loading the frame
   restores every listed register, whatever happened in between to other registers
   and to memory outside the frame, as long as `sp` is the same again.
   */
  lemma StoreLoadRoundTrip(frame: seq<Reg>, before: Machine, after: Machine)
    requires MachineOk(before) && MachineOk(after)
    requires Distinct(frame) && SP !in frame
    requires after.regs[SP] == before.regs[SP]
    requires var stored := ExecAll(StoreTrap(frame), before);
             forall i | 0 <= i < |frame| ::
               Load(after.mem, Slot(before.regs[SP], i)) == Load(stored.mem, Slot(before.regs[SP], i))
    ensures var stored, restored := ExecAll(StoreTrap(frame), before), ExecAll(LoadTrap(frame), after);
            && (forall r | r in frame :: restored.regs[r] == before.regs[r])
            && (forall r: Reg | r !in frame :: restored.regs[r] == after.regs[r])
            && restored.mem == after.mem
            && stored.regs == before.regs
            && (forall a | forall i | 0 <= i < |frame| :: a != Slot(before.regs[SP], i) ::
                  Load(stored.mem, a) == Load(before.mem, a))
  {
    DistinctIsShort(frame, 16);
    StorePrefix(frame, |frame|, before);
    LoadPrefix(frame, |frame|, after);
    assert StoreTrap(frame)[..|frame|] == StoreTrap(frame);
    assert LoadTrap(frame)[..|frame|] == LoadTrap(frame);
    assert frame[..|frame|] == frame;
  }

  /** Registers that neither the frame nor the change of `sp` concerns. */
  predicate Untouched(r: Reg) {
    r in {0, 3, 4, 6, 7, 8, 9, 14}
  }

  /** Every register has exactly one owner: the trampoline saves it, the handler preserves
      it, or it is `zero`, `gp` or `tp`, which no handler changes. */
  lemma RegisterPartition(r: Reg)
    ensures Distinct(CALLER_SAVE_EABI) && Distinct(CALLEE_SAVE_EABI_RVE)
    ensures var owners := multiset{r in CALLER_SAVE_EABI, r in CALLEE_SAVE_EABI_RVE, r in {0, 3, 4}};
            owners[true] == 1
    ensures r in CALLER_SAVE_EABI <==> r in {1, 5, 15} || 10 <= r <= 13    // ra, t0, t1, a0 to a3
    ensures r in CALLEE_SAVE_EABI_RVE <==> r in {2, 14} || 6 <= r <= 9     // sp, s0 to s4
    ensures Untouched(r) <==> r !in CALLER_SAVE_EABI && r != SP
  {
    var i := CALLER_SAVE_EABI;
    if
    case r == 1 => assert i[0] == r;
    case r == 5 => assert i[1] == r;
    case r == 10 => assert i[2] == r;
    case r == 11 => assert i[3] == r;
    case r == 12 => assert i[4] == r;
    case r == 13 => assert i[5] == r;
    case r == 15 => assert i[6] == r;
    case r in {2, 6, 7, 8, 9, 14} =>
      var c := CALLEE_SAVE_EABI_RVE;
      assert r in {c[0], c[1], c[2], c[3], c[4], c[5]};
    case r in {0, 3, 4} =>
  }
}
