/**
 Runs of the preemptible, software-stacked interrupt trampolines: the entry routine of an
 interrupt, the shared `_continue_nested_trap` routine and the handler between them, with
 further interrupts between any two instructions while MIE is set.
 */
module NestedTraps {
  import opened Rv32e
  import opened TrapFrame

  // ---------- Emitted code ----------

  /** The routine emitted for one interrupt; `la` is its two-instruction expansion. */
  function NestedTrapEntry(handler: Word, cont: Word): (code: seq<Instr>)
    ensures |code| == 16
  {
    [Addi(SP, SP, 0 - FRAME_BYTES)]
    + StoreTrap(CALLER_SAVE_EABI)
    + [CsrrCause(5), CsrrEpc(15), Sw(5, CAUSE_POS), Sw(15, EPC_POS), SetMie,
       LaHi(10, handler), LaLo(10, handler), Jump(cont)]
  }

  /** The shared routine that calls the handler and unwinds the frame. */
  function ContinueNestedTrap(): (code: seq<Instr>)
    ensures |code| == 15
  {
    [Jalr(RA, 10), ClearMie, Lw(15, EPC_POS), Lw(5, CAUSE_POS), CsrwEpc(15), CsrwCause(5)]
    + LoadTrap(CALLER_SAVE_EABI)
    + [Addi(SP, SP, FRAME_BYTES), Mret]
  }

  const CALL: nat := 16        // position of jalr
  const RESUME: nat := 17      // where the handler returns to
  const LAST: nat := 30        // position of mret

  // ---------- What code can observe ----------

  /** Everything a program can rely on between two of its instructions: its pc, registers,
      interrupt state and the stack from `sp` up. Memory below `sp` is not part of it. */
  datatype View = View(pc: Word, regs: seq<Word>, mie: bool, level: nat, stack: map<int, Word>)

  function Sp(m: Machine): Word
    requires MachineOk(m)
  {
    m.regs[SP]
  }

  function ViewOf(top: int, m: Machine): View
    requires MachineOk(m)
  {
    View(m.pc, m.regs, m.mie, m.level, map a: int | Sp(m) <= a < top :: Load(m.mem, a))
  }

  ghost predicate ViewOk(top: int, v: View) {
    && |v.regs| == 16
    && forall a: int :: a in v.stack <==> v.regs[SP] <= a < top
  }

  lemma ViewLoad(top: int, m: Machine, m': Machine, a: int)
    requires MachineOk(m) && MachineOk(m') && ViewOf(top, m) == ViewOf(top, m')
    requires Sp(m) <= a < top
    ensures Load(m.mem, a) == Load(m'.mem, a)
  {
    assert ViewOf(top, m).stack[a] == ViewOf(top, m').stack[a];
  }

  predicate StepAt(step: (View, View) -> bool, trace: seq<View>, i: nat)
    requires i + 1 < |trace|
  {
    step(trace[i], trace[i + 1])
  }

  /** An uninterrupted execution of the code with transition relation `step`. */
  ghost predicate Uninterrupted(step: (View, View) -> bool, top: int, trace: seq<View>) {
    && |trace| >= 1
    && (forall i | 0 <= i < |trace| :: ViewOk(top, trace[i]))
    && (forall i: nat {:trigger StepAt(step, trace, i)} :: i < |trace| - 1 ==> StepAt(step, trace, i))
  }

  ghost predicate NotReturnedBefore(trace: seq<View>, k: int)
    requires |trace| >= 1 && |trace[0].regs| == 16
  {
    forall i | 0 < i < k && i < |trace| :: trace[i].pc != trace[0].regs[RA]
  }

  /** The calling convention, as a statement about uninterrupted executions only: the stack
      above the entry `sp` is left alone, `sp` stays aligned and below it, and on return the
      callee-saved registers, `gp` and `tp` hold their entry values. */
  ghost predicate FollowsConvention(top: int, first: View, last: View, moved: bool)
    requires ViewOk(top, first) && ViewOk(top, last)
  {
    && last.regs[SP] <= first.regs[SP]
    && last.regs[SP] % 4 == 0
    && last.level == first.level
    && (forall a: int | first.regs[SP] <= a < top :: last.stack[a] == first.stack[a])
    && (moved && last.pc == first.regs[RA] ==>
          forall r: Reg | r in CALLEE_SAVE_EABI_RVE || r == 3 || r == 4 :: last.regs[r] == first.regs[r])
  }

  /** Every uninterrupted execution of the handler, from its entry with `ra` at `ret` and `room`
      bytes of stack, up to its return. In between it may use its stack as it likes. */
  ghost predicate AbiHandler(step: (View, View) -> bool, entry: Word, ret: int, room: nat, top: int) {
    forall trace: seq<View> ::
      && Uninterrupted(step, top, trace) && NotReturnedBefore(trace, |trace| - 1)
      && trace[0].pc == entry && trace[0].regs[RA] == ret
      && trace[0].regs[SP] % 4 == 0 && room <= trace[0].regs[SP] <= top
      ==> FollowsConvention(top, trace[0], trace[|trace| - 1], |trace| > 1)
  }

  /** The interrupted program, started at `start`, keeps `sp` aligned and inside the stack. */
  ghost predicate KeepsStack(step: (View, View) -> bool, start: Word, top: int) {
    forall trace: seq<View> {:trigger Uninterrupted(step, top, trace)} ::
      && Uninterrupted(step, top, trace)
      && trace[0].pc == start && trace[0].regs[SP] % 4 == 0 && trace[0].regs[SP] <= top
      ==> trace[|trace| - 1].regs[SP] % 4 == 0 && trace[|trace| - 1].regs[SP] <= top
  }

  /** A linked program: stack top, code memory, vector table, shared routine, handlers with
      the stack each may use, and main program. */
  datatype Image = Image(
    top: int,
    fetch: int -> Instr,
    vector: nat -> Word,
    cont: Word,
    handler: nat -> Word,
    body: nat -> ((View, View) -> bool),
    room: nat -> nat,
    start: Word,
    main: (View, View) -> bool)

  function CodeOf(img: Image, irq: nat): (code: seq<Instr>)
    ensures |code| == LAST + 1
  {
    NestedTrapEntry(img.handler(irq), img.cont) + ContinueNestedTrap()
  }

  function PcAt(img: Image, irq: nat, pos: nat): int {
    if pos < CALL then img.vector(irq) + 4 * pos else img.cont + 4 * (pos - CALL)
  }

  /** Addresses are even and the code fits below the end of memory. */
  ghost predicate LayoutOk(img: Image) {
    && 0 <= img.top <= WORD
    && img.cont % 2 == 0 && img.cont + 64 <= WORD
    && (forall irq: nat {:trigger img.vector(irq)} :: img.vector(irq) % 2 == 0 && img.vector(irq) + 64 <= WORD)
    && (forall irq: nat {:trigger img.handler(irq)} :: img.handler(irq) % 2 == 0)
  }

  /** Code memory holds the emitted routines. */
  ghost predicate CodeLoaded(img: Image) {
    forall irq: nat, p: nat {:trigger CodeOf(img, irq)[p]} ::
      p <= LAST ==> img.fetch(PcAt(img, irq, p)) == CodeOf(img, irq)[p]
  }

  ghost predicate HandlersOk(img: Image) {
    forall irq: nat {:trigger img.body(irq)} ::
      AbiHandler(img.body(irq), img.handler(irq), PcAt(img, irq, RESUME), img.room(irq), img.top)
  }

  ghost predicate ImageOk(img: Image) {
    LayoutOk(img) && CodeLoaded(img) && HandlersOk(img) && KeepsStack(img.main, img.start, img.top)
  }

  // ---------- The system ----------

  /** Where an activation is: at a trampoline instruction, or inside the handler with the
      views the handler has had after each of its own steps. */
  datatype Control = At(pos: nat) | Body(trace: seq<View>)

  /** One taken interrupt: its number, its level and the machine it interrupted. */
  datatype Context = Context(irq: nat, level: nat, snap: Machine)

  datatype Activation =
    | MainProgram(trace: seq<View>)
    | Trap(ctx: Context, ctl: Control)

  /** The live activations are stacked, the running one last. */
  datatype System = System(m: Machine, acts: seq<Activation>)

  datatype Event = Own | Take(irq: nat, level: nat) | Trampoline

  predicate Running(s: System) {
    && |s.acts| >= 1
    && MachineOk(s.m)
    && forall i | 0 <= i < |s.acts| :: s.acts[i].Trap? <==> i > 0
  }

  function Top(s: System): Activation
    requires Running(s)
  {
    s.acts[|s.acts| - 1]
  }

  function Below(s: System): seq<Activation>
    requires Running(s)
  {
    s.acts[..|s.acts| - 1]
  }

  /** One step of the running program: main or a handler. */
  predicate OwnStep(img: Image, s: System, s': System)
    requires Running(s)
  {
    && MachineOk(s'.m)
    && var v, v' := ViewOf(img.top, s.m), ViewOf(img.top, s'.m);
    match Top(s)
    case MainProgram(trace) =>
      img.main(v, v') && s'.acts == Below(s) + [MainProgram(trace + [v'])]
    case Trap(ctx, Body(trace)) =>
      && |trace| >= 1 && |trace[0].regs| == 16
      && img.body(ctx.irq)(v, v')
      && s'.acts == Below(s) + [Trap(ctx, if v'.pc == trace[0].regs[RA] then At(RESUME)
                                          else Body(trace + [v']))]
    case _ => false
  }

  /** The hardware takes an interrupt; there must be room on the stack for one more frame and
      for the handler. */
  predicate TakeStep(img: Image, s: System, irq: nat, level: nat, s': System)
    requires Running(s)
  {
    && irq < 0x1000 && level < 0x100
    && s.m.mie && Sp(s.m) >= FRAME_BYTES + img.room(irq)
    && s'.m == TakeTrap(s.m, irq, level, img.vector(irq))
    && s'.acts == s.acts + [Trap(Context(irq, level, s.m), At(0))]
  }

  /** The position after the instruction at `p`; the call hands over to the handler. */
  function NextControl(img: Image, p: nat, m': Machine): Control
    requires MachineOk(m')
  {
    if p == CALL then Body([ViewOf(img.top, m')]) else At(p + 1)
  }

  /** The running trampoline executes its next instruction. */
  predicate TrampolineStep(img: Image, s: System, s': System)
    requires Running(s)
  {
    match Top(s)
    case Trap(ctx, At(p)) =>
      && p <= LAST
      && s'.m == Exec(img.fetch(s.m.pc), s.m)
      && s'.acts ==
         (if p == LAST then Below(s) else Below(s) + [Trap(ctx, NextControl(img, p, s'.m))])
    case _ => false
  }

  predicate Step(img: Image, s: System, e: Event, s': System)
    requires Running(s)
  {
    match e
    case Own => OwnStep(img, s, s')
    case Take(irq, level) => TakeStep(img, s, irq, level, s')
    case Trampoline => TrampolineStep(img, s, s')
  }

  predicate Init(img: Image, s: System) {
    && MachineOk(s.m) && s.m.pc == img.start && Sp(s.m) <= img.top && Sp(s.m) % 4 == 0
    && s.acts == [MainProgram([ViewOf(img.top, s.m)])]
  }

  // ---------- The invariant ----------

  /** Lowest address of the activation's 36-byte frame. */
  function Frame(a: Context): int
    requires MachineOk(a.snap)
  {
    Sp(a.snap) - FRAME_BYTES
  }

  function CauseOf(a: Context): Cause
  {
    Cause(true, false, 3, a.snap.mie, a.snap.level, a.irq)
  }

  /** What the hardware guaranteed when the trap was taken. */
  predicate TrapOk(img: Image, a: Context) {
    && MachineOk(a.snap) && a.snap.mie
    && a.irq < 0x1000 && a.level < 0x100
    && FRAME_BYTES + img.room(a.irq) <= Sp(a.snap) <= img.top && Sp(a.snap) % 4 == 0
  }

  /** The first `n` register slots of the frame hold the interrupted registers. */
  ghost predicate RegsSaved(a: Context, mem: map<int, Word>, n: int)
    requires MachineOk(a.snap)
  {
    forall i | 0 <= i < n && i < CALLER_SAVE_COUNT ::
      Load(mem, Frame(a) + 4 * i) == a.snap.regs[CALLER_SAVE_EABI[i]]
  }

  /** The whole frame: registers, cause and return address of this very activation. */
  ghost predicate FrameHolds(a: Context, mem: map<int, Word>)
    requires MachineOk(a.snap) && CauseOk(CauseOf(a))
  {
    && RegsSaved(a, mem, CALLER_SAVE_COUNT)
    && Load(mem, Frame(a) + CAUSE_POS) == EncodeCause(CauseOf(a))
    && Load(mem, Frame(a) + EPC_POS) == a.snap.pc
  }

  /** Stack words from the interrupted `sp` up are as the interrupted code left them. */
  ghost predicate StackKept(img: Image, a: Context, mem: map<int, Word>)
    requires MachineOk(a.snap)
  {
    forall x: int | Sp(a.snap) <= x < img.top :: Load(mem, x) == Load(a.snap.mem, x)
  }

  /** Registers the trampoline never touches. */
  ghost predicate OthersKept(a: Context, regs: seq<Word>)
    requires MachineOk(a.snap) && |regs| == 16
  {
    forall r: Reg | Untouched(r) :: regs[r] == a.snap.regs[r]
  }

  ghost predicate CallersKept(a: Context, regs: seq<Word>, n: int)
    requires MachineOk(a.snap) && |regs| == 16
  {
    forall i | 0 <= i < n && i < CALLER_SAVE_COUNT ::
      regs[CALLER_SAVE_EABI[i]] == a.snap.regs[CALLER_SAVE_EABI[i]]
  }

  /** The state of the trampoline when its next instruction is the one at position `p`. */
  ghost predicate AtInv(img: Image, a: Context, p: nat, m: Machine)
    requires TrapOk(img, a) && MachineOk(m)
  {
    && p <= LAST
    && m.pc == PcAt(img, a.irq, p)
    && m.level == a.level
    && Sp(m) == (if p == 0 || p == LAST then Sp(a.snap) else Frame(a))
    && OthersKept(a, m.regs)
    && StackKept(img, a, m.mem)
    && RegsSaved(a, m.mem, p - 1)
    && (p <= 8 ==> CallersKept(a, m.regs, CALLER_SAVE_COUNT))
    && (p <= 12 ==> !m.mie && m.mepc == a.snap.pc && m.mcause == CauseOf(a))
    && (9 <= p <= 10 ==> m.regs[5] == EncodeCause(CauseOf(a)))
    && (10 <= p <= 11 ==> m.regs[15] == a.snap.pc)
    && (11 <= p ==> Load(m.mem, Frame(a) + CAUSE_POS) == EncodeCause(CauseOf(a)))
    && (12 <= p ==> Load(m.mem, Frame(a) + EPC_POS) == a.snap.pc)
    && (p == 14 ==> m.regs[10] == img.handler(a.irq) - img.handler(a.irq) % 0x1000)
    && (15 <= p <= 16 ==> m.regs[10] == img.handler(a.irq))
    && (18 <= p ==> !m.mie)
    && (19 <= p <= 20 ==> m.regs[15] == a.snap.pc)
    && (20 <= p <= 21 ==> m.regs[5] == EncodeCause(CauseOf(a)))
    && (21 <= p ==> m.mepc == a.snap.pc)
    && (22 <= p ==> m.mcause == CauseOf(a))
    && (22 <= p ==> CallersKept(a, m.regs, p - 22))
  }

  /** The state while the handler runs: its views so far are an uninterrupted execution of it. */
  ghost predicate BodyInv(img: Image, a: Context, trace: seq<View>, m: Machine)
    requires TrapOk(img, a) && MachineOk(m)
  {
    && Uninterrupted(img.body(a.irq), img.top, trace)
    && trace[|trace| - 1] == ViewOf(img.top, m)
    && NotReturnedBefore(trace, |trace|)
    && trace[0].pc == img.handler(a.irq)
    && trace[0].regs[RA] == PcAt(img, a.irq, RESUME)
    && trace[0].regs[SP] == Frame(a)
    && trace[0].level == a.level
    && OthersKept(a, trace[0].regs)
    && (forall x: int | Sp(a.snap) <= x < img.top :: trace[0].stack[x] == Load(a.snap.mem, x))
    && (forall i | 0 <= i < CALLER_SAVE_COUNT ::
          trace[0].stack[Frame(a) + 4 * i] == a.snap.regs[CALLER_SAVE_EABI[i]])
    && trace[0].stack[Frame(a) + CAUSE_POS] == EncodeCause(CauseOf(a))
    && trace[0].stack[Frame(a) + EPC_POS] == a.snap.pc
  }

  ghost predicate MainInv(img: Image, trace: seq<View>, m: Machine)
    requires MachineOk(m)
  {
    && Uninterrupted(img.main, img.top, trace)
    && trace[|trace| - 1] == ViewOf(img.top, m)
    && trace[0].pc == img.start && trace[0].regs[SP] % 4 == 0 && trace[0].regs[SP] <= img.top
  }

  /** An activation is in order, `m` being the machine when it last had control. */
  ghost predicate ActInv(img: Image, a: Activation, m: Machine) {
    && MachineOk(m)
    && match a
    case MainProgram(trace) => MainInv(img, trace, m)
    case Trap(ctx, At(p)) => TrapOk(img, ctx) && AtInv(img, ctx, p, m)
    case Trap(ctx, Body(trace)) => TrapOk(img, ctx) && BodyInv(img, ctx, trace, m)
  }

  /** The machine when activation `i` last had control. */
  function LastSeen(s: System, i: nat): Machine
    requires i < |s.acts| && forall j | 0 < j < |s.acts| :: s.acts[j].Trap?
  {
    if i + 1 < |s.acts| then s.acts[i + 1].ctx.snap else s.m
  }

  ghost function ActInvOf(img: Image): (Activation, Machine) -> bool {
    (a: Activation, m: Machine) => ActInv(img, a, m)
  }

  ghost predicate All(inv: (Activation, Machine) -> bool, s: System)
    requires Running(s)
  {
    forall i: nat {:trigger LastSeen(s, i)} :: i < |s.acts| ==> inv(s.acts[i], LastSeen(s, i))
  }

  ghost predicate Inv(img: Image, s: System) {
    Running(s) && All(ActInvOf(img), s)
  }

  /** Only the running activation changes. */
  lemma ReplaceTop(inv: (Activation, Machine) -> bool, s: System, s': System)
    requires Running(s) && Running(s') && All(inv, s)
    requires |s'.acts| == |s.acts| && Below(s') == Below(s)
    requires Top(s).Trap? ==> Top(s').Trap? && Top(s').ctx.snap == Top(s).ctx.snap
    requires inv(Top(s'), s'.m)
    ensures All(inv, s')
  {
    forall i | 0 <= i < |s'.acts| ensures inv(s'.acts[i], LastSeen(s', i)) {
      assert inv(s.acts[i], LastSeen(s, i));
      if i < |s.acts| - 1 {
        assert s'.acts[i] == Below(s')[i] == Below(s)[i] == s.acts[i];
        assert i + 1 < |s.acts| - 1 ==> s'.acts[i + 1] == Below(s')[i + 1] == Below(s)[i + 1] == s.acts[i + 1];
      }
    }
  }

  /** A new activation is stacked on the running one. */
  lemma PushTop(inv: (Activation, Machine) -> bool, s: System, s': System)
    requires Running(s) && Running(s') && All(inv, s)
    requires |s'.acts| == |s.acts| + 1 && Below(s') == s.acts
    requires Top(s').Trap? && Top(s').ctx.snap == s.m
    requires inv(Top(s'), s'.m)
    ensures All(inv, s')
  {
    forall i | 0 <= i < |s'.acts| ensures inv(s'.acts[i], LastSeen(s', i)) {
      if i < |s.acts| {
        assert inv(s.acts[i], LastSeen(s, i));
        assert s'.acts[i] == Below(s')[i] == s.acts[i];
        assert i + 1 < |s.acts| ==> s'.acts[i + 1] == Below(s')[i + 1] == s.acts[i + 1];
      }
    }
  }

  /** The running activation ends and the one below it resumes. */
  lemma PopTop(inv: (Activation, Machine) -> bool, s: System, s': System)
    requires Running(s) && Running(s') && All(inv, s)
    requires |s.acts| > 1 && s'.acts == Below(s)
    requires inv(Top(s'), s'.m)
    ensures All(inv, s')
  {
    forall i | 0 <= i < |s'.acts| ensures inv(s'.acts[i], LastSeen(s', i)) {
      assert inv(s.acts[i], LastSeen(s, i));
    }
  }

  lemma ActInvAt(img: Image, s: System, i: nat)
    requires Inv(img, s) && i < |s.acts|
    ensures ActInv(img, s.acts[i], LastSeen(s, i))
  {
  }

  // ---------- Trampoline instructions keep the invariant ----------

  lemma CodeAt(img: Image, irq: nat, p: nat)
    requires CodeLoaded(img) && p <= LAST
    ensures var i, h := img.fetch(PcAt(img, irq, p)), img.handler(irq);
            && (p == 0 ==> i == Addi(SP, SP, -36))
            && (1 <= p <= 7 ==> i == Sw(CALLER_SAVE_EABI[p - 1], 4 * (p - 1)))
            && (p == 8 ==> i == CsrrCause(5))
            && (p == 9 ==> i == CsrrEpc(15))
            && (p == 10 ==> i == Sw(5, 28))
            && (p == 11 ==> i == Sw(15, 32))
            && (p == 12 ==> i == SetMie)
            && (p == 13 ==> i == LaHi(10, h))
            && (p == 14 ==> i == LaLo(10, h))
            && (p == 15 ==> i == Jump(img.cont))
            && (p == 16 ==> i == Jalr(RA, 10))
            && (p == 17 ==> i == ClearMie)
            && (p == 18 ==> i == Lw(15, 32))
            && (p == 19 ==> i == Lw(5, 28))
            && (p == 20 ==> i == CsrwEpc(15))
            && (p == 21 ==> i == CsrwCause(5))
            && (22 <= p <= 28 ==> i == Lw(CALLER_SAVE_EABI[p - 22], 4 * (p - 22)))
            && (p == 29 ==> i == Addi(SP, SP, 36))
            && (p == 30 ==> i == Mret)
  {
    var i := CodeOf(img, irq)[p];
    assert i == img.fetch(PcAt(img, irq, p));
  }

  lemma MakeFrame(img: Image, a: Context, m: Machine)
    requires LayoutOk(img) && TrapOk(img, a) && MachineOk(m) && AtInv(img, a, 0, m)
    ensures var m' := Exec(Addi(SP, SP, -36), m); AtInv(img, a, 1, m')
  {
  }

  lemma FrameStores(img: Image, a: Context, p: nat, m: Machine)
    requires LayoutOk(img) && TrapOk(img, a) && MachineOk(m)
    requires 1 <= p <= 7 && AtInv(img, a, p, m)
    ensures var m' := Exec(Sw(CALLER_SAVE_EABI[p - 1], 4 * (p - 1)), m);
            AtInv(img, a, p + 1, m')
  {
    var r := CALLER_SAVE_EABI[p - 1];
    var m' := Exec(Sw(r, 4 * (p - 1)), m);
    assert m.regs[r] == a.snap.regs[r];
    assert m'.mem == m.mem[Frame(a) + 4 * (p - 1) := a.snap.regs[r]];
  }

  lemma ReadCsrs(img: Image, a: Context, p: nat, m: Machine, i: Instr)
    requires LayoutOk(img) && TrapOk(img, a) && MachineOk(m)
    requires 8 <= p <= 9 && AtInv(img, a, p, m)
    requires i == if p == 8 then CsrrCause(5) else CsrrEpc(15)
    ensures AtInv(img, a, p + 1, Exec(i, m))
  {
  }

  lemma SaveCsrs(img: Image, a: Context, p: nat, m: Machine, i: Instr)
    requires LayoutOk(img) && TrapOk(img, a) && MachineOk(m)
    requires 10 <= p <= 12 && AtInv(img, a, p, m)
    requires i == if p == 10 then Sw(5, 28) else if p == 11 then Sw(15, 32) else SetMie
    ensures AtInv(img, a, p + 1, Exec(i, m))
  {
    var m' := Exec(i, m);
    if p <= 11 {
      assert m'.mem == m.mem[Frame(a) + (if p == 10 then 28 else 32) := m.regs[if p == 10 then 5 else 15]];
    }
  }

  lemma PrepareCall(img: Image, a: Context, p: nat, m: Machine, i: Instr)
    requires LayoutOk(img) && TrapOk(img, a) && MachineOk(m)
    requires 13 <= p <= 15 && AtInv(img, a, p, m)
    requires i == if p == 13 then LaHi(10, img.handler(a.irq))
                  else if p == 14 then LaLo(10, img.handler(a.irq)) else Jump(img.cont)
    ensures var m' := Exec(i, m); AtInv(img, a, p + 1, m')
  {
    assert CALLER_SAVE_EABI[2] == 10;
  }

  lemma ReloadCsrs(img: Image, a: Context, p: nat, m: Machine, i: Instr)
    requires LayoutOk(img) && TrapOk(img, a) && MachineOk(m)
    requires RESUME <= p <= 19 && AtInv(img, a, p, m)
    requires i == if p == 17 then ClearMie else if p == 18 then Lw(15, 32) else Lw(5, 28)
    ensures AtInv(img, a, p + 1, Exec(i, m))
  {
    assert Load(m.mem, Frame(a) + 28) == EncodeCause(CauseOf(a));
    assert Load(m.mem, Frame(a) + 32) == a.snap.pc;
  }

  lemma WriteCsrs(img: Image, a: Context, p: nat, m: Machine, i: Instr)
    requires LayoutOk(img) && TrapOk(img, a) && MachineOk(m)
    requires 20 <= p <= 21 && AtInv(img, a, p, m)
    requires i == if p == 20 then CsrwEpc(15) else CsrwCause(5)
    ensures AtInv(img, a, p + 1, Exec(i, m))
  {
    CauseRoundTrip(CauseOf(a));
  }

  lemma RestoreOne(a: Context, regs: seq<Word>, n: nat)
    requires MachineOk(a.snap) && |regs| == 16 && n < CALLER_SAVE_COUNT
    requires OthersKept(a, regs) && CallersKept(a, regs, n)
    ensures var r := CALLER_SAVE_EABI[n];
            var regs' := regs[r := a.snap.regs[r]];
            OthersKept(a, regs') && CallersKept(a, regs', n + 1) && regs'[SP] == regs[SP]
  {
  }

  lemma LoadSaved(a: Context, n: nat, m: Machine)
    requires MachineOk(a.snap) && MachineOk(m) && n < CALLER_SAVE_COUNT
    requires FRAME_BYTES <= Sp(a.snap) && Sp(m) == Frame(a) && RegsSaved(a, m.mem, CALLER_SAVE_COUNT)
    ensures var r := CALLER_SAVE_EABI[n];
            Exec(Lw(r, 4 * n), m) == m.(pc := Wrap(m.pc + 4), regs := m.regs[r := a.snap.regs[r]])
  {
  }

  lemma RegsLoaded(img: Image, a: Context, p: nat, m: Machine, regs: seq<Word>)
    requires LayoutOk(img) && TrapOk(img, a) && MachineOk(m)
    requires 22 <= p <= 28 && AtInv(img, a, p, m)
    requires |regs| == 16 && regs[SP] == m.regs[SP]
    requires OthersKept(a, regs) && CallersKept(a, regs, p - 21)
    ensures AtInv(img, a, p + 1, m.(pc := Wrap(m.pc + 4), regs := regs))
  {
  }

  lemma RestoreRegs(img: Image, a: Context, p: nat, m: Machine)
    requires LayoutOk(img) && TrapOk(img, a) && MachineOk(m)
    requires 22 <= p <= 28 && AtInv(img, a, p, m)
    ensures AtInv(img, a, p + 1, Exec(Lw(CALLER_SAVE_EABI[p - 22], 4 * (p - 22)), m))
  {
    LoadSaved(a, p - 22, m);
    RestoreOne(a, m.regs, p - 22);
    var r := CALLER_SAVE_EABI[p - 22];
    RegsLoaded(img, a, p, m, m.regs[r := a.snap.regs[r]]);
  }

  lemma FreeFrame(img: Image, a: Context, m: Machine)
    requires LayoutOk(img) && TrapOk(img, a) && MachineOk(m) && AtInv(img, a, 29, m)
    ensures var m' := Exec(Addi(SP, SP, 36), m); AtInv(img, a, LAST, m')
  {
  }

  /** Every trampoline instruction except the call and `mret` moves on to the next position. */
  lemma NextPosition(img: Image, a: Context, p: nat, m: Machine)
    requires LayoutOk(img) && CodeLoaded(img) && TrapOk(img, a) && MachineOk(m)
    requires p < LAST && p != CALL && AtInv(img, a, p, m)
    ensures AtInv(img, a, p + 1, Exec(img.fetch(m.pc), m))
  {
    var i := img.fetch(m.pc);
    CodeAt(img, a.irq, p);
    if
    case p == 0 => MakeFrame(img, a, m);
    case 1 <= p <= 7 => FrameStores(img, a, p, m);
    case 8 <= p <= 9 => ReadCsrs(img, a, p, m, i);
    case 10 <= p <= 12 => SaveCsrs(img, a, p, m, i);
    case 13 <= p <= 15 => PrepareCall(img, a, p, m, i);
    case 17 <= p <= 19 => ReloadCsrs(img, a, p, m, i);
    case 20 <= p <= 21 => WriteCsrs(img, a, p, m, i);
    case 22 <= p <= 28 => RestoreRegs(img, a, p, m);
    case p == 29 => FreeFrame(img, a, m);
  }

  /** The call enters the handler with the frame complete. */
  lemma CallHandler(img: Image, a: Context, m: Machine)
    requires LayoutOk(img) && TrapOk(img, a) && MachineOk(m) && AtInv(img, a, CALL, m)
    ensures var m' := Exec(Jalr(RA, 10), m);
            BodyInv(img, a, [ViewOf(img.top, m')], m')
  {
    var m' := Exec(Jalr(RA, 10), m);
    var v := ViewOf(img.top, m');
    ViewIsOk(img.top, m');
    assert m'.pc == img.handler(a.irq);
    assert v.regs[RA] == PcAt(img, a.irq, RESUME);
    forall x: int | Frame(a) <= x < img.top ensures v.stack[x] == Load(m.mem, x) {
    }
    FrameInView(img, a, v, m.mem);
  }

  lemma FrameInView(img: Image, a: Context, v: View, mem: map<int, Word>)
    requires TrapOk(img, a) && ViewOk(img.top, v) && v.regs[SP] == Frame(a)
    requires forall x: int | Frame(a) <= x < img.top :: v.stack[x] == Load(mem, x)
    requires StackKept(img, a, mem) && FrameHolds(a, mem)
    ensures forall x: int | Sp(a.snap) <= x < img.top :: v.stack[x] == Load(a.snap.mem, x)
    ensures forall i | 0 <= i < CALLER_SAVE_COUNT ::
              v.stack[Frame(a) + 4 * i] == a.snap.regs[CALLER_SAVE_EABI[i]]
    ensures v.stack[Frame(a) + CAUSE_POS] == EncodeCause(CauseOf(a))
    ensures v.stack[Frame(a) + EPC_POS] == a.snap.pc
  {
  }

  /** `mret` gives the interrupted code exactly the view it had. */
  lemma ReturnFromTrap(img: Image, a: Context, m: Machine)
    requires LayoutOk(img) && TrapOk(img, a) && MachineOk(m) && AtInv(img, a, LAST, m)
    ensures var m' := Exec(Mret, m); ViewOf(img.top, m') == ViewOf(img.top, a.snap)
  {
    forall r: Reg ensures m.regs[r] == a.snap.regs[r] {
      RegisterPartition(r);
      if i :| 0 <= i < CALLER_SAVE_COUNT && CALLER_SAVE_EABI[i] == r {
        assert m.regs[CALLER_SAVE_EABI[i]] == a.snap.regs[CALLER_SAVE_EABI[i]];
      }
    }
    assert m.regs == a.snap.regs;
  }

  // ---------- The handler keeps the invariant ----------

  /** An uninterrupted handler execution, extended by one step. */
  lemma ExtendTrace(step: (View, View) -> bool, top: int, trace: seq<View>, v: View)
    requires Uninterrupted(step, top, trace) && ViewOk(top, v) && step(trace[|trace| - 1], v)
    ensures Uninterrupted(step, top, trace + [v])
  {
    forall i: nat | i < |trace| ensures StepAt(step, trace + [v], i) {
      if i < |trace| - 1 {
        assert StepAt(step, trace, i);
      }
    }
  }

  /** What the calling convention says about the handler's current view. */
  lemma Convention(img: Image, a: Context, trace: seq<View>)
    requires HandlersOk(img) && TrapOk(img, a)
    requires Uninterrupted(img.body(a.irq), img.top, trace) && NotReturnedBefore(trace, |trace| - 1)
    requires trace[0].pc == img.handler(a.irq) && trace[0].regs[RA] == PcAt(img, a.irq, RESUME)
    requires trace[0].regs[SP] == Frame(a)
    ensures FollowsConvention(img.top, trace[0], trace[|trace| - 1], |trace| > 1)
  {
    assert AbiHandler(img.body(a.irq), img.handler(a.irq), PcAt(img, a.irq, RESUME), img.room(a.irq), img.top);
  }

  /** While the handler runs, the frame and the stack above it are intact. */
  lemma BodyFrame(img: Image, a: Context, trace: seq<View>, m: Machine)
    requires HandlersOk(img) && TrapOk(img, a) && MachineOk(m) && BodyInv(img, a, trace, m)
    ensures Sp(m) <= Frame(a) && Sp(m) % 4 == 0 && m.level == a.level
    ensures FrameHolds(a, m.mem) && StackKept(img, a, m.mem)
  {
    Convention(img, a, trace);
    var v := ViewOf(img.top, m);
    forall x: int | Frame(a) <= x < img.top ensures Load(m.mem, x) == trace[0].stack[x] {
      assert v.stack[x] == Load(m.mem, x);
    }
  }

  lemma ViewIsOk(top: int, m: Machine)
    requires MachineOk(m)
    ensures ViewOk(top, ViewOf(top, m))
  {
    var v := ViewOf(top, m);
    assert forall a: int :: a in v.stack <==> Sp(m) <= a < top;
  }

  lemma HandlerStep(img: Image, a: Context, trace: seq<View>, m: Machine, m': Machine)
    requires LayoutOk(img) && HandlersOk(img) && TrapOk(img, a) && MachineOk(m) && BodyInv(img, a, trace, m)
    requires MachineOk(m') && img.body(a.irq)(ViewOf(img.top, m), ViewOf(img.top, m'))
    ensures var v' := ViewOf(img.top, m');
            if v'.pc == trace[0].regs[RA] then AtInv(img, a, RESUME, m')
            else BodyInv(img, a, trace + [v'], m')
  {
    var v' := ViewOf(img.top, m');
    ViewIsOk(img.top, m');
    var longer := trace + [v'];
    ExtendTrace(img.body(a.irq), img.top, trace, v');
    assert NotReturnedBefore(longer, |longer| - 1);
    if v'.pc == trace[0].regs[RA] {
      Convention(img, a, longer);
      Returned(img, a, trace[0], m');
    }
  }

  /** Back at the trampoline: what the convention promised is what the unwinding needs. */
  lemma Returned(img: Image, a: Context, first: View, m: Machine)
    requires LayoutOk(img) && TrapOk(img, a) && MachineOk(m)
    requires ViewOk(img.top, first) && ViewOk(img.top, ViewOf(img.top, m))
    requires FollowsConvention(img.top, first, ViewOf(img.top, m), true)
    requires m.pc == first.regs[RA] == PcAt(img, a.irq, RESUME)
    requires first.regs[SP] == Frame(a) && first.level == a.level && OthersKept(a, first.regs)
    requires forall x: int | Sp(a.snap) <= x < img.top :: first.stack[x] == Load(a.snap.mem, x)
    requires forall i | 0 <= i < CALLER_SAVE_COUNT ::
               first.stack[Frame(a) + 4 * i] == a.snap.regs[CALLER_SAVE_EABI[i]]
    requires first.stack[Frame(a) + CAUSE_POS] == EncodeCause(CauseOf(a))
    requires first.stack[Frame(a) + EPC_POS] == a.snap.pc
    ensures AtInv(img, a, RESUME, m)
  {
  }

  // ---------- Suspension and resumption ----------

  /** An activation cannot tell the machine it was suspended with from one with the same view. */
  lemma SameView(img: Image, a: Activation, m: Machine, m': Machine)
    requires LayoutOk(img) && ActInv(img, a, m) && MachineOk(m')
    requires ViewOf(img.top, m) == ViewOf(img.top, m') && m.mie
    ensures ActInv(img, a, m')
  {
    if a.Trap? && a.ctl.At? {
      assert m.regs == m'.regs;
      forall x: int | Frame(a.ctx) <= x < img.top ensures Load(m.mem, x) == Load(m'.mem, x) {
        ViewLoad(img.top, m, m', x);
      }
    }
  }

  /** Interrupts are enabled only while the activation's whole frame is in memory. */
  lemma EnabledMeansSaved(img: Image, a: Activation, m: Machine)
    requires HandlersOk(img) && a.Trap? && ActInv(img, a, m) && m.mie
    ensures Sp(m) <= Frame(a.ctx) && Sp(m) % 4 == 0
    ensures FrameHolds(a.ctx, m.mem) && StackKept(img, a.ctx, m.mem) && m.level == a.ctx.level
  {
    match a.ctl
    case At(p) =>
    case Body(trace) => BodyFrame(img, a.ctx, trace, m);
  }

  // ---------- Every step keeps the invariant ----------

  lemma MainStep(img: Image, trace: seq<View>, m: Machine, m': Machine)
    requires MachineOk(m) && MainInv(img, trace, m) && MachineOk(m')
    requires img.main(ViewOf(img.top, m), ViewOf(img.top, m'))
    ensures MainInv(img, trace + [ViewOf(img.top, m')], m')
  {
    ViewIsOk(img.top, m');
    ExtendTrace(img.main, img.top, trace, ViewOf(img.top, m'));
  }

  lemma OwnKeepsInv(img: Image, s: System, s': System)
    requires LayoutOk(img) && HandlersOk(img) && Inv(img, s) && OwnStep(img, s, s')
    ensures Inv(img, s')
  {
    var top := |s.acts| - 1;
    ActInvAt(img, s, top);
    match Top(s) {
      case MainProgram(trace) => MainStep(img, trace, s.m, s'.m);
      case Trap(ctx, Body(trace)) => HandlerStep(img, ctx, trace, s.m, s'.m);
    }
    ReplaceTop(ActInvOf(img), s, s');
  }

  /** `sp` at any point where an interrupt can be taken. */
  lemma InterruptibleSp(img: Image, s: System)
    requires HandlersOk(img) && KeepsStack(img.main, img.start, img.top) && Inv(img, s) && s.m.mie
    ensures Sp(s.m) <= img.top && Sp(s.m) % 4 == 0
  {
    var top := |s.acts| - 1;
    ActInvAt(img, s, top);
    if s.acts[top].Trap? {
      EnabledMeansSaved(img, s.acts[top], s.m);
    } else {
      assert Uninterrupted(img.main, img.top, s.acts[top].trace);
      assert ViewOf(img.top, s.m).regs[SP] == Sp(s.m);
    }
  }

  lemma TakeKeepsInv(img: Image, s: System, irq: nat, level: nat, s': System)
    requires LayoutOk(img) && HandlersOk(img) && KeepsStack(img.main, img.start, img.top)
    requires Inv(img, s) && TakeStep(img, s, irq, level, s')
    ensures Inv(img, s')
  {
    InterruptibleSp(img, s);
    EnterTrap(img, s.m, irq, level);
    PushTop(ActInvOf(img), s, s');
  }

  lemma EnterTrap(img: Image, m: Machine, irq: nat, level: nat)
    requires LayoutOk(img) && MachineOk(m) && m.mie && irq < 0x1000 && level < 0x100
    requires FRAME_BYTES + img.room(irq) <= Sp(m) <= img.top && Sp(m) % 4 == 0
    ensures ActInv(img, Trap(Context(irq, level, m), At(0)), TakeTrap(m, irq, level, img.vector(irq)))
  {
  }

  lemma AdvanceKeepsInv(img: Image, a: Context, p: nat, m: Machine)
    requires LayoutOk(img) && CodeLoaded(img)
    requires TrapOk(img, a) && MachineOk(m) && AtInv(img, a, p, m) && p < LAST
    ensures var m' := Exec(img.fetch(m.pc), m); ActInv(img, Trap(a, NextControl(img, p, m')), m')
  {
    if p == CALL {
      CodeAt(img, a.irq, CALL);
      CallHandler(img, a, m);
    } else {
      NextPosition(img, a, p, m);
    }
  }

  /** The step that ends an activation hands its interrupted view back. */
  lemma EndOfTrap(img: Image, s: System, s': System)
    requires LayoutOk(img) && CodeLoaded(img) && Inv(img, s)
    requires TrampolineStep(img, s, s') && Top(s).ctl.pos == LAST
    ensures Top(s).ctx.snap.mie && MachineOk(Top(s).ctx.snap) && MachineOk(s'.m)
    ensures ViewOf(img.top, s'.m) == ViewOf(img.top, Top(s).ctx.snap)
  {
    var a := Top(s).ctx;
    ActInvAt(img, s, |s.acts| - 1);
    assert TrapOk(img, a);
    CodeAt(img, a.irq, LAST);
    ReturnFromTrap(img, a, s.m);
  }

  lemma EndKeepsInv(img: Image, s: System, s': System)
    requires LayoutOk(img) && CodeLoaded(img) && Inv(img, s)
    requires TrampolineStep(img, s, s') && Top(s).ctl.pos == LAST
    ensures Inv(img, s')
  {
    var top := |s.acts| - 1;
    EndOfTrap(img, s, s');
    ActInvAt(img, s, top - 1);
    SameView(img, s.acts[top - 1], s.acts[top].ctx.snap, s'.m);
    PopTop(ActInvOf(img), s, s');
  }

  lemma AdvanceKeepsAll(img: Image, s: System, s': System)
    requires LayoutOk(img) && CodeLoaded(img) && Inv(img, s)
    requires TrampolineStep(img, s, s') && Top(s).ctl.pos < LAST
    ensures Inv(img, s')
  {
    ActInvAt(img, s, |s.acts| - 1);
    AdvanceKeepsInv(img, Top(s).ctx, Top(s).ctl.pos, s.m);
    ReplaceTop(ActInvOf(img), s, s');
  }

  lemma TrampolineKeepsInv(img: Image, s: System, s': System)
    requires LayoutOk(img) && CodeLoaded(img) && Inv(img, s) && TrampolineStep(img, s, s')
    ensures Inv(img, s')
  {
    if Top(s).ctl.pos == LAST {
      EndKeepsInv(img, s, s');
    } else {
      AdvanceKeepsAll(img, s, s');
    }
  }

  lemma StepKeepsInv(img: Image, s: System, e: Event, s': System)
    requires ImageOk(img) && Inv(img, s) && Step(img, s, e, s')
    ensures Inv(img, s')
  {
    match e
    case Own => OwnKeepsInv(img, s, s');
    case Take(irq, level) => TakeKeepsInv(img, s, irq, level, s');
    case Trampoline => TrampolineKeepsInv(img, s, s');
  }

  // ---------- Whole runs ----------

  predicate EventAt(img: Image, states: seq<System>, events: seq<Event>, i: nat)
    requires i < |events| && |states| == |events| + 1
  {
    Running(states[i]) && Step(img, states[i], events[i], states[i + 1])
  }

  ghost predicate Run(img: Image, states: seq<System>, events: seq<Event>) {
    && |states| == |events| + 1
    && Init(img, states[0])
    && forall i: nat {:trigger EventAt(img, states, events, i)} ::
         i < |events| ==> EventAt(img, states, events, i)
  }

  lemma {:induction false} RunKeepsInv(img: Image, states: seq<System>, events: seq<Event>, k: nat)
    requires ImageOk(img) && Run(img, states, events) && k < |states|
    ensures Inv(img, states[k])
  {
    if k == 0 {
      ViewIsOk(img.top, states[0].m);
      assert ActInvOf(img)(states[0].acts[0], LastSeen(states[0], 0));
    } else {
      RunKeepsInv(img, states, events, k - 1);
      assert EventAt(img, states, events, k - 1);
      StepKeepsInv(img, states[k - 1], events[k - 1], states[k]);
    }
  }

  /** In every reachable state the trampoline code that is executed is the code at `pc`. */
  lemma PcFollowsCode(img: Image, states: seq<System>, events: seq<Event>, k: nat)
    requires ImageOk(img) && Run(img, states, events) && k < |states|
    requires Running(states[k]) && Top(states[k]).Trap? && Top(states[k]).ctl.At?
    ensures states[k].m.pc == PcAt(img, Top(states[k]).ctx.irq, Top(states[k]).ctl.pos)
  {
    RunKeepsInv(img, states, events, k);
    var top := |states[k].acts| - 1;
    ActInvAt(img, states[k], top);
  }

  // ---------- Frames ----------

  /** All of the activation's frame has been written. */
  predicate PastSavePoint(a: Activation)
    requires a.Trap?
  {
    a.ctl.Body? || a.ctl.pos >= 12
  }

  /** Suspended activations were interruptible, so their frames were complete. */
  lemma SuspendedFrame(img: Image, s: System, i: nat)
    requires HandlersOk(img) && Inv(img, s) && 0 < i < |s.acts| - 1
    ensures TrapOk(img, s.acts[i].ctx) && TrapOk(img, s.acts[i + 1].ctx)
    ensures Sp(s.acts[i + 1].ctx.snap) <= Frame(s.acts[i].ctx)
    ensures FrameHolds(s.acts[i].ctx, s.acts[i + 1].ctx.snap.mem)
    ensures StackKept(img, s.acts[i].ctx, s.acts[i + 1].ctx.snap.mem)
    ensures PastSavePoint(s.acts[i]) && s.acts[i + 1].ctx.snap.level == s.acts[i].ctx.level
  {
    ActInvAt(img, s, i);
    ActInvAt(img, s, i + 1);
    EnabledMeansSaved(img, s.acts[i], s.acts[i + 1].ctx.snap);
  }

  /** Current memory agrees with what activation `i` interrupted, from its `sp` up. */
  lemma {:induction false} StackIntact(img: Image, s: System, i: nat)
    requires HandlersOk(img) && Inv(img, s) && 0 < i < |s.acts|
    ensures TrapOk(img, s.acts[i].ctx) && StackKept(img, s.acts[i].ctx, s.m.mem)
    decreases |s.acts| - i
  {
    var a := s.acts[i].ctx;
    ActInvAt(img, s, i);
    if i == |s.acts| - 1 {
      if s.acts[i].ctl.Body? {
        BodyFrame(img, a, s.acts[i].ctl.trace, s.m);
      }
    } else {
      StackIntact(img, s, i + 1);
      SuspendedFrame(img, s, i);
      forall x: int | Sp(a.snap) <= x < img.top ensures Load(s.m.mem, x) == Load(a.snap.mem, x) {
        assert Load(s.m.mem, x) == Load(s.acts[i + 1].ctx.snap.mem, x);
      }
    }
  }

  /** In every reachable state a frame past its save point holds its own activation's
      registers, `mcause` and `mepc`, whatever has been preempted or nested since. */
  lemma FramesHoldOwnContext(img: Image, states: seq<System>, events: seq<Event>, k: nat, i: nat)
    requires ImageOk(img) && Run(img, states, events) && k < |states|
    requires 0 < i < |states[k].acts| && states[k].acts[i].Trap? && PastSavePoint(states[k].acts[i])
    ensures var a := states[k].acts[i].ctx;
            TrapOk(img, a) && FrameHolds(a, states[k].m.mem) && StackKept(img, a, states[k].m.mem)
  {
    var s := states[k];
    RunKeepsInv(img, states, events, k);
    StackIntact(img, s, i);
    var a := s.acts[i].ctx;
    ActInvAt(img, s, i);
    if i == |s.acts| - 1 {
      if s.acts[i].ctl.Body? {
        BodyFrame(img, a, s.acts[i].ctl.trace, s.m);
      }
    } else {
      SuspendedFrame(img, s, i);
      StackIntact(img, s, i + 1);
      var later := s.acts[i + 1].ctx.snap.mem;
      forall x: int | Frame(a) <= x < img.top ensures Load(s.m.mem, x) == Load(later, x) {
      }
    }
  }

  lemma {:induction false} FramesDescend(img: Image, s: System, i: nat, j: nat)
    requires HandlersOk(img) && Inv(img, s) && 0 < i < j < |s.acts|
    ensures TrapOk(img, s.acts[i].ctx) && TrapOk(img, s.acts[j].ctx)
    ensures Frame(s.acts[j].ctx) + 36 <= Frame(s.acts[i].ctx)
    decreases j - i
  {
    SuspendedFrame(img, s, i);
    if i + 1 < j {
      FramesDescend(img, s, i + 1, j);
    }
  }

  /** In every reachable state the live frames are disjoint 36-byte blocks, later activations
      lying strictly below earlier ones. */
  lemma FramesDisjoint(img: Image, states: seq<System>, events: seq<Event>, k: nat, i: nat, j: nat)
    requires ImageOk(img) && Run(img, states, events) && k < |states|
    requires 0 < i < j < |states[k].acts|
    ensures var s := states[k];
            && s.acts[i].Trap? && s.acts[j].Trap?
            && TrapOk(img, s.acts[i].ctx) && TrapOk(img, s.acts[j].ctx)
            && 0 <= Frame(s.acts[j].ctx) && Frame(s.acts[j].ctx) + 36 <= Frame(s.acts[i].ctx)
            && Frame(s.acts[j].ctx) % 4 == 0 && Frame(s.acts[i].ctx) + 36 <= img.top
  {
    RunKeepsInv(img, states, events, k);
    FramesDescend(img, states[k], i, j);
  }

  /** While interrupts are enabled no live activation's cause or return address is only in
      the CSRs: taking another interrupt can lose nothing. */
  lemma EnabledMeansAllSaved(img: Image, states: seq<System>, events: seq<Event>, k: nat, i: nat)
    requires ImageOk(img) && Run(img, states, events) && k < |states|
    requires states[k].m.mie && 0 < i < |states[k].acts|
    ensures states[k].acts[i].Trap?
    ensures TrapOk(img, states[k].acts[i].ctx) && FrameHolds(states[k].acts[i].ctx, states[k].m.mem)
  {
    var s := states[k];
    RunKeepsInv(img, states, events, k);
    ActInvAt(img, s, i);
    if i == |s.acts| - 1 {
      EnabledMeansSaved(img, s.acts[i], s.m);
    } else {
      SuspendedFrame(img, s, i);
    }
    FramesHoldOwnContext(img, states, events, k, i);
  }

  // ---------- Transparency ----------

  /** `j` is the state after the `mret` that matches the interrupt taken in state `i`. */
  ghost predicate Matching(states: seq<System>, events: seq<Event>, i: nat, j: nat)
    requires |states| == |events| + 1
  {
    && i + 1 < j < |states|
    && events[i].Take?
    && |states[j].acts| == |states[i].acts|
    && forall k | i < k < j :: |states[k].acts| > |states[i].acts|
  }

  lemma {:induction false} SuspendedWhileNested(img: Image, states: seq<System>, events: seq<Event>,
                                                i: nat, j: nat, k: nat)
    requires Run(img, states, events) && Matching(states, events, i, j) && i < k < j
    ensures |states[k].acts| > |states[i].acts|
    ensures states[k].acts[..|states[i].acts|] == states[i].acts
    ensures states[k].acts[|states[i].acts|].Trap?
    ensures states[k].acts[|states[i].acts|].ctx.snap == states[i].m
  {
    if k > i + 1 {
      SuspendedWhileNested(img, states, events, i, j, k - 1);
      assert EventAt(img, states, events, k - 1);
    } else {
      assert EventAt(img, states, events, i);
    }
  }

  /**
   From taking an interrupt to the matching `mret`, with any number and depth of
   preemptions in between, the interrupted code gets back the same pc, all sixteen
   registers, MIE, interrupt level and every stack word at or above its `sp`.
   */
  lemma InterruptIsTransparent(img: Image, states: seq<System>, events: seq<Event>, i: nat, j: nat)
    requires ImageOk(img) && Run(img, states, events) && Matching(states, events, i, j)
    ensures Inv(img, states[i]) && Inv(img, states[j])
    ensures var m, m' := states[i].m, states[j].m;
            && m'.pc == m.pc && m'.regs == m.regs && m'.mie == m.mie && m'.level == m.level
            && (forall x: int | Sp(m) <= x < img.top :: Load(m'.mem, x) == Load(m.mem, x))
    ensures states[j].acts == states[i].acts
  {
    RunKeepsInv(img, states, events, i);
    RunKeepsInv(img, states, events, j);
    RunKeepsInv(img, states, events, j - 1);
    SuspendedWhileNested(img, states, events, i, j, j - 1);
    assert EventAt(img, states, events, j - 1);
    EndOfTrap(img, states[j - 1], states[j]);
    forall x: int | Sp(states[i].m) <= x < img.top
      ensures Load(states[j].m.mem, x) == Load(states[i].m.mem, x)
    {
      ViewLoad(img.top, states[j].m, states[i].m, x);
    }
  }

  /** Neither the main program nor any live handler can tell that it was preempted: the views
      each has had form an uninterrupted execution of its own code. */
  lemma PreemptionIsInvisible(img: Image, states: seq<System>, events: seq<Event>, k: nat, i: nat)
    requires ImageOk(img) && Run(img, states, events) && k < |states|
    requires i < |states[k].acts|
    ensures Running(states[k]) && MachineOk(LastSeen(states[k], i))
    ensures var seen := ViewOf(img.top, LastSeen(states[k], i));
            match states[k].acts[i]
            case MainProgram(trace) =>
              Uninterrupted(img.main, img.top, trace) && trace[|trace| - 1] == seen
            case Trap(ctx, Body(trace)) =>
              && Uninterrupted(img.body(ctx.irq), img.top, trace) && trace[|trace| - 1] == seen
              && trace[0].pc == img.handler(ctx.irq)
            case _ => true
  {
    RunKeepsInv(img, states, events, k);
    ActInvAt(img, states[k], i);
  }

  // ---------- Interrupt levels ----------

  /** The hardware preempts only for a strictly higher level. */
  ghost predicate StrictLevels(states: seq<System>, events: seq<Event>)
    requires |states| == |events| + 1
  {
    forall k | 0 <= k < |events| && events[k].Take? :: events[k].level > states[k].m.level
  }

  /** A step keeps the context of every activation that is live before and after. */
  lemma StepKeepsContexts(img: Image, s: System, e: Event, s': System, i: nat)
    requires Running(s) && Step(img, s, e, s') && 0 < i < |s'.acts|
    ensures s'.acts[i].Trap?
    ensures i < |s.acts| ==> s.acts[i].Trap? && s'.acts[i].ctx == s.acts[i].ctx
    ensures i >= |s.acts| ==> e.Take? && s'.acts[i].ctx == Context(e.irq, e.level, s.m)
  {
    if i < |s.acts| - 1 {
      assert Below(s)[i] == s.acts[i];
    }
  }

  lemma {:induction false} TrapsRaiseLevel(img: Image, states: seq<System>, events: seq<Event>, k: nat, i: nat)
    requires ImageOk(img) && Run(img, states, events) && StrictLevels(states, events)
    requires k < |states| && 0 < i < |states[k].acts|
    ensures states[k].acts[i].Trap? && states[k].acts[i].ctx.snap.level < states[k].acts[i].ctx.level
  {
    if k > 0 {
      assert EventAt(img, states, events, k - 1);
      StepKeepsContexts(img, states[k - 1], events[k - 1], states[k], i);
      if i < |states[k - 1].acts| {
        TrapsRaiseLevel(img, states, events, k - 1, i);
      }
    }
  }

  lemma {:induction false} LevelAtLeast(img: Image, states: seq<System>, events: seq<Event>, k: nat, i: nat)
    requires ImageOk(img) && Run(img, states, events) && StrictLevels(states, events)
    requires k < |states| && 0 < i < |states[k].acts|
    ensures states[k].acts[1].Trap? && states[k].acts[i].Trap?
    ensures states[k].acts[i].ctx.level >= states[k].acts[1].ctx.snap.level + i
  {
    TrapsRaiseLevel(img, states, events, k, i);
    if i > 1 {
      LevelAtLeast(img, states, events, k, i - 1);
      RunKeepsInv(img, states, events, k);
      SuspendedFrame(img, states[k], i - 1);
    }
  }

  /** With strictly rising levels the live frames never outnumber the levels above the
      interrupted program's: at most 255 frames exist at once. */
  lemma FramesBoundedByLevels(img: Image, states: seq<System>, events: seq<Event>, k: nat)
    requires ImageOk(img) && Run(img, states, events) && StrictLevels(states, events)
    requires k < |states| && |states[k].acts| > 1
    ensures Running(states[k]) && Top(states[k]).Trap?
    ensures |states[k].acts| - 1 <= Top(states[k]).ctx.level - states[k].acts[1].ctx.snap.level <= 255
  {
    var top := |states[k].acts| - 1;
    LevelAtLeast(img, states, events, k, top);
    RunKeepsInv(img, states, events, k);
    ActInvAt(img, states[k], top);
  }
}
