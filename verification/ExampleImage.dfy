/**
 The assumptions on a linked program can be met by machine code: an image whose handler makes
 a stack frame, saves `ra` and a callee-saved register in it, changes both, restores them and
 returns, and whose main program enables interrupts and loops.
 */
module ExampleImage {
  import opened Rv32e
  import opened TrapFrame
  import opened NestedTraps

  /** The transition relation of machine code, on what code can observe. Memory below `sp` may
      hold anything at every step. */
  ghost function CodeRelation(fetch: int -> Instr, top: int): (View, View) -> bool {
    (v: View, v': View) => exists m: Machine :: CodeStep(fetch, top, m, v, v')
  }

  predicate CodeStep(fetch: int -> Instr, top: int, m: Machine, v: View, v': View) {
    && MachineOk(m) && ViewOf(top, m) == v
    && ViewOf(top, Exec(fetch(m.pc), m)) == v'
  }

  // ---------- The handler ----------

  const S0: Reg := 8
  const ROOM: nat := 16

  const HANDLER_CODE: seq<Instr> :=
    [Addi(SP, SP, -16), Sw(RA, 12), Sw(S0, 8), Addi(S0, S0, 1), Addi(RA, RA, 4),
     Lw(S0, 8), Lw(RA, 12), Addi(SP, SP, 16), Jalr(0, RA)]

  /** The machine before instruction `k`, the handler having been entered with view `first`; 9
      is the return. */
  ghost predicate HandlerAt(top: int, entry: Word, first: View, k: nat, m: Machine)
    requires ViewOk(top, first) && MachineOk(m)
  {
    var sp := first.regs[SP];
    && k <= 9
    && 0 <= top <= WORD && entry + 64 <= WORD
    && ROOM <= sp <= top && sp % 4 == 0 && first.regs[RA] % 2 == 0
    && m.pc == (if k <= 8 then entry + 4 * k else first.regs[RA])
    && m.level == first.level
    && m.regs[SP] == sp - (if 1 <= k <= 7 then 16 else 0)
    && (forall r: Reg | r !in {RA, SP, S0} :: m.regs[r] == first.regs[r])
    && (k <= 3 || k >= 6 ==> m.regs[S0] == first.regs[S0])
    && (k <= 4 || k >= 7 ==> m.regs[RA] == first.regs[RA])
    && (2 <= k <= 7 ==> Load(m.mem, sp - 4) == first.regs[RA])
    && (3 <= k <= 7 ==> Load(m.mem, sp - 8) == first.regs[S0])
    && (forall a: int | sp <= a < top :: Load(m.mem, a) == first.stack[a])
  }

  ghost predicate HandlerLoaded(fetch: int -> Instr, entry: Word) {
    forall k {:trigger HANDLER_CODE[k]} :: 0 <= k < 9 ==> fetch(entry + 4 * k) == HANDLER_CODE[k]
  }

  lemma FrameStep(top: int, entry: Word, first: View, k: nat, m: Machine)
    requires ViewOk(top, first) && MachineOk(m) && k in {0, 7} && HandlerAt(top, entry, first, k, m)
    ensures HandlerAt(top, entry, first, k + 1, Exec(HANDLER_CODE[k], m))
  {
  }

  lemma SaveStep(top: int, entry: Word, first: View, k: nat, m: Machine)
    requires ViewOk(top, first) && MachineOk(m) && k in {1, 2} && HandlerAt(top, entry, first, k, m)
    ensures HandlerAt(top, entry, first, k + 1, Exec(HANDLER_CODE[k], m))
  {
    var a := first.regs[SP] - (if k == 1 then 4 else 8);
    assert Exec(HANDLER_CODE[k], m).mem == m.mem[a := m.regs[if k == 1 then RA else S0]];
  }

  lemma ClobberStep(top: int, entry: Word, first: View, k: nat, m: Machine)
    requires ViewOk(top, first) && MachineOk(m) && k in {3, 4, 8} && HandlerAt(top, entry, first, k, m)
    ensures HandlerAt(top, entry, first, k + 1, Exec(HANDLER_CODE[k], m))
  {
  }

  lemma RestoreStep(top: int, entry: Word, first: View, k: nat, m: Machine)
    requires ViewOk(top, first) && MachineOk(m) && k in {5, 6} && HandlerAt(top, entry, first, k, m)
    ensures HandlerAt(top, entry, first, k + 1, Exec(HANDLER_CODE[k], m))
  {
  }

  lemma HandlerStep(top: int, entry: Word, first: View, k: nat, m: Machine)
    requires ViewOk(top, first) && MachineOk(m) && k <= 8 && HandlerAt(top, entry, first, k, m)
    ensures HandlerAt(top, entry, first, k + 1, Exec(HANDLER_CODE[k], m))
  {
    if
    case k in {0, 7} => FrameStep(top, entry, first, k, m);
    case k in {1, 2} => SaveStep(top, entry, first, k, m);
    case k in {3, 4, 8} => ClobberStep(top, entry, first, k, m);
    case k in {5, 6} => RestoreStep(top, entry, first, k, m);
  }

  /** What holds of a machine in the handler holds of every machine with the same view. */
  lemma SameHandlerView(top: int, entry: Word, first: View, k: nat, m: Machine, m': Machine)
    requires ViewOk(top, first) && MachineOk(m) && MachineOk(m') && HandlerAt(top, entry, first, k, m)
    requires ViewOf(top, m) == ViewOf(top, m')
    ensures HandlerAt(top, entry, first, k, m')
  {
    assert m.regs == m'.regs;
    forall a: int | m.regs[SP] <= a < top ensures Load(m.mem, a) == Load(m'.mem, a) {
      ViewLoad(top, m, m', a);
    }
  }

  /** The view `v` is one that the handler can have before instruction `k`. */
  ghost predicate SeenAt(top: int, entry: Word, first: View, k: nat, v: View)
    requires ViewOk(top, first)
  {
    exists m: Machine :: MachineOk(m) && ViewOf(top, m) == v && HandlerAt(top, entry, first, k, m)
  }

  lemma SeenNext(fetch: int -> Instr, top: int, entry: Word, first: View, k: nat, v: View, v': View)
    requires HandlerLoaded(fetch, entry) && ViewOk(top, first) && SeenAt(top, entry, first, k, v)
    requires k > 0 ==> v.pc != first.regs[RA]
    requires CodeRelation(fetch, top)(v, v')
    ensures SeenAt(top, entry, first, k + 1, v')
  {
    var before: Machine :| MachineOk(before) && ViewOf(top, before) == v && HandlerAt(top, entry, first, k, before);
    var here: Machine :| CodeStep(fetch, top, here, v, v');
    SameHandlerView(top, entry, first, k, before, here);
    assert fetch(entry + 4 * k) == HANDLER_CODE[k];
    HandlerStep(top, entry, first, k, here);
  }

  /** From the entry to the return, instruction by instruction. */
  lemma {:induction false} HandlerTrace(fetch: int -> Instr, top: int, entry: Word, trace: seq<View>, k: nat)
    requires HandlerLoaded(fetch, entry)
    requires Uninterrupted(CodeRelation(fetch, top), top, trace) && NotReturnedBefore(trace, |trace| - 1)
    requires SeenAt(top, entry, trace[0], 0, trace[0]) && k < |trace|
    ensures SeenAt(top, entry, trace[0], k, trace[k])
  {
    if k > 0 {
      HandlerTrace(fetch, top, entry, trace, k - 1);
      assert StepAt(CodeRelation(fetch, top), trace, k - 1);
      SeenNext(fetch, top, entry, trace[0], k - 1, trace[k - 1], trace[k]);
    }
  }

  lemma HandlerConforms(fetch: int -> Instr, top: int, entry: Word, trace: seq<View>)
    requires 0 <= top <= WORD && HandlerLoaded(fetch, entry) && entry % 2 == 0 && entry + 64 <= WORD
    requires Uninterrupted(CodeRelation(fetch, top), top, trace) && NotReturnedBefore(trace, |trace| - 1)
    requires trace[0].pc == entry && trace[0].regs[RA] % 2 == 0 && !(entry <= trace[0].regs[RA] < entry + 36)
    requires trace[0].regs[SP] % 4 == 0 && ROOM <= trace[0].regs[SP] <= top && |trace| > 1
    ensures FollowsConvention(top, trace[0], trace[|trace| - 1], true)
  {
    assert StepAt(CodeRelation(fetch, top), trace, 0);
    var m0: Machine :| CodeStep(fetch, top, m0, trace[0], trace[1]);
    Entered(top, entry, m0);
    HandlerTrace(fetch, top, entry, trace, |trace| - 1);
    AtReturn(top, entry, trace[0], |trace| - 1, trace[|trace| - 1]);
  }

  /** A handler with a stack frame of its own follows the calling convention, wherever it and
      its return address are. */
  lemma FramedHandlerIsAbi(fetch: int -> Instr, top: int, entry: Word, ret: Word)
    requires 0 <= top <= WORD && HandlerLoaded(fetch, entry) && entry % 2 == 0 && entry + 64 <= WORD
    requires ret % 2 == 0 && !(entry <= ret < entry + 36)
    ensures AbiHandler(CodeRelation(fetch, top), entry, ret, ROOM, top)
  {
    var step := CodeRelation(fetch, top);
    forall trace: seq<View> |
      && Uninterrupted(step, top, trace) && NotReturnedBefore(trace, |trace| - 1)
      && trace[0].pc == entry && trace[0].regs[RA] == ret
      && trace[0].regs[SP] % 4 == 0 && ROOM <= trace[0].regs[SP] <= top
      ensures FollowsConvention(top, trace[0], trace[|trace| - 1], |trace| > 1)
    {
      if |trace| > 1 {
        HandlerConforms(fetch, top, entry, trace);
      }
    }
  }

  lemma Entered(top: int, entry: Word, m: Machine)
    requires MachineOk(m) && 0 <= top <= WORD && entry + 64 <= WORD
    requires m.pc == entry && ROOM <= m.regs[SP] <= top && m.regs[SP] % 4 == 0 && m.regs[RA] % 2 == 0
    ensures ViewOk(top, ViewOf(top, m)) && SeenAt(top, entry, ViewOf(top, m), 0, ViewOf(top, m))
  {
    ViewIsOk(top, m);
    assert HandlerAt(top, entry, ViewOf(top, m), 0, m);
  }

  lemma AtReturn(top: int, entry: Word, first: View, k: nat, v: View)
    requires ViewOk(top, first) && k > 0 && SeenAt(top, entry, first, k, v)
    requires !(entry <= first.regs[RA] < entry + 36)
    ensures ViewOk(top, v) && FollowsConvention(top, first, v, true)
  {
    var m: Machine :| MachineOk(m) && ViewOf(top, m) == v && HandlerAt(top, entry, first, k, m);
    ViewIsOk(top, m);
    if m.pc == first.regs[RA] {
      forall r: Reg | r in CALLEE_SAVE_EABI_RVE || r == 3 || r == 4 ensures m.regs[r] == first.regs[r] {
        RegisterPartition(r);
      }
    }
  }

  // ---------- The image ----------

  const START: Word := 0x100
  const HANDLER: Word := 0x1000
  const VECTOR: Word := 0x2000
  const CONT: Word := 0x3000
  const TOP: int := 0x8000

  function Fetch(pc: int): Instr {
    if VECTOR <= pc < VECTOR + 64 then NestedTrapEntry(HANDLER, CONT)[(pc - VECTOR) / 4]
    else if CONT <= pc < CONT + 60 then ContinueNestedTrap()[(pc - CONT) / 4]
    else if HANDLER <= pc < HANDLER + 36 then HANDLER_CODE[(pc - HANDLER) / 4]
    else if pc == START then SetMie
    else Jump(START + 4)
  }

  ghost function Example(): Image {
    Image(TOP, Fetch, _ => VECTOR, CONT, _ => HANDLER, _ => CodeRelation(Fetch, TOP), _ => ROOM,
          START, CodeRelation(Fetch, TOP))
  }

  lemma EntryLoaded(p: nat)
    requires p < CALL
    ensures Fetch(VECTOR + 4 * p) == NestedTrapEntry(HANDLER, CONT)[p]
  {
    assert (VECTOR + 4 * p - VECTOR) / 4 == p;
  }

  lemma ContinuationLoaded(p: nat)
    requires CALL <= p <= LAST
    ensures Fetch(CONT + 4 * (p - CALL)) == ContinueNestedTrap()[p - CALL]
  {
    assert (CONT + 4 * (p - CALL) - CONT) / 4 == p - CALL;
  }

  lemma TrampolinesLoaded()
    ensures CodeLoaded(Example())
  {
    var img := Example();
    forall irq: nat, p: nat | p <= LAST ensures img.fetch(PcAt(img, irq, p)) == CodeOf(img, irq)[p] {
      if p < CALL {
        EntryLoaded(p);
      } else {
        ContinuationLoaded(p);
      }
    }
  }

  lemma HandlerIsLoaded()
    ensures HandlerLoaded(Fetch, HANDLER)
  {
    forall k | 0 <= k < 9 ensures Fetch(HANDLER + 4 * k) == HANDLER_CODE[k] {
      assert (HANDLER + 4 * k - HANDLER) / 4 == k;
    }
  }

  /** The main program stays in its loop with its `sp`. */
  lemma {:induction false} MainTrace(trace: seq<View>, k: nat)
    requires Uninterrupted(CodeRelation(Fetch, TOP), TOP, trace) && trace[0].pc == START && k < |trace|
    ensures trace[k].pc == (if k == 0 then START else START + 4) && trace[k].regs[SP] == trace[0].regs[SP]
  {
    if k > 0 {
      MainTrace(trace, k - 1);
      assert StepAt(CodeRelation(Fetch, TOP), trace, k - 1);
      var m: Machine :| CodeStep(Fetch, TOP, m, trace[k - 1], trace[k]);
    }
  }

  lemma MainKeepsStack()
    ensures KeepsStack(CodeRelation(Fetch, TOP), START, TOP)
  {
    var step := CodeRelation(Fetch, TOP);
    forall trace: seq<View> {:trigger Uninterrupted(step, TOP, trace)} |
      && Uninterrupted(step, TOP, trace)
      && trace[0].pc == START && trace[0].regs[SP] % 4 == 0 && trace[0].regs[SP] <= TOP
      ensures trace[|trace| - 1].regs[SP] % 4 == 0 && trace[|trace| - 1].regs[SP] <= TOP
    {
      MainTrace(trace, |trace| - 1);
    }
  }

  /** The assumptions of all results about runs hold together, for every interrupt number. */
  lemma ImageExists() returns (img: Image)
    ensures ImageOk(img) && img == Example()
  {
    img := Example();
    assert CodeLoaded(img) by { TrampolinesLoaded(); }
    assert HandlersOk(img) by {
      HandlerIsLoaded();
      FramedHandlerIsAbi(Fetch, TOP, HANDLER, CONT + 4);
    }
    assert KeepsStack(img.main, img.start, img.top) by { MainKeepsStack(); }
  }
}
