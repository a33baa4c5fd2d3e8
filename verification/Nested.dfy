/**
 `nested`: a handler that runs with interrupts off lets further interrupts in while a closure
 runs, keeping `mcause` and `mepc` in two words of its stack.
 */
module Nested {
  import opened Rv32e
  import opened TrapFrame
  import opened NestedTraps

  const T0: Reg := 5
  const NESTED_BYTES: nat := 8

  /** The code before the closure; `t1` is whatever register the assembler means by it. */
  function Enter(t1: Reg, m: Machine): (m': Machine)
    requires MachineOk(m)
    ensures MachineOk(m')
  {
    var m1 := Exec(Addi(SP, SP, 0 - NESTED_BYTES), m);
    var m2 := Exec(CsrrCause(T0), m1);
    var m3 := Exec(CsrrEpc(t1), m2);
    var m4 := Exec(Sw(T0, 0), m3);
    var m5 := Exec(Sw(t1, 4), m4);
    Exec(SetMie, m5)
  }

  /** The code after it. */
  function Leave(t1: Reg, m: Machine): (m': Machine)
    requires MachineOk(m)
    ensures MachineOk(m')
  {
    var m1 := Exec(ClearMie, m);
    var m2 := Exec(Lw(T0, 0), m1);
    var m3 := Exec(Lw(t1, 4), m2);
    var m4 := Exec(CsrwCause(T0), m3);
    var m5 := Exec(CsrwEpc(t1), m4);
    Exec(Addi(SP, SP, NESTED_BYTES), m5)
  }

  /** Registers other than the two temporaries and `sp`, and memory outside the two words. */
  ghost predicate SameElsewhere(t1: Reg, m: Machine, m': Machine)
    requires MachineOk(m) && MachineOk(m')
  {
    && (forall r: Reg | r != T0 && r != t1 && r != SP :: m'.regs[r] == m.regs[r])
    && (forall a: int | !(m.regs[SP] - NESTED_BYTES <= a < m.regs[SP]) :: Load(m'.mem, a) == Load(m.mem, a))
  }

  lemma Entered(t1: Reg, m: Machine)
    requires MachineOk(m) && t1 !in {0, T0, SP} && m.regs[SP] >= NESTED_BYTES
    ensures var m' := Enter(t1, m);
            && m'.mie && m'.level == m.level
            && m'.regs[SP] == m.regs[SP] - 8
            && Load(m'.mem, m'.regs[SP]) == EncodeCause(m.mcause)
            && Load(m'.mem, m'.regs[SP] + 4) == m.mepc
            && SameElsewhere(t1, m, m')
  {
    WrapSmall(m.regs[SP] - NESTED_BYTES);
    WrapSmall(m.regs[SP] - NESTED_BYTES + 4);
  }

  lemma WrapSmall(x: int)
    requires 0 <= x < WORD
    ensures Wrap(x) == x
  {
  }

  /** `sp` and the two words at it are the same. */
  ghost predicate WordsKept(m: Machine, m': Machine)
    requires MachineOk(m) && MachineOk(m')
  {
    var sp: int := m.regs[SP];
    m'.regs[SP] == sp && Load(m'.mem, sp) == Load(m.mem, sp) && Load(m'.mem, sp + 4) == Load(m.mem, sp + 4)
  }

  /** The state of the handled interrupt is as it was, interrupts are off, and otherwise only the
      two temporaries differ from the state `after` the closure. */
  ghost predicate TrapStateRestored(t1: Reg, before: Machine, after: Machine, end: Machine)
    requires MachineOk(before) && MachineOk(after) && MachineOk(end)
  {
    && end.mcause == before.mcause && end.mepc == before.mepc
    && !end.mie && end.level == after.level
    && end.regs[SP] == before.regs[SP]
    && end.mem == after.mem
    && (forall r: Reg | r != T0 && r != t1 && r != SP :: end.regs[r] == after.regs[r])
  }

  /** However the closure leaves the CSRs: if it comes back with its `sp` and the two words,
      `nested` restores the trap state. */
  lemma NestedRestoresTrapState(t1: Reg, before: Machine, after: Machine)
    requires MachineOk(before) && MachineOk(after)
    requires t1 !in {0, T0, SP} && before.regs[SP] >= NESTED_BYTES && before.mepc % 2 == 0
    requires WordsKept(Enter(t1, before), after)
    ensures TrapStateRestored(t1, before, after, Leave(t1, after))
    ensures Enter(t1, before).mie && SameElsewhere(t1, before, Enter(t1, before))
  {
    Entered(t1, before);
    RestoredFromWords(t1, before, after);
  }

  lemma RestoredFromWords(t1: Reg, before: Machine, after: Machine)
    requires MachineOk(before) && MachineOk(after)
    requires t1 !in {0, T0, SP} && before.regs[SP] >= NESTED_BYTES && before.mepc % 2 == 0
    requires after.regs[SP] == before.regs[SP] - NESTED_BYTES
    requires Load(after.mem, after.regs[SP]) == EncodeCause(before.mcause)
    requires Load(after.mem, before.regs[SP] - 4) == before.mepc
    ensures TrapStateRestored(t1, before, after, Leave(t1, after))
  {
    CauseRoundTrip(before.mcause);
    Left(t1, after);
  }

  lemma Left(t1: Reg, m: Machine)
    requires MachineOk(m) && t1 !in {0, T0, SP} && m.regs[SP] + NESTED_BYTES < WORD
    ensures var m', epc := Leave(t1, m), Load(m.mem, m.regs[SP] + 4);
            && !m'.mie && m'.level == m.level && m'.mem == m.mem
            && m'.mcause == DecodeCause(Load(m.mem, m.regs[SP]))
            && m'.mepc == epc - epc % 2
            && m'.regs[SP] == m.regs[SP] + NESTED_BYTES
            && (forall r: Reg | r != T0 && r != t1 && r != SP :: m'.regs[r] == m.regs[r])
  {
    WrapSmall(m.regs[SP]);
    WrapSmall(m.regs[SP] + 4);
    WrapSmall(m.regs[SP] + NESTED_BYTES);
  }

  // ---------- In a run, with the closure preempted ----------

  /** The handler has not left the execution that began with `base`. */
  predicate Grown(ctl: Control, base: seq<View>) {
    match ctl
    case Body(trace) => base <= trace
    case At(p) => p >= RESUME
  }

  lemma StepGrows(img: Image, s: System, e: Event, s': System, x: nat, base: seq<View>)
    requires Running(s) && Step(img, s, e, s') && 0 < x < |s.acts| && x < |s'.acts|
    requires s.acts[x].Trap? && Grown(s.acts[x].ctl, base)
    ensures s'.acts[x].Trap? && s'.acts[x].ctx == s.acts[x].ctx && Grown(s'.acts[x].ctl, base)
  {
    if x < |s.acts| - 1 {
      assert Below(s)[x] == s.acts[x];
    } else {
      assert s.acts[x] == Top(s);
    }
  }

  /** The activation at place `x` of the stack lives through states `i` to `k`. */
  ghost predicate Alive(states: seq<System>, x: nat, i: nat, k: nat)
    requires i <= k < |states|
  {
    forall n | i <= n <= k :: x < |states[n].acts|
  }

  lemma {:induction false} RunGrows(img: Image, states: seq<System>, events: seq<Event>, x: nat, i: nat, k: nat)
    requires Run(img, states, events) && i <= k < |states| && x > 0 && Alive(states, x, i, k)
    requires states[i].acts[x].Trap? && states[i].acts[x].ctl.Body?
    ensures states[k].acts[x].Trap? && states[k].acts[x].ctx == states[i].acts[x].ctx
    ensures Grown(states[k].acts[x].ctl, states[i].acts[x].ctl.trace)
  {
    if k > i {
      RunGrows(img, states, events, x, i, k - 1);
      assert EventAt(img, states, events, k - 1);
      StepGrows(img, states[k - 1], events[k - 1], states[k], x, states[i].acts[x].ctl.trace);
    }
  }

  /** No view strictly inside the trace is at `ret`. */
  ghost predicate OnlyEndsAt(trace: seq<View>, ret: Word) {
    && |trace| > 1 && trace[|trace| - 1].pc == ret
    && forall n | 0 < n < |trace| - 1 :: trace[n].pc != ret
  }

  /** The calling convention for the closure, started with view `start` and followed by the
      code at `ret`, as a statement about uninterrupted executions only. */
  ghost predicate ClosureConvention(step: (View, View) -> bool, top: int, start: View, ret: Word) {
    forall trace: seq<View> {:trigger Uninterrupted(step, top, trace)} ::
      Uninterrupted(step, top, trace) && trace[0] == start && OnlyEndsAt(trace, ret)
      ==> StackOf(top, start, trace[|trace| - 1])
  }

  ghost predicate StackOf(top: int, first: View, last: View) {
    && ViewOk(top, first) && ViewOk(top, last)
    && last.regs[SP] == first.regs[SP]
    && forall a: int | first.regs[SP] <= a < top :: last.stack[a] == first.stack[a]
  }

  /** What an execution has added to an earlier part of it. */
  lemma Continuation(step: (View, View) -> bool, top: int, before: seq<View>, after: seq<View>)
    requires Uninterrupted(step, top, after) && 0 < |before| && before <= after
    ensures var trace := after[|before| - 1..];
            && Uninterrupted(step, top, trace)
            && trace[0] == before[|before| - 1] && trace[|trace| - 1] == after[|after| - 1]
  {
    var n := |before| - 1;
    assert after[n] == before[n];
    forall k: nat | k < |after[n..]| - 1 ensures StepAt(step, after[n..], k) {
      assert StepAt(step, after, n + k);
    }
  }

  predicate InHandler(s: System)
    requires Running(s)
  {
    Top(s).Trap? && Top(s).ctl.Body?
  }

  lemma HandlerViews(img: Image, states: seq<System>, events: seq<Event>, i: nat)
    requires ImageOk(img) && Run(img, states, events) && i < |states|
    requires Running(states[i]) && InHandler(states[i])
    ensures var trace := Top(states[i]).ctl.trace;
            && Uninterrupted(img.body(Top(states[i]).ctx.irq), img.top, trace)
            && trace[|trace| - 1] == ViewOf(img.top, states[i].m)
  {
    RunKeepsInv(img, states, events, i);
    ActInvAt(img, states[i], |states[i].acts| - 1);
  }

  lemma SameHandler(img: Image, states: seq<System>, events: seq<Event>, i: nat, j: nat)
    requires Run(img, states, events) && i <= j < |states|
    requires Running(states[i]) && Running(states[j]) && InHandler(states[i]) && InHandler(states[j])
    requires |states[i].acts| == |states[j].acts| && Alive(states, |states[i].acts| - 1, i, j)
    ensures Top(states[j]).ctx == Top(states[i]).ctx
    ensures Top(states[i]).ctl.trace <= Top(states[j]).ctl.trace
  {
    RunGrows(img, states, events, |states[i].acts| - 1, i, j);
  }

  /** The running handler's views from state `i` to state `j` are an uninterrupted execution. */
  lemma ClosureTrace(img: Image, states: seq<System>, events: seq<Event>, i: nat, j: nat) returns (trace: seq<View>)
    requires ImageOk(img) && Run(img, states, events) && i <= j < |states|
    requires Running(states[i]) && Running(states[j]) && InHandler(states[i]) && InHandler(states[j])
    requires |states[i].acts| == |states[j].acts| && Alive(states, |states[i].acts| - 1, i, j)
    ensures 0 < |Top(states[i]).ctl.trace| <= |Top(states[j]).ctl.trace|
    ensures trace == Top(states[j]).ctl.trace[|Top(states[i]).ctl.trace| - 1..]
    ensures Uninterrupted(img.body(Top(states[i]).ctx.irq), img.top, trace)
    ensures trace[0] == ViewOf(img.top, states[i].m) && trace[|trace| - 1] == ViewOf(img.top, states[j].m)
  {
    HandlerViews(img, states, events, i);
    HandlerViews(img, states, events, j);
    SameHandler(img, states, events, i, j);
    var a := Top(states[i]);
    Continuation(img.body(a.ctx.irq), img.top, a.ctl.trace, Top(states[j]).ctl.trace);
    trace := Top(states[j]).ctl.trace[|a.ctl.trace| - 1..];
  }

  /** While a handler runs, the words at its `sp` are on the stack. */
  lemma OnStack(img: Image, states: seq<System>, events: seq<Event>, i: nat)
    requires ImageOk(img) && Run(img, states, events) && i < |states|
    requires Running(states[i]) && InHandler(states[i])
    ensures Sp(states[i].m) + FRAME_BYTES <= img.top
  {
    RunKeepsInv(img, states, events, i);
    ActInvAt(img, states[i], |states[i].acts| - 1);
    BodyFrame(img, Top(states[i]).ctx, Top(states[i]).ctl.trace, states[i].m);
  }

  /** The two words survive the closure, and everything that preempts it. */
  lemma WordsSurvive(img: Image, states: seq<System>, events: seq<Event>, i: nat, j: nat, ret: Word)
    requires ImageOk(img) && Run(img, states, events) && i < j < |states|
    requires Running(states[i]) && Running(states[j]) && InHandler(states[i]) && InHandler(states[j])
    requires ClosureRuns(img, states, i, j, ret)
    ensures WordsKept(states[i].m, states[j].m)
  {
    var m, m' := states[i].m, states[j].m;
    var trace := ClosureTrace(img, states, events, i, j);
    OnStack(img, states, events, i);
    assert StackOf(img.top, trace[0], trace[|trace| - 1]);
    var first, last := ViewOf(img.top, m), ViewOf(img.top, m');
    forall a: int | Sp(m) <= a < img.top ensures Load(m'.mem, a) == Load(m.mem, a) {
      assert last.stack[a] == first.stack[a];
    }
  }

  /** The handler running in state `i` starts the closure there and is back at `ret` for the
      first time in state `j`; in between it may be preempted any number of times. */
  ghost predicate ClosureRuns(img: Image, states: seq<System>, i: nat, j: nat, ret: Word)
    requires i < j < |states| && Running(states[i]) && Running(states[j])
    requires InHandler(states[i]) && InHandler(states[j])
  {
    var before, after := Top(states[i]).ctl.trace, Top(states[j]).ctl.trace;
    && |states[i].acts| == |states[j].acts| && Alive(states, |states[i].acts| - 1, i, j)
    && (0 < |before| <= |after| ==> OnlyEndsAt(after[|before| - 1..], ret))
    && ClosureConvention(img.body(Top(states[i]).ctx.irq), img.top, ViewOf(img.top, states[i].m), ret)
  }

  /**
   `nested` in a handler of any run: whatever interrupts are taken during the closure, to any
   depth, the handler gets back the `mcause`, `mepc` and `sp` it had before.
   */
  lemma NestedInRun(img: Image, states: seq<System>, events: seq<Event>, i: nat, j: nat, ret: Word,
                    t1: Reg, before: Machine)
    requires ImageOk(img) && Run(img, states, events) && i < j < |states|
    requires Running(states[i]) && Running(states[j]) && InHandler(states[i]) && InHandler(states[j])
    requires ClosureRuns(img, states, i, j, ret)
    requires MachineOk(before) && before.mepc % 2 == 0 && before.regs[SP] >= NESTED_BYTES && t1 !in {0, T0, SP}
    requires states[i].m == Enter(t1, before)
    ensures TrapStateRestored(t1, before, states[j].m, Leave(t1, states[j].m))
  {
    WordsSurvive(img, states, events, i, j, ret);
    NestedRestoresTrapState(t1, before, states[j].m);
  }
}
