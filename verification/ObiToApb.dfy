/**
 The OBI-to-APB bridge: a three-state machine that turns a held OBI request into an APB setup
 and access phase (AMBA APB specification, IHI 0024, chapter 4 "Operating States").
 */
module ObiToApb {

  datatype State = SETUP | ACCESS | HANDSHAKE

  /** What an OBI request carries. */
  datatype Payload = Payload(addr: nat, we: bool, wdata: nat, be: nat)

  /** The APB signals driven for a transfer. */
  datatype ApbBus = ApbBus(paddr: nat, pwrite: bool, pwdata: nat, pstrb: nat)

  /** One cycle of inputs: the OBI request and the APB ready signal. */
  datatype In = In(req: bool, payload: Payload, pready: bool)

  datatype Out = Out(psel: bool, penable: bool, bus: ApbBus, gnt: bool, rvalid: bool)

  function Output(s: State, i: In): Out {
    var p := i.payload;
    Out(i.req, s.ACCESS?, ApbBus(p.addr, p.we, p.wdata, p.be), s.ACCESS? && i.pready, s.HANDSHAKE?)
  }

  function Next(s: State, i: In): State {
    match s
    case SETUP => if i.req then ACCESS else SETUP
    case ACCESS => if i.pready then HANDSHAKE else ACCESS
    case HANDSHAKE => if i.req then ACCESS else SETUP
  }

  class ObiToApb {
    var state: State

    constructor ()
      ensures state == SETUP
    {
      state := SETUP;
    }

    /** The outputs of one cycle and the state register at its end. */
    method Clock(i: In) returns (o: Out)
      modifies this
      ensures o == Output(old(state), i) && state == Next(old(state), i)
    {
      var penable, gnt, rvalid, stateD := false, false, false, state;
      match state {
        case SETUP =>
          if i.req { stateD := ACCESS; }
        case ACCESS =>
          penable := true;
          gnt := i.pready;
          if i.pready { stateD := HANDSHAKE; }
        case HANDSHAKE =>
          rvalid := true;
          stateD := if i.req then ACCESS else SETUP;
      }
      var bus := ApbBus(i.payload.addr, i.payload.we, i.payload.wdata, i.payload.be);
      o := Out(i.req, penable, bus, gnt, rvalid);
      state := stateD;
    }
  }

  // ---------- Runs from reset ----------

  function StateAt(ins: seq<In>, t: nat): State
    requires t <= |ins|
  {
    if t == 0 then SETUP else Next(StateAt(ins, t - 1), ins[t - 1])
  }

  function OutAt(ins: seq<In>, t: nat): Out
    requires t < |ins|
  {
    Output(StateAt(ins, t), ins[t])
  }

  /** A request that is not granted in cycle `t` is repeated unchanged in the next. */
  predicate HeldAt(ins: seq<In>, t: nat)
    requires t + 1 < |ins|
  {
    ins[t].req && !OutAt(ins, t).gnt ==> ins[t + 1].req && ins[t + 1].payload == ins[t].payload
  }

  /** The OBI rule the bridge relies on. */
  ghost predicate Held(ins: seq<In>) {
    forall t: nat {:trigger HeldAt(ins, t)} :: t + 1 < |ins| ==> HeldAt(ins, t)
  }

  /** The bridge is in its access state only for a request that is still there. */
  lemma AccessHasRequest(ins: seq<In>, t: nat)
    requires Held(ins) && t < |ins| && StateAt(ins, t).ACCESS?
    ensures t > 0 && ins[t].req && ins[t - 1].req
    ensures !OutAt(ins, t - 1).gnt && ins[t].payload == ins[t - 1].payload
    decreases t
  {
    if t > 0 {
      assert HeldAt(ins, t - 1);
      if StateAt(ins, t - 1).ACCESS? {
        AccessHasRequest(ins, t - 1);
      }
    }
  }

  /** `s` is the setup cycle of the access phase that cycle `t` belongs to. */
  ghost predicate SetupOf(ins: seq<In>, s: nat, t: nat)
    requires s < t < |ins|
  {
    && OutAt(ins, s).psel && !OutAt(ins, s).penable
    && (forall i | s < i <= t :: OutAt(ins, i).psel && OutAt(ins, i).penable
                                 && OutAt(ins, i).bus == OutAt(ins, s).bus)
    && (forall i | s < i < t :: !ins[i].pready)
  }

  /** Every access cycle belongs to a phase that starts with a setup cycle, PSEL high and
      PENABLE low, with the same address, direction, data and strobes throughout. */
  lemma {:induction false} AccessFollowsSetup(ins: seq<In>, t: nat) returns (s: nat)
    requires Held(ins) && t < |ins| && OutAt(ins, t).penable
    ensures s < t && SetupOf(ins, s, t)
  {
    AccessHasRequest(ins, t);
    if OutAt(ins, t - 1).penable {
      s := AccessFollowsSetup(ins, t - 1);
    } else {
      s := t - 1;
    }
  }

  /** A grant is exactly a completed APB transfer, and is followed by exactly one response in
      the next cycle; there is no response without a grant. */
  lemma GrantIsTransfer(ins: seq<In>, t: nat)
    requires Held(ins) && t < |ins|
    ensures var o := OutAt(ins, t); o.gnt <==> o.psel && o.penable && ins[t].pready
    ensures OutAt(ins, t).rvalid <==> t > 0 && OutAt(ins, t - 1).gnt
    ensures OutAt(ins, t).gnt ==> !OutAt(ins, t).rvalid
  {
    if StateAt(ins, t).ACCESS? {
      AccessHasRequest(ins, t);
    }
  }

  function Grants(ins: seq<In>, n: nat): nat
    requires n <= |ins|
  {
    if n == 0 then 0 else Grants(ins, n - 1) + if OutAt(ins, n - 1).gnt then 1 else 0
  }

  function Responses(ins: seq<In>, n: nat): nat
    requires n <= |ins|
  {
    if n == 0 then 0 else Responses(ins, n - 1) + if OutAt(ins, n - 1).rvalid then 1 else 0
  }

  /** At most one transfer is outstanding, and only right after its grant. */
  lemma {:induction false} OneOutstanding(ins: seq<In>, n: nat)
    requires Held(ins) && n <= |ins|
    ensures Grants(ins, n) - Responses(ins, n) == if n > 0 && OutAt(ins, n - 1).gnt then 1 else 0
  {
    if n > 0 {
      OneOutstanding(ins, n - 1);
      GrantIsTransfer(ins, n - 1);
    }
  }

  /** A request that is not granted is granted in the first later cycle in which the slave is
      ready: the bridge itself adds no wait. */
  lemma {:induction false} GrantedWhenReady(ins: seq<In>, t: nat, s: nat)
    requires Held(ins) && t < s < |ins| && ins[t].req && !OutAt(ins, t).gnt
    requires ins[s].pready && forall i | t < i < s :: !ins[i].pready
    ensures OutAt(ins, s).gnt && ins[s].payload == ins[t].payload
    ensures forall i | t < i < s :: !OutAt(ins, i).gnt
  {
    StaysInAccess(ins, t, s);
  }

  lemma {:induction false} StaysInAccess(ins: seq<In>, t: nat, s: nat)
    requires Held(ins) && t < s < |ins| && ins[t].req && !OutAt(ins, t).gnt
    requires forall i | t < i < s :: !ins[i].pready
    ensures StateAt(ins, s).ACCESS? && ins[s].req && ins[s].payload == ins[t].payload
  {
    assert HeldAt(ins, s - 1);
    if s > t + 1 {
      StaysInAccess(ins, t, s - 1);
    }
  }

  // ---------- Transfers are requests ----------

  /** The transfer on the bus is the one that was requested. */
  predicate Carries(bus: ApbBus, p: Payload) {
    bus.paddr == p.addr && bus.pwrite == p.we && bus.pwdata == p.wdata && bus.pstrb == p.be
  }

  /** The APB transfers completed in the first `n` cycles: PSEL, PENABLE and PREADY high. */
  function Transfers(ins: seq<In>, n: nat): seq<ApbBus>
    requires n <= |ins|
  {
    if n == 0 then []
    else
      var o := OutAt(ins, n - 1);
      Transfers(ins, n - 1) + if o.psel && o.penable && ins[n - 1].pready then [o.bus] else []
  }

  /** The OBI requests granted in the first `n` cycles. */
  function Granted(ins: seq<In>, n: nat): seq<Payload>
    requires n <= |ins|
  {
    if n == 0 then []
    else Granted(ins, n - 1) + if ins[n - 1].req && OutAt(ins, n - 1).gnt then [ins[n - 1].payload] else []
  }

  /** The completed APB transfers are the granted OBI requests, in order and field by field. */
  lemma {:induction false} TransfersAreRequests(ins: seq<In>, n: nat)
    requires Held(ins) && n <= |ins|
    ensures |Transfers(ins, n)| == |Granted(ins, n)| == Grants(ins, n)
    ensures forall k | 0 <= k < |Granted(ins, n)| :: Carries(Transfers(ins, n)[k], Granted(ins, n)[k])
  {
    if n > 0 {
      TransfersAreRequests(ins, n - 1);
      GrantIsTransfer(ins, n - 1);
    }
  }

  /** The slave is selected exactly while there is a request; the setup cycle of a transfer and
      every cycle of its access phase carry the same request. */
  lemma PhaseCarriesRequest(ins: seq<In>, t: nat) returns (s: nat)
    requires Held(ins) && t < |ins| && OutAt(ins, t).penable
    ensures s < t && SetupOf(ins, s, t)
    ensures forall i | s <= i <= t :: ins[i].req && Carries(OutAt(ins, i).bus, ins[s].payload)
    ensures forall i | 0 <= i < |ins| :: OutAt(ins, i).psel <==> ins[i].req
  {
    s := AccessFollowsSetup(ins, t);
    assert Carries(OutAt(ins, s).bus, ins[s].payload);
    forall i | s <= i <= t ensures ins[i].req && OutAt(ins, i).bus == OutAt(ins, s).bus {
      assert OutAt(ins, i).psel;
    }
  }
}
