/**
 The OBI memory: a handshake state machine, address translation and a byte-writable block RAM
 with a registered output. A read in the same cycle as a write to the word returns the old
 word: the output register samples the memory before the write lands.
 */
module ObiSram {
  import opened Arith
  import opened Bytes

  // ---------- Handshake ----------

  datatype Handshake = IDLE | ACK | VALID

  function Gnt(s: Handshake, req: bool): bool {
    req && !s.VALID?
  }

  function Rvalid(s: Handshake): bool {
    !s.IDLE?
  }

  function NextHandshake(s: Handshake, req: bool): Handshake {
    if req && !s.VALID? then ACK else IDLE
  }

  class ObiHandshakeFsm {
    var state: Handshake

    constructor ()
      ensures state == IDLE
    {
      state := IDLE;
    }

    method Clock(req: bool) returns (gnt: bool, rvalid: bool)
      modifies this
      ensures gnt == Gnt(old(state), req) && rvalid == Rvalid(old(state))
      ensures state == NextHandshake(old(state), req)
    {
      var next := IDLE;
      gnt, rvalid := false, false;
      match state {
        case IDLE =>
          if req { gnt, next := true, ACK; }
        case ACK =>
          rvalid := true;
          if req { gnt, next := true, ACK; } else { next := IDLE; }
        case VALID =>
          rvalid := true;
          next := IDLE;
      }
      state := next;
    }
  }

  // ---------- Block RAM ----------

  const LANES: nat := 4

  /** A packed word, lane 0 first. */
  type Word = w: seq<Byte> | |w| == LANES witness [0, 0, 0, 0]

  const ZERO: Word := [0, 0, 0, 0]

  /** The word with the enabled lanes replaced. */
  function Merge(before: Word, wdata: Word, bwe: seq<bool>): (w: Word)
    requires |bwe| == LANES
    ensures forall i | 0 <= i < LANES :: w[i] == if bwe[i] then wdata[i] else before[i]
  {
    seq(LANES, i requires 0 <= i < LANES => if bwe[i] then wdata[i] else before[i])
  }

  function NextWords(words: seq<Word>, req: bool, addr: nat, wdata: Word, bwe: seq<bool>): (w: seq<Word>)
    requires (req ==> addr < |words|) && |bwe| == LANES
    ensures |w| == |words|
  {
    if req then words[addr := Merge(words[addr], wdata, bwe)] else words
  }

  class XilinxSpBram {
    const words: array<Word>
    var rdata: Word

    constructor (depth: nat)
      ensures words.Length == depth && fresh(words) && rdata == ZERO
      ensures forall i | 0 <= i < depth :: words[i] == ZERO
    {
      words := new Word[depth](_ => ZERO);
      rdata := ZERO;
    }

    method Clock(req: bool, addr: nat, wdata: Word, bwe: seq<bool>)
      requires (req ==> addr < words.Length) && |bwe| == LANES
      modifies this, words
      ensures words[..] == NextWords(old(words[..]), req, addr, wdata, bwe)
      ensures rdata == if req then old(words[addr]) else old(rdata)
    {
      if req {
        var sampled := words[addr];
        for i := 0 to LANES
          invariant forall j | 0 <= j < words.Length && j != addr :: words[j] == old(words[j])
          invariant forall j | 0 <= j < LANES ::
                      words[addr][j] == if j < i && bwe[j] then wdata[j] else old(words[addr])[j]
        {
          if bwe[i] {
            words[addr] := words[addr][i := wdata[i]];
          }
        }
        assert words[addr] == Merge(old(words[addr]), wdata, bwe);
        rdata := sampled;
      }
    }
  }

  // ---------- The bus interface ----------

  datatype Request = Request(req: bool, addr: nat, we: bool, be: seq<bool>, wdata: Word)

  /** `offset_addr[31:2]`, truncated to the memory's address width. */
  function SramAddr(addr: nat, base: nat, numWords: nat): nat
    requires addr < U32 && base < U32
  {
    (addr + U32 - base) % U32 / 4 % Pow2(Clog2(numWords))
  }

  function ByteEnables(r: Request): (bwe: seq<bool>)
    requires |r.be| == LANES
    ensures |bwe| == LANES && forall i | 0 <= i < LANES :: bwe[i] == (r.we && r.be[i])
  {
    if r.we then r.be else [false, false, false, false]
  }

  /** The address matters only while a request is made. */
  predicate InRange(r: Request, base: nat, numWords: nat) {
    && |r.be| == LANES
    && r.addr < U32
    && (r.req ==> base <= r.addr < base + 4 * numWords)
  }

  /** A memory below 4 GiB, of any size for which the address has at least one bit. */
  predicate Placed(base: nat, numWords: nat) {
    2 <= numWords && base + 4 * numWords <= U32
  }

  /**
   Inside the mapped range the translation is the word index of the address, for any size:
   the truncation to `$clog2(NumWords)` bits loses nothing.
   */
  lemma AddressTranslation(r: Request, base: nat, numWords: nat)
    requires Placed(base, numWords) && InRange(r, base, numWords) && r.req
    ensures base < U32 && SramAddr(r.addr, base, numWords) == WordIndex(r, base, numWords)
  {
    var offset := r.addr - base;
    DivMod(offset + U32, U32, 1, offset);
    Clog2Covers(numWords);
    DivMod(offset / 4, Pow2(Clog2(numWords)), 0, offset / 4);
  }

  datatype Regs = Regs(state: Handshake, words: seq<Word>, rdata: Word)

  /** The word of the memory that a request in range addresses. */
  function WordIndex(r: Request, base: nat, numWords: nat): (a: nat)
    requires InRange(r, base, numWords) && r.req
    ensures a < numWords
  {
    (r.addr - base) / 4
  }

  function Next(s: Regs, r: Request, base: nat): (s': Regs)
    requires InRange(r, base, |s.words|)
    ensures |s'.words| == |s.words|
  {
    var state := NextHandshake(s.state, r.req);
    if r.req then
      var a := WordIndex(r, base, |s.words|);
      Regs(state, NextWords(s.words, true, a, r.wdata, ByteEnables(r)), s.words[a])
    else
      s.(state := state)
  }

  class ObiSram {
    const base: nat
    const numWords: nat
    const fsm: ObiHandshakeFsm
    const sram: XilinxSpBram

    ghost predicate Valid()
      reads sram
    {
      Placed(base, numWords) && sram.words.Length == numWords
    }

    ghost function State(): Regs
      reads fsm, sram, sram.words
    {
      Regs(fsm.state, sram.words[..], sram.rdata)
    }

    constructor (base: nat, numWords: nat)
      requires Placed(base, numWords)
      ensures Valid() && this.base == base && this.numWords == numWords
      ensures State() == Reset(numWords)
    {
      this.base := base;
      this.numWords := numWords;
      fsm := new ObiHandshakeFsm();
      sram := new XilinxSpBram(numWords);
    }

    /** One clock cycle of the bus. */
    method Clock(r: Request) returns (gnt: bool, rvalid: bool)
      requires Valid() && InRange(r, base, numWords)
      modifies fsm, sram, sram.words
      ensures Valid()
      ensures State() == Next(old(State()), r, base)
      ensures gnt == Gnt(old(fsm.state), r.req) && rvalid == Rvalid(old(fsm.state))
    {
      if r.req {
        AddressTranslation(r, base, numWords);
      }
      gnt, rvalid := fsm.Clock(r.req);
      sram.Clock(r.req, SramAddr(r.addr, base, numWords), r.wdata, ByteEnables(r));
    }
  }

  // ---------- Refinement of a flat byte memory ----------

  function Reset(numWords: nat): Regs {
    Regs(IDLE, seq(numWords, _ => ZERO), ZERO)
  }

  predicate AllInRange(reqs: seq<Request>, base: nat, numWords: nat) {
    forall i | 0 <= i < |reqs| :: InRange(reqs[i], base, numWords)
  }

  function Run(numWords: nat, base: nat, reqs: seq<Request>): (s: Regs)
    requires AllInRange(reqs, base, numWords)
    ensures |s.words| == numWords
  {
    if reqs == [] then Reset(numWords)
    else
      var n := |reqs| - 1;
      Next(Run(numWords, base, reqs[..n]), reqs[n], base)
  }

  /** A flat memory: one byte per address offset. */
  function Store(mem: seq<Byte>, r: Request, base: nat): (mem': seq<Byte>)
    requires |mem| % 4 == 0 && InRange(r, base, |mem| / 4)
    ensures |mem'| == |mem|
  {
    if r.req && r.we then
      var word := (r.addr - base) / 4 * 4;
      seq(|mem|, i requires 0 <= i < |mem| =>
        if word <= i < word + 4 && r.be[i - word] then r.wdata[i - word] else mem[i])
    else mem
  }

  /** The memory after all requests, by the byte-enabled writes alone. */
  function Flat(numWords: nat, base: nat, reqs: seq<Request>): (mem: seq<Byte>)
    requires AllInRange(reqs, base, numWords)
    ensures |mem| == 4 * numWords
  {
    if reqs == [] then seq(4 * numWords, _ => 0)
    else
      var n := |reqs| - 1;
      Store(Flat(numWords, base, reqs[..n]), reqs[n], base)
  }

  /** The words hold the bytes of the flat memory. */
  ghost predicate Holds(words: seq<Word>, mem: seq<Byte>)
    requires |mem| == 4 * |words|
  {
    forall i: nat {:trigger mem[i]} :: i < |mem| ==> mem[i] == words[i / 4][i % 4]
  }

  lemma NextHolds(s: Regs, mem: seq<Byte>, r: Request, base: nat)
    requires |mem| == 4 * |s.words| && InRange(r, base, |s.words|) && Holds(s.words, mem)
    ensures Holds(Next(s, r, base).words, Store(mem, r, base))
  {
    var words, mem' := Next(s, r, base).words, Store(mem, r, base);
    forall i: nat | i < |mem'| ensures mem'[i] == words[i / 4][i % 4] {
      assert mem[i] == s.words[i / 4][i % 4];
    }
  }

  lemma {:induction false} NeverValid(numWords: nat, base: nat, reqs: seq<Request>)
    requires AllInRange(reqs, base, numWords)
    ensures !Run(numWords, base, reqs).state.VALID?
  {
  }

  lemma {:induction false} RunHoldsFlat(numWords: nat, base: nat, reqs: seq<Request>)
    requires AllInRange(reqs, base, numWords)
    ensures Holds(Run(numWords, base, reqs).words, Flat(numWords, base, reqs))
  {
    if reqs == [] {
      FreshHolds(numWords);
    } else {
      var n := |reqs| - 1;
      var s, mem := Run(numWords, base, reqs[..n]), Flat(numWords, base, reqs[..n]);
      RunHoldsFlat(numWords, base, reqs[..n]);
      NextHolds(s, mem, reqs[n], base);
    }
  }

  lemma FreshHolds(numWords: nat)
    ensures Holds(Reset(numWords).words, seq(4 * numWords, _ => 0))
  {
  }

  /** The word of the flat memory that an address falls into. */
  function LoadWord(mem: seq<Byte>, offset: nat): (w: Word)
    requires |mem| % 4 == 0 && offset < |mem|
  {
    mem[offset / 4 * 4..offset / 4 * 4 + 4]
  }

  lemma ReadRefined(words: seq<Word>, mem: seq<Byte>, offset: nat)
    requires |mem| == 4 * |words| && Holds(words, mem) && offset < |mem|
    ensures words[offset / 4] == LoadWord(mem, offset)
  {
  }

  /** One accepted request, from a state whose words hold `mem`. */
  lemma NextReads(s: Regs, mem: seq<Byte>, r: Request, base: nat)
    requires InRange(r, base, |s.words|)
    requires |mem| == 4 * |s.words| && Holds(s.words, mem) && !s.state.VALID?
    ensures Gnt(s.state, r.req) == r.req
    ensures Rvalid(Next(s, r, base).state) == r.req
    ensures r.req ==> Next(s, r, base).rdata == LoadWord(mem, r.addr - base)
  {
    if r.req {
      ReadRefined(s.words, mem, r.addr - base);
    }
  }

  /**
   For any request trace, cycle by cycle: after any `past`, a request is granted at once, its
   response comes in the next cycle and at no other time, and the response data are the
   bytes left by all earlier accepted writes, in order.
   */
  lemma SramIsFlatMemory(numWords: nat, base: nat, past: seq<Request>, r: Request)
    requires AllInRange(past, base, numWords) && InRange(r, base, numWords)
    ensures AllInRange(past + [r], base, numWords)
    ensures var now, next := Run(numWords, base, past), Run(numWords, base, past + [r]);
            && Gnt(now.state, r.req) == r.req
            && Rvalid(next.state) == r.req
            && (r.req ==> next.rdata == LoadWord(Flat(numWords, base, past), r.addr - base))
    ensures !Rvalid(Run(numWords, base, []).state)
  {
    RunHoldsFlat(numWords, base, past);
    NeverValid(numWords, base, past);
    assert (past + [r])[..|past|] == past;
    NextReads(Run(numWords, base, past), Flat(numWords, base, past), r, base);
  }
}
