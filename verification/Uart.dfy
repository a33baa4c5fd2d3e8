/** The UART driver as a whole: device, ring buffers, pattern windows and interrupt handler. */
module Uart {
  import opened Bytes
  import opened CircularBuffer
  import opened PatternBuffer
  import opened PacketStream
  import T = UartTx

  /** What the device does at an access: how many bytes have arrived, and which interrupt it would
      report. */
  datatype Report = Report(arrivals: nat, id: nat)

  /** An interrupt id that was read, and whether a received byte was waiting then. */
  datatype Reading = Reading(id: nat, waiting: bool)

  /** Transmit needs IER bit 1, and the receive interrupts a received byte; 0 stands for none. */
  function Reported(wish: nat, ier: Byte, waiting: bool): nat {
    if wish == T.ID_THRE && ier / 2 % 2 != 1 then 0
    else if (wish == 2 || wish == 6) && !waiting then 0
    else wish
  }

  function Wish(script: seq<Report>): nat {
    if script == [] then 0 else script[0].id
  }

  function Rest(script: seq<Report>): seq<Report> {
    if script == [] then [] else script[1..]
  }

  /** What the driver sees of a 16550 that may report anything at any time, with bytes arriving
      between the accesses. */
  class Uart16550 {
    var ier: Byte
    var line: seq<Byte>     // still to arrive
    var fifo: seq<Byte>     // received, not yet read
    var thr: seq<Byte>      // written for transmission, oldest first
    var script: seq<Report> // what the device will do
    ghost var readings: seq<Reading>

    /** The received bytes, now and later. */
    function Incoming(): seq<Byte>
      reads this
    {
      fifo + line
    }

    /** IIR bits 3:1. */
    method IntId() returns (id: nat)
      modifies this`line, this`fifo, this`script, this`readings
      ensures Incoming() == old(Incoming()) && old(fifo) <= fifo
      ensures id == Reported(Wish(old(script)), ier, fifo != []) && script == Rest(old(script))
      ensures readings == old(readings) + [Reading(id, fifo != [])]
    {
      if script != [] && script[0].arrivals <= |line| {
        var n := script[0].arrivals;
        fifo, line := fifo + line[..n], line[n..];
      }
      id := Reported(Wish(script), ier, fifo != []);
      script := Rest(script);
      readings := readings + [Reading(id, fifo != [])];
    }

    method WriteIer(value: Byte)
      modifies this`ier
      ensures ier == value
    {
      ier := value;
    }

    method WriteThr(value: Byte)
      modifies this`thr
      ensures thr == old(thr) + [value]
    {
      thr := thr + [value];
    }

    /** Reading an empty FIFO gives no received byte. */
    method ReadRbr() returns (value: Byte)
      modifies this`fifo
      ensures old(fifo) != [] ==> old(fifo) == [value] + fifo
      ensures old(fifo) == [] ==> fifo == []
    {
      if fifo == [] {
        value := 0;
      } else {
        value := fifo[0];
        fifo := fifo[1..];
      }
    }
  }

  lemma MoveOver(a: seq<Byte>, b: Byte, c: seq<Byte>)
    ensures a + ([b] + c) == a + [b] + c
  {
  }

  const PAYLOAD_LEN: nat := 3

  /** "ABC" */
  const PAYLOAD_PATTERN: seq<Byte> := [0x41, 0x42, 0x43]

  /** The three most recent payloads, padded with zeros. */
  function LastPayloads(recorded: seq<Byte>): (w: seq<Byte>)
    ensures |w| == PAYLOAD_LEN
  {
    var padded := Zeros(PAYLOAD_LEN) + recorded;
    padded[|padded| - PAYLOAD_LEN..]
  }

  lemma LastPayloadsSlides(recorded: seq<Byte>, p: Byte)
    ensures LastPayloads(recorded + [p]) == LastPayloads(recorded)[1..] + [p]
  {
  }

  lemma ReceiveOneMore(s: seq<Byte>, b: Byte)
    ensures ReceiveAll(s + [b]) == Receive(ReceiveAll(s), b)
  {
  }

  /** The byte completes a packet. */
  predicate Matches(stream: seq<Byte>, b: Byte) {
    ReceiveAll(stream).window[1..] + [b] == CHECKPATTERN
  }

  /** The two pattern windows: one over the received bytes, one over the packet payloads. */
  class PacketDetector {
    const check: PatternBuffer
    const payloads: PatternBuffer
    ghost var stream: seq<Byte>     // every byte received so far

    ghost predicate Valid()
      reads this, check, payloads, check.buffer, payloads.buffer, check.pattern, payloads.pattern
    {
      && check != payloads
      && check.buffer != null && payloads.buffer != null && check.buffer != payloads.buffer
      && {check.pattern, payloads.pattern} !! {check.buffer, payloads.buffer}
      && check.Valid() && payloads.Valid()
      && check.len == LEN && payloads.len == PAYLOAD_LEN
      && check.Sought() == CHECKPATTERN && payloads.Sought() == PAYLOAD_PATTERN
      && check.Window() == ReceiveAll(stream).window
      && payloads.Window() == LastPayloads(ReceiveAll(stream).recorded)
    }

    ghost function Arrays(): set<object?> {
      {check.buffer, payloads.buffer, check.pattern, payloads.pattern}
    }

    /** The static initial state. */
    constructor ()
      ensures Valid() && stream == []
      ensures fresh(check) && fresh(payloads) && fresh(check.buffer) && fresh(payloads.buffer)
    {
      var window := new Byte[6](_ => 0);
      var pattern := new Byte[] [0x42, 0x55, 0x48, 0x43, 0x4F, 0x53];   // 'B', 'U', 'H', 'C', 'O', 'S'
      check := new PatternBuffer.Init(window, 6, pattern);
      var payloadWindow := new Byte[3](_ => 0);
      var payloadPattern := new Byte[] [0x43, 0x42, 0x41];              // 'C', 'B', 'A'
      payloads := new PatternBuffer.Init(payloadWindow, 3, payloadPattern);
      stream := [];
      new;
      assert pattern[..6] == [0x42, 0x55, 0x48, 0x43, 0x4F, 0x53] && payloadPattern[..3] == [0x43, 0x42, 0x41];
      assert check.Sought() == CHECKPATTERN && payloads.Sought() == PAYLOAD_PATTERN;
      assert window[..6] == Zeros(6) && payloadWindow[..3] == Zeros(3);
      assert check.Window() == Zeros(6);
      assert payloads.Window() == Zeros(3);
    }

    /** The condition main code waits for: the last three packets of the stream, whatever lies
        between them, carried "A", "B" and "C". */
    method PollPayload() returns (r: bool)
      requires Valid()
      ensures r <==> LastPayloads(Payloads(stream)) == PAYLOAD_PATTERN
    {
      PayloadWindowShowsLastPackets(this);
      r := payloads.CheckPattern();
    }

    /** One received byte. */
    method Take(data: Byte) returns (matched: bool)
      requires Valid()
      modifies this`stream
      modifies check`payload, check`tail, check`head, check`dataCount, check.buffer
      modifies payloads`payload, payloads`tail, payloads`head, payloads`dataCount, payloads.buffer
      ensures Valid() && stream == old(stream) + [data]
      ensures matched <==> Matches(old(stream), data)
    {
      ghost var before := ReceiveAll(stream);
      ReceiveOneMore(stream, data);
      stream := stream + [data];
      check.Push(data);
      matched := check.CheckPattern();
      if matched {
        LastPayloadsSlides(before.recorded, check.payload);
        payloads.Push(check.payload);
        check.ResetBuffer();
      }
    }
  }

  lemma PayloadPatternSpells()
    ensures Spells(PAYLOAD_PATTERN, "ABC")
  {
  }

  /** What main code polls: the window of payloads shows those of the last three packets of
      the whole stream. */
  lemma PayloadWindowShowsLastPackets(d: PacketDetector)
    requires d.Valid()
    ensures d.payloads.Window() == LastPayloads(Payloads(d.stream))
  {
    RecordsEveryPacket(d.stream);
  }

  /** The condition of the receive loop over the readings it makes. */
  predicate Checked(full: bool, read: seq<Reading>, r: bool) {
    if full then read == [] && !r
    else if |read| == 1 then read[0].id == 0x2 && r
    else |read| == 2 && read[0].id != 0x2 && (r <==> read[1].id == 0x6)
  }

  /** The readings are what the device had in store. */
  predicate FromScript(script: seq<Report>, ier: Byte, read: seq<Reading>) {
    && (|read| > 0 ==> read[0].id == Reported(Wish(script), ier, read[0].waiting))
    && (|read| > 1 ==> read[1].id == Reported(Wish(Rest(script)), ier, read[1].waiting))
  }

  /** The last two readings reported no received byte to the loop; `waiting` as of now. */
  predicate NoneReported(readings: seq<Reading>, waiting: bool) {
    var n := |readings|;
    && n >= 2
    && readings[n - 2].id != 0x2 && readings[n - 1].id != 0x6
    && readings[n - 1].waiting == waiting
    && (readings[n - 1].id == 0x2 ==> waiting)
  }

  /** The device reports a receive interrupt whenever a received byte is waiting. */
  predicate Prompt(r: Reading) {
    r.waiting ==> r.id in {0x2, 0x6}
  }

  /** With such a device nothing is left when the loop ends, but in one case, and exactly then: the
      last reading was the 2 of a filled FIFO, after a 6 or after nothing had been waiting. */
  lemma NothingLeftUnlessFilling(readings: seq<Reading>, waiting: bool)
    requires NoneReported(readings, waiting)
    requires Prompt(readings[|readings| - 1]) && Prompt(readings[|readings| - 2])
    ensures waiting <==> readings[|readings| - 1].id == 0x2
    ensures readings[|readings| - 2].waiting ==> readings[|readings| - 2].id == 0x6
  {
  }

  /** What becomes of the debug ring when a byte is queued, twice if it completes a packet. */
  function Logged(ring: seq<Byte>, size: Byte, b: Byte, twice: bool): seq<Byte> {
    var once := Pushed(ring, size, b);
    if twice then Pushed(once, size, b) else once
  }

  function Pushed(ring: seq<Byte>, size: Byte, b: Byte): seq<Byte> {
    if |ring| < size - 1 then ring + [b] else []
  }

  class UartDriver {
    const uart: Uart16550
    const tx: CircularBuffer
    const rx: CircularBuffer
    const detector: PacketDetector

    ghost predicate Valid()
      reads this, tx, rx, detector, detector.check, detector.payloads
      reads detector.check.buffer, detector.payloads.buffer, detector.check.pattern, detector.payloads.pattern
    {
      && tx != rx
      && tx.buffer != null && rx.buffer != null && tx.buffer != rx.buffer
      && tx.Valid() && rx.Valid() && detector.Valid()
      && tx.buffer !in detector.Arrays()
      && rx.buffer !in detector.Arrays()
    }

    /** The transmit side in the terms of the interleaving model. */
    ghost function TxState(): T.Tx
      reads uart, tx, tx.buffer
      requires tx.buffer != null && tx.Valid()
    {
      T.Tx(tx.Slots(), tx.head, tx.tail, uart.ier, T.Idle, 0, 0, uart.thr, [], 0)
    }

    constructor (tx: CircularBuffer, rx: CircularBuffer, detector: PacketDetector)
      requires tx != rx && tx.Valid() && rx.Valid() && detector.Valid()
      requires tx.buffer != null && rx.buffer != null && tx.buffer != rx.buffer
      requires tx.buffer !in detector.Arrays()
      requires rx.buffer !in detector.Arrays()
      ensures Valid()
      ensures this.tx == tx && this.rx == rx && this.detector == detector
    {
      this.uart := new Uart16550;
      this.tx := tx;
      this.rx := rx;
      this.detector := detector;
    }

    method StartTx()
      requires tx.buffer != null && tx.Valid()
      modifies tx`tail, uart`thr
      ensures tx.Valid()
      ensures if old(tx.Contents()) == []
              then tx.tail == old(tx.tail) && uart.thr == old(uart.thr)
              else uart.thr == old(uart.thr) + [tx.Slots()[old(tx.tail)]]
                   && tx.tail == Succ(old(tx.tail), tx.size)
    {
      var empty := tx.Empty();
      if !empty {
        var data := tx.Pop();
        uart.WriteThr(data);
      }
    }

    /** The transmit branch of the handler. */
    method Transmit()
      requires Valid() && uart.ier / 2 % 2 == 1
      modifies uart`ier, uart`thr, tx`tail
      ensures Valid()
      ensures TxState() == T.HandlerStep(old(TxState()), T.ID_THRE)
    {
      uart.WriteIer(T.IER_NONE);
      var empty := tx.Empty();
      if !empty {
        StartTx();
      }
    }

    predicate RingFull()
      reads this, rx, rx.buffer
      requires rx.buffer != null && rx.Valid()
    {
      |rx.Contents()| == rx.size - 1
    }

    /** A receive interrupt in the first or, failing that, the second reading. */
    method ReceiveReported() returns (r: bool, ghost read: seq<Reading>)
      modifies uart`line, uart`fifo, uart`script, uart`readings
      ensures uart.Incoming() == old(uart.Incoming()) && old(uart.fifo) <= uart.fifo
      ensures uart.readings == old(uart.readings) + read
      ensures Checked(false, read, r) && FromScript(old(uart.script), uart.ier, read)
      ensures read[|read| - 1].waiting == (uart.fifo != [])
      ensures if r then uart.fifo != [] else NoneReported(uart.readings, uart.fifo != [])
    {
      var uartIntId := uart.IntId();
      read := [Reading(uartIntId, uart.fifo != [])];
      if uartIntId == 0x2 {
        r := true;
      } else {
        uartIntId := uart.IntId();
        read := read + [Reading(uartIntId, uart.fifo != [])];
        r := uartIntId == 0x6;
      }
    }

    /** Whether the receive loop goes on: room in the debug ring, and a receive interrupt. */
    method MoreReceived() returns (r: bool, ghost read: seq<Reading>)
      requires Valid()
      modifies uart`line, uart`fifo, uart`script, uart`readings
      ensures Valid()
      ensures uart.Incoming() == old(uart.Incoming()) && old(uart.fifo) <= uart.fifo
      ensures uart.readings == old(uart.readings) + read
      ensures Checked(RingFull(), read, r) && FromScript(old(uart.script), uart.ier, read)
      ensures if r then uart.fifo != [] else Exhausted()
    {
      r, read := false, [];
      var full := rx.Full();
      if !full {
        r, read := ReceiveReported();
      }
    }

    /** The `6` of a receive timeout followed by the `2` of a filled FIFO ends the loop although
        a byte is waiting and the device has reported a receive interrupt both times. */
    method TimeoutThenData(b: Byte) returns (more: bool)
      requires Valid() && !RingFull() && uart.fifo == [b] && uart.line == []
      requires uart.script == [Report(0, 6), Report(0, 2)]
      modifies uart`line, uart`fifo, uart`script, uart`readings
      ensures !more && uart.fifo == [b]
    {
      ghost var read;
      more, read := MoreReceived();
      assert |uart.Incoming()| == 1;
    }

    /** One turn of the receive loop. A matching byte is queued twice for debugging. */
    method ReceiveByte() returns (ghost b: Byte)
      requires Valid() && uart.fifo != []
      modifies uart`fifo, rx`head, rx.buffer
      modifies detector, detector.check, detector.check.buffer
      modifies detector.payloads, detector.payloads.buffer
      ensures Valid()
      ensures old(uart.fifo) == [b] + uart.fifo
      ensures detector.stream == old(detector.stream) + [b]
      ensures rx.Contents() == Logged(old(rx.Contents()), rx.size, b, Matches(old(detector.stream), b))
    {
      var rxData := uart.ReadRbr();
      b := rxData;
      Log(rxData);
      var matched := Detect(rxData);
      if matched {
        Log(rxData);
      }
    }

    /** Queues a received byte for debugging. */
    method Log(data: Byte)
      requires Valid()
      modifies rx`head, rx.buffer
      ensures Valid()
      ensures rx.Contents() == Pushed(old(rx.Contents()), rx.size, data)
    {
      rx.Push(data);
    }

    method Detect(data: Byte) returns (matched: bool)
      requires Valid()
      modifies detector, detector.check, detector.check.buffer
      modifies detector.payloads, detector.payloads.buffer
      ensures Valid()
      ensures detector.stream == old(detector.stream) + [data]
      ensures matched <==> Matches(old(detector.stream), data)
      ensures rx.Contents() == old(rx.Contents())
    {
      matched := detector.Take(data);
    }

    method ReceiveTurn() returns (ghost b: Byte, more: bool)
      requires Valid() && uart.fifo != []
      modifies uart`line, uart`fifo, uart`script, uart`readings, rx`head, rx.buffer
      modifies detector, detector.check, detector.check.buffer
      modifies detector.payloads, detector.payloads.buffer
      ensures Valid()
      ensures old(uart.Incoming()) == [b] + uart.Incoming()
      ensures detector.stream == old(detector.stream) + [b]
      ensures if more then uart.fifo != [] else Exhausted()
    {
      ghost var line := uart.line;
      b := ReceiveByte();
      assert uart.line == line;
      more := ReceiveNext();
    }

    method ReceiveNext() returns (more: bool)
      requires Valid()
      modifies uart`line, uart`fifo, uart`script, uart`readings
      ensures Valid()
      ensures uart.Incoming() == old(uart.Incoming())
      ensures if more then uart.fifo != [] else Exhausted()
    {
      ghost var read;
      more, read := MoreReceived();
    }

    /** Why the receive loop ends: the debug ring is full, or the last reading but one was not 2
        and the last one not 6. */
    ghost predicate Exhausted()
      reads this, uart, rx, rx.buffer
      requires rx.buffer != null && rx.Valid()
    {
      RingFull() || NoneReported(uart.readings, uart.fifo != [])
    }

    /** The loop ends for every finite input; what it takes is a prefix of what arrives, and it
        does not stop before the ring is full or the device has reported no received byte. */
    method ReceiveLoop() returns (ghost consumed: seq<Byte>)
      requires Valid()
      modifies uart`line, uart`fifo, uart`script, uart`readings, rx`head, rx.buffer
      modifies detector, detector.check, detector.check.buffer
      modifies detector.payloads, detector.payloads.buffer
      ensures Valid()
      ensures old(uart.Incoming()) == consumed + uart.Incoming()
      ensures detector.stream == old(detector.stream) + consumed
      ensures Exhausted()
    {
      ghost var incoming, stream := uart.Incoming(), detector.stream;
      consumed := [];
      var more := ReceiveNext();
      while more
        invariant Valid()
        invariant incoming == consumed + uart.Incoming()
        invariant detector.stream == stream + consumed
        invariant if more then uart.fifo != [] else Exhausted()
        decreases |uart.Incoming()|, more
      {
        ghost var b;
        b, more := ReceiveTurn();
        MoveOver(consumed, b, uart.Incoming());
        consumed := consumed + [b];
      }
    }

    /**
     One activation. A transmit interrupt disarms itself and sends the oldest queued byte,
     as in the interleaving model. Any other interrupt takes received bytes in order until
     the debug ring is full or the device reports no more of them, and never touches the
     transmit side.
     */
    method UartHandler() returns (ghost id: nat, ghost consumed: seq<Byte>)
      requires Valid()
      modifies uart, tx`tail, rx`head, rx.buffer
      modifies detector, detector.check, detector.check.buffer
      modifies detector.payloads, detector.payloads.buffer
      ensures Valid()
      ensures exists waiting :: id == Reported(Wish(old(uart.script)), old(uart.ier), waiting)
      ensures T.Reportable(old(TxState()), id)
      ensures TxState() == T.HandlerStep(old(TxState()), id)
      ensures old(uart.Incoming()) == consumed + uart.Incoming()
      ensures detector.stream == old(detector.stream) + consumed
      ensures if id == T.ID_THRE then consumed == [] else Exhausted()
    {
      consumed := [];
      var uartIntId := uart.IntId();
      id := uartIntId;
      if uartIntId == 0x1 {
        Transmit();
      } else {
        consumed := ReceiveLoop();
      }
    }
  }
}
