/** The TAP controller of IEEE 1149.1, clause 6.1, with the registers the debug transport uses. */
module JtagTap {
  import opened Bits
  import opened Dtm

  datatype TapState =
    | TestLogicReset | RunTestIdle
    | SelectDr | CaptureDr | ShiftDr | Exit1Dr | PauseDr | Exit2Dr | UpdateDr
    | SelectIr | CaptureIr | ShiftIr | Exit1Ir | PauseIr | Exit2Ir | UpdateIr

  function NextTap(s: TapState, tms: bool): TapState {
    match s
    case TestLogicReset => if tms then TestLogicReset else RunTestIdle
    case RunTestIdle => if tms then SelectDr else RunTestIdle
    case SelectDr => if tms then SelectIr else CaptureDr
    case CaptureDr => if tms then Exit1Dr else ShiftDr
    case ShiftDr => if tms then Exit1Dr else ShiftDr
    case Exit1Dr => if tms then UpdateDr else PauseDr
    case PauseDr => if tms then Exit2Dr else PauseDr
    case Exit2Dr => if tms then UpdateDr else ShiftDr
    case UpdateDr => if tms then SelectDr else RunTestIdle
    case SelectIr => if tms then TestLogicReset else CaptureIr
    case CaptureIr => if tms then Exit1Ir else ShiftIr
    case ShiftIr => if tms then Exit1Ir else ShiftIr
    case Exit1Ir => if tms then UpdateIr else PauseIr
    case PauseIr => if tms then Exit2Ir else PauseIr
    case Exit2Ir => if tms then UpdateIr else ShiftIr
    case UpdateIr => if tms then SelectDr else RunTestIdle
  }

  predicate InDr(s: TapState) {
    s.ShiftDr? || s.Exit1Dr? || s.PauseDr? || s.Exit2Dr? || s.UpdateDr?
  }

  predicate InIr(s: TapState) {
    s.ShiftIr? || s.Exit1Ir? || s.PauseIr? || s.Exit2Ir? || s.UpdateIr?
  }

  const IR_LENGTH: nat := 5
  const IDCODE: nat := 0x01
  const DTMCS: nat := 0x10
  const DMI: nat := 0x11

  /** Every other instruction selects the one-bit bypass register. */
  function DrLength(ir: nat): nat {
    if ir == IDCODE || ir == DTMCS then 32 else if ir == DMI then 41 else 1
  }

  /** One Update-DR: the selected instruction and the bits shifted in. */
  datatype Scan = Scan(ir: nat, bits: seq<bool>)

  /** `shift` is the shift register of the instruction or data path in use. */
  datatype Device = Device(tap: TapState, ir: nat, shift: seq<bool>, dtm: Dtm, updates: seq<Scan>)

  ghost predicate Ok(d: Device) {
    && d.ir < 32
    && (InDr(d.tap) ==> |d.shift| == DrLength(d.ir))
    && (InIr(d.tap) ==> |d.shift| == IR_LENGTH)
  }

  function CapturedBits(ir: nat, dtm: Dtm, idcode: Word32): (b: seq<bool>)
    ensures |b| == DrLength(ir)
  {
    if ir == IDCODE then ToBits(idcode, 32)
    else if ir == DTMCS then ToBits(Dtmcs(dtm), 32)
    else if ir == DMI then ToBits(Captured(dtm), 41)
    else [false]
  }

  function CaptureData(ir: nat, dtm: Dtm): Dtm {
    if ir == DMI then Capture(dtm) else dtm
  }

  function UpdateData(ir: nat, dtm: Dtm, bits: seq<bool>, dm: DebugModule): Dtm
    requires |bits| == DrLength(ir)
  {
    if ir == DTMCS then UpdateDtmcs(dtm, bits)
    else if ir == DMI then UpdateBits(dtm, bits, dm)
    else dtm
  }

  function Shifted(shift: seq<bool>, tdi: bool): seq<bool>
    requires shift != []
  {
    shift[1..] + [tdi]
  }

  /** What the controller's state does to the registers, before it changes. */
  function Act(d: Device, tdi: bool, idcode: Word32, dm: DebugModule): Device
    requires Ok(d)
  {
    match d.tap
    case TestLogicReset => d.(ir := IDCODE)
    case CaptureDr => d.(shift := CapturedBits(d.ir, d.dtm, idcode), dtm := CaptureData(d.ir, d.dtm))
    case ShiftDr => d.(shift := Shifted(d.shift, tdi))
    case UpdateDr => d.(dtm := UpdateData(d.ir, d.dtm, d.shift, dm), updates := d.updates + [Scan(d.ir, d.shift)])
    case CaptureIr => d.(shift := ToBits(1, IR_LENGTH))
    case ShiftIr => d.(shift := Shifted(d.shift, tdi))
    case UpdateIr => d.(ir := IrValue(d.shift))
    case _ => d
  }

  function IrValue(shift: seq<bool>): (ir: nat)
    requires |shift| == IR_LENGTH
    ensures ir < 32
  {
    ToBitsOfValue(shift);
    Value(shift)
  }

  /** One TCK cycle. */
  function Tick(d: Device, tms: bool, tdi: bool, idcode: Word32, dm: DebugModule): (d': Device)
    requires Ok(d)
    ensures Ok(d')
  {
    var e := Act(d.(dtm := Age(d.dtm, 1)), tdi, idcode, dm);
    e.(tap := NextTap(d.tap, tms))
  }

  /** The bit on TDO during a cycle. */
  predicate Tdo(d: Device) {
    (d.tap.ShiftDr? || d.tap.ShiftIr?) && d.shift != [] && d.shift[0]
  }

  /** Cycles with TMS high until Test-Logic-Reset. */
  function ToReset(s: TapState): (n: nat)
    ensures n <= 5
    decreases match s
      case TestLogicReset => 0 case SelectIr => 1 case SelectDr => 2 case RunTestIdle => 3
      case UpdateDr => 3 case UpdateIr => 3 case Exit1Dr => 4 case Exit2Dr => 4
      case Exit1Ir => 4 case Exit2Ir => 4 case _ => 5
  {
    if s.TestLogicReset? then 0 else 1 + ToReset(NextTap(s, true))
  }

  /** Update-DR cycles that lie ahead when TMS stays high. */
  function Ahead(s: TapState): nat {
    if InDr(s) || s.CaptureDr? then 1 else 0
  }

  /** TMS has been high for `i` cycles since `from`. */
  ghost predicate Climbed(from: Device, d: Device, i: nat) {
    && Ok(d)
    && ToReset(d.tap) <= (if i < 5 then 5 - i else 0)
    && (i >= 6 ==> d.ir == IDCODE)
    && from.updates <= d.updates
    && |d.updates| + Ahead(d.tap) <= |from.updates| + Ahead(from.tap)
  }

  lemma ClimbStep(from: Device, d: Device, i: nat, tdi: bool, idcode: Word32, dm: DebugModule)
    requires Climbed(from, d, i)
    ensures Climbed(from, Tick(d, true, tdi, idcode, dm), i + 1)
  {
  }
}
