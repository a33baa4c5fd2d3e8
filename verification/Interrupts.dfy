/** The interrupt numbers of the board support package. */
module Interrupts {

  datatype Interrupt =
    | MachineSoft | MachineTimer | MachineExternal | Uart | Gpio | SpiRxTxIrq | SpiEotIrq
    | Timer0Ovf | Timer0Cmp | Timer1Ovf | Timer1Cmp | Timer2Ovf | Timer2Cmp | Timer3Ovf | Timer3Cmp
    | Nmi | Dma(channel: nat)

  datatype Lookup = Ok(irq: Interrupt) | Err(value: nat)

  predicate Exists(irq: Interrupt) {
    irq.Dma? ==> irq.channel < 16
  }

  function Number(irq: Interrupt): nat
    requires Exists(irq)
  {
    match irq
    case MachineSoft => 3
    case MachineTimer => 7
    case MachineExternal => 11
    case Uart => 17
    case Gpio => 18
    case SpiRxTxIrq => 19
    case SpiEotIrq => 20
    case Timer0Ovf => 21
    case Timer0Cmp => 22
    case Timer1Ovf => 23
    case Timer1Cmp => 24
    case Timer2Ovf => 25
    case Timer2Cmp => 26
    case Timer3Ovf => 27
    case Timer3Cmp => 28
    case Nmi => 31
    case Dma(channel) => 32 + channel
  }

  function FromNumber(value: nat): Lookup {
    if value == 3 then Ok(MachineSoft)
    else if value == 7 then Ok(MachineTimer)
    else if value == 11 then Ok(MachineExternal)
    else if value == 17 then Ok(Uart)
    else if 32 <= value <= 47 then Ok(Dma(value - 32))
    else Err(value)
  }

  lemma NumbersDiffer(a: Interrupt, b: Interrupt)
    requires Exists(a) && Exists(b)
    ensures Number(a) == Number(b) <==> a == b
    ensures Number(a) <= 255
  {
  }

  // ---------- The interrupt lines of the hardware ----------

  const MTIMER_IRQ_ID: nat := 7
  const UART_IRQ_ID: nat := 17
  const GPIO_IRQ_ID: nat := 18
  const SPI_RX_TX_IRQ_ID: nat := 19
  const SPI_EOT_IRQ_ID: nat := 20
  const TG_IRQ_ID_BASE: nat := 21
  const NMI_IRQ_ID: nat := 31
  const DMA_IRQ_ID_BASE: nat := 32
  const TIMER_GROUP_SIZE: nat := 4

  /** Every timer of the group has an overflow line and next to it a compare line. */
  function TimerLines(i: nat): (Interrupt, Interrupt)
    requires i < TIMER_GROUP_SIZE
  {
    if i == 0 then (Timer0Ovf, Timer0Cmp)
    else if i == 1 then (Timer1Ovf, Timer1Cmp)
    else if i == 2 then (Timer2Ovf, Timer2Cmp)
    else (Timer3Ovf, Timer3Cmp)
  }

  /** The software's numbers are the lines to which the hardware connects the sources. */
  lemma NumbersMatchLines(timer: nat, channel: nat)
    requires timer < TIMER_GROUP_SIZE && channel < 16
    ensures Number(MachineTimer) == MTIMER_IRQ_ID && Number(Uart) == UART_IRQ_ID
    ensures Number(Gpio) == GPIO_IRQ_ID && Number(Nmi) == NMI_IRQ_ID
    ensures Number(SpiRxTxIrq) == SPI_RX_TX_IRQ_ID && Number(SpiEotIrq) == SPI_EOT_IRQ_ID
    ensures Number(TimerLines(timer).0) == TG_IRQ_ID_BASE + 2 * timer
    ensures Number(TimerLines(timer).1) == TG_IRQ_ID_BASE + 2 * timer + 1
    ensures Number(Dma(channel)) == DMA_IRQ_ID_BASE + channel
  {
  }

  /** A number is looked up to the interrupt it belongs to, but the GPIO, SPI, timer-group
      and non-maskable interrupts (18 to 31) have numbers that are not looked up at all. */
  lemma LookupInvertsNumber(irq: Interrupt, value: nat)
    requires Exists(irq)
    ensures FromNumber(Number(irq)) == Ok(irq) <==> !(18 <= Number(irq) <= 31)
    ensures FromNumber(value).Ok? ==> Exists(FromNumber(value).irq) && Number(FromNumber(value).irq) == value
  {
  }
}
