/// The acquisition logic of src/main.c: the firmware's global SPI and UART
/// buffers and the GPIO interrupt flag, held by one object whose methods are
/// MAX_Init, main's start-up, the GPIO and RTC callbacks, the two pollers and
/// the two ASCII formatters. What goes out on the SPI bus and the UART, and
/// the interrupt calls, are recorded in a ghost event log.
module Acquisition {
  import opened MaxRegisters
  import opened Bytes
  import opened Record

  const SPI_TX_CONFIG_BUF_LENGTH: nat := 3
  const SPI_TX_BUF_LENGTH: nat := 1
  /** Bytes clocked in each direction by MAX_SPI_TXRX. */
  const SPI_TRANSFER_LENGTH: nat := 3

  /** What the firmware does on the bus and to the interrupt controller. */
  datatype Event =
    | Command(op: Opcode)                          // MAX_SPI_TX: the opcode byte alone
    | ConfigWrite(op: Opcode, b1: byte, b2: byte)  // MAX_SPI_TX_Config: opcode and two data bytes
    | Transfer(op: Opcode, rxOffset: nat)          // MAX_SPI_TXRX: opcode out, three bytes into spi_rx_buffer[rxOffset..]
    | Transmit(len: nat, data: seq<byte>)          // UARTDRV_Transmit: the byte count asked for, and the
                                                   // buffer bytes among them (the first min(len, buffer) bytes)
    | IntEnable | IntDisable | IntClear            // GPIO interrupt 4 (mask 0x0010)

  // ---------------------------------------------------------------------------
  // Event sequences
  // ---------------------------------------------------------------------------

  /** MAX_Init: reset, nine configuration writes, save to flash, initialise. */
  function InitSequence(): seq<Event>
  {
    [ Command(RESET),
      ConfigWrite(WRITE_TOF1, 0x0C, 0x10),
      ConfigWrite(WRITE_TOF2, 0xA1, 0x00),
      ConfigWrite(WRITE_TOF3, 0x05, 0x06),
      ConfigWrite(WRITE_TOF4, 0x07, 0x08),
      ConfigWrite(WRITE_TOF5, 0x09, 0x0A),
      ConfigWrite(WRITE_TOF6, 0x23, 0x0A),
      ConfigWrite(WRITE_TOF7, 0x23, 0x0A),
      ConfigWrite(WRITE_TOF_MEAS_DELAY, 0x00, 0xC8),
      ConfigWrite(WRITE_CLBRT_CTRL, 0x0F, 0xDF),
      Command(TX_CONFIG_FLASH),
      Command(INITIALIZE) ]
  }

  /** Initialisation starts with a reset and ends by saving the configuration
      to flash and initialising; in between it writes configuration
      registers only, each one once, in increasing register order. */
  lemma {:induction false} InitWritesConfigurationOnce()
    ensures |InitSequence()| == 12
    ensures InitSequence()[0] == Command(RESET)
    ensures InitSequence()[10] == Command(TX_CONFIG_FLASH) && InitSequence()[11] == Command(INITIALIZE)
    ensures forall i | 1 <= i < 10 :: InitSequence()[i].ConfigWrite? && InitSequence()[i].op in WriteOpcodes()[6..]
    ensures forall i, j | 1 <= i < j < 10 :: InitSequence()[i].op < InitSequence()[j].op
  {
    var s := InitSequence();
    var cfg := WriteOpcodes()[6..];
    RegisterOpcodesDense();
    forall i | 1 <= i < 10
      ensures s[i].ConfigWrite? && s[i].op in cfg
    {
      assert 0x38 <= s[i].op < 0x38 + |cfg|;
      assert cfg[s[i].op - 0x38] == s[i].op;
    }
  }

  lemma {:induction false} StartUpSendsNothing()
    ensures var added := InitSequence() + [IntEnable, Command(TOF_DIFF), Transfer(READ_INT_STAT_REG, SPI_ISR_LOC)];
      forall i | 0 <= i < |added| :: !added[i].Transmit?
  {
    var added := InitSequence() + [IntEnable, Command(TOF_DIFF), Transfer(READ_INT_STAT_REG, SPI_ISR_LOC)];
    forall i | 0 <= i < |added|
      ensures !added[i].Transmit?
    {
      if i < 12 {
        assert added[i] == InitSequence()[i];
      }
    }
  }

  /** The register reads of pollRTC: month/year, day/date, minutes/hours,
      seconds, each into its own three-byte slot. */
  function PollRtcEvents(): seq<Event>
  {
    [ Transfer(READ_RTC_M_Y, SPI_RTC_MM_YY_LOC),
      Transfer(READ_RTC_DAY_DATE, SPI_RTC_DD_DATE_LOC),
      Transfer(READ_RTC_MIN_HRS, SPI_RTC_MM_HH_LOC),
      Transfer(READ_RTC_SECS, SPI_RTC_SS_LOC) ]
  }

  /** The register reads of pollTOF: integer and fraction of the difference. */
  function PollTofEvents(): seq<Event>
  {
    [ Transfer(TOF_DIFF_INT, SPI_TOF_INT_LOC), Transfer(TOF_DIFF_FRAC, SPI_TOF_FRAC_LOC) ]
  }

  /** A tick that found the TOF bit set: poll, send len bytes starting at the
      record, re-enable the interrupt, start the next measurement. */
  function TickEvents(len: nat, record: seq<byte>): seq<Event>
  {
    PollRtcEvents() + PollTofEvents() + [Transmit(len, record), IntEnable, Command(TOF_DIFF)]
  }

  lemma {:induction false} TickLog(log: seq<Event>, len: nat, record: seq<byte>)
    ensures log + PollRtcEvents() + PollTofEvents() + [Transmit(len, record), IntEnable, Command(TOF_DIFF)]
      == log + TickEvents(len, record)
  {
  }

  /** The tick's transmit is its seventh event. */
  lemma {:induction false} TickTransmit(log: seq<Event>, len: nat, record: seq<byte>)
    ensures (log + TickEvents(len, record))[|log| + 6] == Transmit(len, record)
  {
  }

  /** The six reads of a tick land in six disjoint slots that together cover
      spi_rx_buffer[3..21]; the status slot [0..3] is left alone. */
  lemma {:induction false} TickReadsFillDisjointSlots(len: nat, record: seq<byte>)
    ensures forall i | 0 <= i < 6 :: TickEvents(len, record)[i].Transfer?
    ensures forall i | 0 <= i < 6 ::
      TickEvents(len, record)[i].rxOffset == SPI_TOF_INT_LOC + SPI_TRANSFER_LENGTH * ((i + 2) % 6)
    ensures forall i | 0 <= i < 6 ::
      SPI_TOF_INT_LOC <= TickEvents(len, record)[i].rxOffset
      && TickEvents(len, record)[i].rxOffset + SPI_TRANSFER_LENGTH <= SPI_RX_BUF_LENGTH
    ensures forall i, j | 0 <= i < j < 6 ::
      || TickEvents(len, record)[i].rxOffset + SPI_TRANSFER_LENGTH <= TickEvents(len, record)[j].rxOffset
      || TickEvents(len, record)[j].rxOffset + SPI_TRANSFER_LENGTH <= TickEvents(len, record)[i].rxOffset
  {
    var t := TickEvents(len, record);
    assert t[0] == Transfer(READ_RTC_M_Y, 9) && t[1] == Transfer(READ_RTC_DAY_DATE, 12);
    assert t[2] == Transfer(READ_RTC_MIN_HRS, 15) && t[3] == Transfer(READ_RTC_SECS, 18);
    assert t[4] == Transfer(TOF_DIFF_INT, 3) && t[5] == Transfer(TOF_DIFF_FRAC, 6);
  }

  /** Every record in the log that went out over the UART is well formed. */
  ghost predicate SentRecordsWellFormed(log: seq<Event>)
  {
    forall i | 0 <= i < |log| && log[i].Transmit? ::
      |log[i].data| == UART_TX_BUF_LENGTH && WellFormedRecord(log[i].data)
  }

  lemma {:induction false} SentRecordsAppend(log: seq<Event>, more: seq<Event>)
    requires SentRecordsWellFormed(log) && SentRecordsWellFormed(more)
    ensures SentRecordsWellFormed(log + more)
  {
    var all := log + more;
    forall i | 0 <= i < |all| && all[i].Transmit?
      ensures |all[i].data| == UART_TX_BUF_LENGTH && WellFormedRecord(all[i].data)
    {
      if i >= |log| {
        assert all[i] == more[i - |log|];
      }
    }
  }

  /** Events that send nothing keep the sent records well formed. */
  lemma {:induction false} AppendWithoutTransmit(log: seq<Event>, more: seq<Event>)
    requires SentRecordsWellFormed(log)
    requires forall i | 0 <= i < |more| :: !more[i].Transmit?
    ensures SentRecordsWellFormed(log + more)
  {
    SentRecordsAppend(log, more);
  }

  /** A tick that sends a record keeps the separators in place and sends a
      well-formed record, provided the separators were in place before. */
  lemma {:induction false} TickKeepsRecordsWellFormed(log: seq<Event>, len: nat, u: seq<byte>, rx: seq<byte>, text: seq<byte>)
    requires |u| == UART_TX_BUF_LENGTH && |rx| == SPI_RX_BUF_LENGTH
    requires SentRecordsWellFormed(log) && SeparatorsSet(u)
    ensures SeparatorsSet(AsciiRecord(u, rx, text))
    ensures SentRecordsWellFormed(log + TickEvents(len, AsciiRecord(u, rx, text)))
  {
    var r := AsciiRecord(u, rx, text);
    AsciiRecordWellFormed(u, rx, text);
    var added := TickEvents(len, r);
    forall i | 0 <= i < |added| && added[i].Transmit?
      ensures |added[i].data| == UART_TX_BUF_LENGTH && WellFormedRecord(added[i].data)
    {
      assert i == 6;
    }
    SentRecordsAppend(log, added);
  }

  // ---------------------------------------------------------------------------
  // Transmit length
  // ---------------------------------------------------------------------------

  /** The byte count handed to UARTDRV_Transmit: `sizeof` the element type
      times UART_TX_BUF_LENGTH elements. */
  function TransmitLength(elementSize: nat, elements: nat): (n: nat)
    ensures elementSize == 1 ==> n == elements
    ensures elementSize > 1 && elements > 0 ==> n > elements
  {
    elementSize * elements
  }

  /** As written, the ASCII build sizes the transfer with sizeof(uint32_t):
      140 bytes from a 35-byte buffer. The same expression is right for the
      hex build, whose buffer holds twelve 32-bit words. */
  lemma TransmitLengthAsWritten()
    ensures TransmitLength(4, UART_TX_BUF_LENGTH) == 140 > UART_TX_BUF_LENGTH
    ensures TransmitLength(4, HEX_UART_TX_BUF_LENGTH) == 4 * HEX_UART_TX_BUF_LENGTH
  {
  }

  /** A transmit asks for exactly the bytes it has in the buffer. */
  predicate SendsExactly(e: Event)
  {
    e.Transmit? && e.len == |e.data|
  }

  /** As written, the tick's transmit of a 35-byte record asks for more bytes
      than the record has. */
  lemma {:induction false} TickOverreadsAsWritten(record: seq<byte>)
    requires |record| == UART_TX_BUF_LENGTH
    ensures TickEvents(TransmitLength(4, UART_TX_BUF_LENGTH), record)[6].Transmit?
    ensures !SendsExactly(TickEvents(TransmitLength(4, UART_TX_BUF_LENGTH), record)[6])
  {
    TransmitLengthAsWritten();
  }

  /** The intended count: sizeof(uint8_t), the buffer's element type, times
      UART_TX_BUF_LENGTH. */
  function RecordTransmitLength(): (n: nat)
    ensures n == UART_TX_BUF_LENGTH
  {
    TransmitLength(1, UART_TX_BUF_LENGTH)
  }

  /** With the intended count, every transmit of a tick sends exactly the
      35-byte record and nothing past it. */
  lemma {:induction false} TickSendsExactRecord(record: seq<byte>)
    requires |record| == UART_TX_BUF_LENGTH
    ensures forall i | 0 <= i < |TickEvents(RecordTransmitLength(), record)| && TickEvents(RecordTransmitLength(), record)[i].Transmit? ::
      SendsExactly(TickEvents(RecordTransmitLength(), record)[i]) && TickEvents(RecordTransmitLength(), record)[i].data == record
  {
    var t := TickEvents(RecordTransmitLength(), record);
    forall i | 0 <= i < |t| && t[i].Transmit?
      ensures SendsExactly(t[i]) && t[i].data == record
    {
      assert i == 6;
    }
  }

  // ---------------------------------------------------------------------------
  // The firmware's global state
  // ---------------------------------------------------------------------------

  class Firmware {
    const spiRx: array<byte>        // spi_rx_buffer
    const spiTx: array<byte>        // spi_tx_buffer
    const spiTxConfig: array<byte>  // spi_tx_config_buffer
    const uartTx: array<byte>       // uart_tx_buffer (ASCII build)
    var intEnabled: bool            // GPIO interrupt 4 enabled
    ghost var log: seq<Event>

    ghost predicate Valid()
    {
      && spiRx.Length == SPI_RX_BUF_LENGTH && spiTx.Length == SPI_TX_BUF_LENGTH
      && spiTxConfig.Length == SPI_TX_CONFIG_BUF_LENGTH && uartTx.Length == UART_TX_BUF_LENGTH
      && spiRx != spiTx && spiRx != spiTxConfig && spiRx != uartTx
      && spiTx != spiTxConfig && spiTx != uartTx && spiTxConfig != uartTx
    }

    /** The state of the running loop: separators in place and every record
        sent so far well formed. */
    ghost predicate Running()
      reads this, uartTx
    {
      Valid() && SeparatorsSet(uartTx[..]) && SentRecordsWellFormed(log)
    }

    /** Static storage: every buffer zero, the interrupt off, nothing done yet. */
    constructor ()
      ensures Valid()
      ensures spiRx[..] == seq(SPI_RX_BUF_LENGTH, _ => 0) && uartTx[..] == seq(UART_TX_BUF_LENGTH, _ => 0)
      ensures spiTx[..] == [0] && spiTxConfig[..] == [0, 0, 0]
      ensures !intEnabled && log == []
    {
      spiRx := new byte[SPI_RX_BUF_LENGTH](_ => 0);
      spiTx := new byte[SPI_TX_BUF_LENGTH](_ => 0);
      spiTxConfig := new byte[SPI_TX_CONFIG_BUF_LENGTH](_ => 0);
      uartTx := new byte[UART_TX_BUF_LENGTH](_ => 0);
      intEnabled := false;
      log := [];
    }

    // -------------------------------------------------------------------------
    // Driver calls
    // -------------------------------------------------------------------------

    /** `spi_tx_buffer[0] = op; MAX_SPI_TX(&spi_tx_buffer[0]);` */
    method SendCommand(op: Opcode)
      requires Valid()
      modifies this, spiTx
      ensures spiTx[0] as int == op
      ensures log == old(log) + [Command(op)] && intEnabled == old(intEnabled)
    {
      spiTx[0] := op as byte;
      ByteOfInt(op);
      log := log + [Command(op)];
    }

    /** `spi_tx_config_buffer[0..3] = {op, b1, b2}; MAX_SPI_TX_Config(...);` */
    method SendConfig(op: Opcode, b1: byte, b2: byte)
      requires Valid()
      modifies this, spiTxConfig
      ensures spiTxConfig[0] as int == op && spiTxConfig[1] == b1 && spiTxConfig[2] == b2
      ensures log == old(log) + [ConfigWrite(op, b1, b2)] && intEnabled == old(intEnabled)
    {
      spiTxConfig[0] := op as byte;
      ByteOfInt(op);
      spiTxConfig[1] := b1;
      spiTxConfig[2] := b2;
      log := log + [ConfigWrite(op, b1, b2)];
    }

    /** `spi_tx_buffer[0] = op; MAX_SPI_TXRX(&spi_tx_buffer[0], &spi_rx_buffer[k]);`
        The three bytes clocked in are whatever the device sends. */
    method TransferFrame(op: Opcode, k: nat)
      requires Valid() && k + SPI_TRANSFER_LENGTH <= SPI_RX_BUF_LENGTH
      modifies this, spiTx, spiRx
      ensures spiTx[0] as int == op
      ensures forall i | 0 <= i < SPI_RX_BUF_LENGTH && !(k <= i < k + SPI_TRANSFER_LENGTH) :: spiRx[i] == old(spiRx[i])
      ensures log == old(log) + [Transfer(op, k)] && intEnabled == old(intEnabled)
    {
      spiTx[0] := op as byte;
      ByteOfInt(op);
      var b0: byte :| true;
      var b1: byte :| true;
      var b2: byte :| true;
      spiRx[k] := b0;
      spiRx[k + 1] := b1;
      spiRx[k + 2] := b2;
      log := log + [Transfer(op, k)];
    }

    /** UARTDRV_Transmit of len bytes starting at uart_tx_buffer. Bytes past
        the end of the buffer are not part of the model: the event records the
        count asked for and the buffer bytes among them. */
    method UartTransmit(len: nat)
      requires Valid()
      modifies this
      ensures log == old(log) + [Transmit(len, uartTx[..if len <= uartTx.Length then len else uartTx.Length])]
      ensures intEnabled == old(intEnabled)
    {
      var sent := if len <= uartTx.Length then len else uartTx.Length;
      log := log + [Transmit(len, uartTx[..sent])];
    }

    method GpioIntEnable()
      modifies this
      ensures intEnabled && log == old(log) + [IntEnable]
    {
      intEnabled := true;
      log := log + [IntEnable];
    }

    method GpioIntDisable()
      modifies this
      ensures !intEnabled && log == old(log) + [IntDisable]
    {
      intEnabled := false;
      log := log + [IntDisable];
    }

    method GpioIntClear()
      modifies this
      ensures intEnabled == old(intEnabled) && log == old(log) + [IntClear]
    {
      log := log + [IntClear];
    }

    // -------------------------------------------------------------------------
    // The firmware's functions
    // -------------------------------------------------------------------------

    /** MAX_Init: the device is reset, configured and initialised. */
    method MaxInit()
      requires Valid()
      modifies this, spiTx, spiTxConfig
      ensures log == old(log) + InitSequence()
      ensures spiTx[0] as int == INITIALIZE
      ensures spiTxConfig[0] as int == WRITE_CLBRT_CTRL && spiTxConfig[1] == 0x0F && spiTxConfig[2] == 0xDF
      ensures intEnabled == old(intEnabled)
    {
      SendCommand(RESET);
      SendConfig(WRITE_TOF1, 0x0C, 0x10);
      SendConfig(WRITE_TOF2, 0xA1, 0x00);
      SendConfig(WRITE_TOF3, 0x05, 0x06);
      SendConfig(WRITE_TOF4, 0x07, 0x08);
      SendConfig(WRITE_TOF5, 0x09, 0x0A);
      SendConfig(WRITE_TOF6, 0x23, 0x0A);
      SendConfig(WRITE_TOF7, 0x23, 0x0A);
      SendConfig(WRITE_TOF_MEAS_DELAY, 0x00, 0xC8);
      SendConfig(WRITE_CLBRT_CTRL, 0x0F, 0xDF);
      SendCommand(TX_CONFIG_FLASH);
      SendCommand(INITIALIZE);
    }

    /** main(), after the chip, SPI and UART set-up: initialise the device,
        enable the interrupt, put the separators in the record, start a
        measurement, read the status register and then clear its three
        bytes (so the first timer tick reads the status again rather than
        polling). */
    method StartUp()
      requires Valid()
      modifies this, spiTx, spiTxConfig, spiRx, uartTx
      ensures Valid()
      ensures log == old(log) + InitSequence() + [IntEnable, Command(TOF_DIFF), Transfer(READ_INT_STAT_REG, SPI_ISR_LOC)]
      ensures intEnabled
      ensures spiTx[0] as int == READ_INT_STAT_REG
      ensures spiTxConfig[0] as int == WRITE_CLBRT_CTRL && spiTxConfig[1] == 0x0F && spiTxConfig[2] == 0xDF
      ensures uartTx[..] == WithSeparators(old(uartTx[..]))
      ensures spiRx[0] == 0 && spiRx[1] == 0 && spiRx[2] == 0
      ensures spiRx[3..] == old(spiRx[3..])
      ensures SentRecordsWellFormed(old(log)) ==> Running()
    {
      MaxInit();
      GpioIntEnable();
      PutSeparators();
      SendCommand(TOF_DIFF);
      TransferFrame(READ_INT_STAT_REG, SPI_ISR_LOC);
      ghost var status := spiRx[..];
      var i := 0;
      while i < 3
        modifies spiRx
        invariant 0 <= i <= 3
        invariant forall k | 0 <= k < i :: spiRx[k] == 0
        invariant forall k | i <= k < SPI_RX_BUF_LENGTH :: spiRx[k] == status[k]
      {
        spiRx[i] := 0;
        i := i + 1;
      }
      assert spiRx[3..] == old(spiRx[3..]);
      SeparatorsInPlace(old(uartTx[..]));
      if SentRecordsWellFormed(old(log)) {
        StartUpSendsNothing();
        AppendWithoutTransmit(old(log), InitSequence() + [IntEnable, Command(TOF_DIFF), Transfer(READ_INT_STAT_REG, SPI_ISR_LOC)]);
      }
    }

    /** GPIOINT_callback: mask the interrupt, read the status register into
        spi_rx_buffer[0..3], clear the pending flag. */
    method GpioIntCallback()
      requires Valid()
      modifies this, spiTx, spiRx
      ensures log == old(log) + [IntDisable, Transfer(READ_INT_STAT_REG, SPI_ISR_LOC), IntClear]
      ensures !intEnabled
      ensures spiTx[0] as int == READ_INT_STAT_REG
      ensures spiRx[3..] == old(spiRx[3..])
      ensures old(Running()) ==> Running()
    {
      GpioIntDisable();
      TransferFrame(READ_INT_STAT_REG, SPI_ISR_LOC);
      GpioIntClear();
      assert spiRx[3..] == old(spiRx[3..]);
      if old(Running()) {
        AppendWithoutTransmit(old(log), [IntDisable, Transfer(READ_INT_STAT_REG, SPI_ISR_LOC), IntClear]);
      }
    }

    /** pollRTC: the four RTC registers into spi_rx_buffer[9..21]. */
    method PollRtc()
      requires Valid()
      modifies this, spiTx, spiRx
      ensures log == old(log) + PollRtcEvents()
      ensures spiTx[0] as int == READ_RTC_SECS
      ensures forall i | 0 <= i < SPI_RTC_MM_YY_LOC :: spiRx[i] == old(spiRx[i])
      ensures intEnabled == old(intEnabled)
    {
      TransferFrame(READ_RTC_M_Y, SPI_RTC_MM_YY_LOC);
      TransferFrame(READ_RTC_DAY_DATE, SPI_RTC_DD_DATE_LOC);
      TransferFrame(READ_RTC_MIN_HRS, SPI_RTC_MM_HH_LOC);
      TransferFrame(READ_RTC_SECS, SPI_RTC_SS_LOC);
    }

    /** pollTOF: the TOF difference into spi_rx_buffer[3..9]. */
    method PollTof()
      requires Valid()
      modifies this, spiTx, spiRx
      ensures log == old(log) + PollTofEvents()
      ensures spiTx[0] as int == TOF_DIFF_FRAC
      ensures forall i | 0 <= i < SPI_TOF_INT_LOC :: spiRx[i] == old(spiRx[i])
      ensures forall i | SPI_RTC_MM_YY_LOC <= i < SPI_RX_BUF_LENGTH :: spiRx[i] == old(spiRx[i])
      ensures intEnabled == old(intEnabled)
    {
      TransferFrame(TOF_DIFF_INT, SPI_TOF_INT_LOC);
      TransferFrame(TOF_DIFF_FRAC, SPI_TOF_FRAC_LOC);
    }

    /** One character of the record. */
    method PutChar(pos: nat, c: byte)
      requires Valid() && pos < UART_TX_BUF_LENGTH
      modifies uartTx
      ensures uartTx[..] == old(uartTx[..])[pos := c]
    {
      uartTx[pos] := c;
    }

    /** main's separators: '/' at 2 and 5, a space at 8 and 20, ':' at 11,
        14 and 17. */
    method PutSeparators()
      requires Valid()
      modifies uartTx
      ensures uartTx[..] == WithSeparators(old(uartTx[..]))
    {
      PutChar(2, 0x2F);
      PutChar(5, 0x2F);
      PutChar(8, 0x20);
      PutChar(20, 0x20);
      PutChar(11, 0x3A);
      PutChar(14, 0x3A);
      PutChar(17, 0x3A);
    }

    /** Two adjacent digits of the record, tens then units. */
    method PutDigits(pos: nat, tens: byte, units: byte)
      requires Valid() && pos + 1 < UART_TX_BUF_LENGTH
      modifies uartTx
      ensures uartTx[..] == old(uartTx[..])[pos := tens][pos + 1 := units]
    {
      uartTx[pos] := tens;
      uartTx[pos + 1] := units;
    }

    /** processRTC_ASCII: the RTC registers as fourteen ASCII digits. */
    method ProcessRtcAscii()
      requires Valid()
      modifies uartTx
      ensures uartTx[..] == RtcAscii(old(uartTx[..]), spiRx[..])
    {
      PutDigits(0, TensDigit(spiRx[10], 0x10), UnitsDigit(spiRx[10]));   // month
      PutDigits(3, TensDigit(spiRx[14], 0x30), UnitsDigit(spiRx[14]));   // date
      PutDigits(6, TensDigit(spiRx[11], 0xF0), UnitsDigit(spiRx[11]));   // year
      var hourUnits: byte;
      if (spiRx[17] & 0x40) == 0x40 {
        hourUnits := (spiRx[17] & 0x0F) + 0x32;
      } else {
        hourUnits := (spiRx[17] & 0x0F) + 0x30;
      }
      PutDigits(9, TensDigit(spiRx[17], 0x30), hourUnits);               // hours
      PutDigits(12, TensDigit(spiRx[16], 0x70), UnitsDigit(spiRx[16]));  // minutes
      PutDigits(15, TensDigit(spiRx[20], 0x70), UnitsDigit(spiRx[20]));  // seconds
      PutDigits(18, TensDigit(spiRx[19], 0xF0), UnitsDigit(spiRx[19]));  // tenths, hundredths
      RtcAsciiByUpdates(old(uartTx[..]), spiRx[..]);
    }

    /** processTOF_ASCII: the integer and fraction registers, and the printed
        field. `text` is the decimal rendering of
        tofDiffInt + tofDiffFrac / 65536 that gcvt produces. */
    method ProcessTofAscii(text: seq<byte>) returns (tofDiffInt: int, tofDiffFrac: nat)
      requires Valid()
      modifies uartTx
      ensures tofDiffInt == TofDiffInt(spiRx[4], spiRx[5])
      ensures tofDiffFrac == TofDiffFrac(spiRx[7], spiRx[8])
      ensures uartTx[..] == TofAscii(old(uartTx[..]), text)
    {
      tofDiffInt := TofDiffInt(spiRx[4], spiRx[5]);
      tofDiffFrac := TofDiffFrac(spiRx[7], spiRx[8]);
      var field := TofField(text);
      forall i | 21 <= i < UART_TX_BUF_LENGTH {
        uartTx[i] := field[i - 21];
      }
      assert uartTx[..] == TofAscii(old(uartTx[..]), text);
    }

    /** The first four calls of callback_RTC's TOF branch: pollRTC, pollTOF,
        processRTC_ASCII, processTOF_ASCII. */
    method PollAndFormat(text: seq<byte>)
      requires Valid()
      modifies this, spiTx, spiRx, uartTx
      ensures uartTx[..] == AsciiRecord(old(uartTx[..]), spiRx[..], text)
      ensures log == old(log) + PollRtcEvents() + PollTofEvents()
      ensures forall i | 0 <= i < SPI_TOF_INT_LOC :: spiRx[i] == old(spiRx[i])
      ensures intEnabled == old(intEnabled)
    {
      PollRtc();
      PollTof();
      ProcessRtcAscii();
      var tofDiffInt, tofDiffFrac := ProcessTofAscii(text);
    }

    /** The rest of callback_RTC's TOF branch: send the record (with the
        count as written), clear the TOF bit, re-enable the interrupt, start
        the next measurement. */
    method SendAndRearm()
      requires Valid()
      modifies this, spiTx, spiRx
      ensures log == old(log) + [Transmit(TransmitLength(4, UART_TX_BUF_LENGTH), uartTx[..]), IntEnable, Command(TOF_DIFF)]
      ensures spiRx[..] == old(spiRx[..])[1 := 0]
      ensures intEnabled && spiTx[0] as int == TOF_DIFF
    {
      UartTransmit(TransmitLength(4, UART_TX_BUF_LENGTH));
      spiRx[1] := 0;
      GpioIntEnable();
      SendCommand(TOF_DIFF);
      assert uartTx[..UART_TX_BUF_LENGTH] == uartTx[..];
    }

    /** callback_RTC, once a second. With the TOF bit (bit 4 of the status
        byte at spi_rx_buffer[1]) set: poll, format, send the record, clear
        the bit, re-enable the interrupt and start the next measurement.
        Otherwise: read the status register again. */
    method CallbackRtc(text: seq<byte>)
      requires Valid()
      modifies this, spiTx, spiRx, uartTx
      ensures (0x10 & old(spiRx[1])) == 0x10 ==>
        && uartTx[..] == AsciiRecord(old(uartTx[..]), spiRx[..], text)
        && log == old(log) + TickEvents(TransmitLength(4, UART_TX_BUF_LENGTH), uartTx[..])
        && log[|old(log)| + 6] == Transmit(140, uartTx[..])
        && 140 > |uartTx[..]| == UART_TX_BUF_LENGTH
        && intEnabled
        && spiTx[0] as int == TOF_DIFF
        && spiRx[0] == old(spiRx[0]) && spiRx[1] == 0 && spiRx[2] == old(spiRx[2])
      ensures (0x10 & old(spiRx[1])) != 0x10 ==>
        && uartTx[..] == old(uartTx[..])
        && log == old(log) + [Transfer(READ_INT_STAT_REG, SPI_ISR_LOC)]
        && intEnabled == old(intEnabled)
        && spiTx[0] as int == READ_INT_STAT_REG
        && spiRx[3..] == old(spiRx[3..])
      ensures old(Running()) ==> Running()
    {
      ghost var u := uartTx[..];
      if (0x10 & spiRx[1]) == 0x10 {
        PollAndFormat(text);
        ghost var rx := spiRx[..];
        SendAndRearm();
        RtcAsciiReadsDataBytesOnly(u, rx, spiRx[..]);
        TransmitLengthAsWritten();
        TickLog(old(log), TransmitLength(4, UART_TX_BUF_LENGTH), uartTx[..]);
        TickTransmit(old(log), TransmitLength(4, UART_TX_BUF_LENGTH), uartTx[..]);
        if old(Running()) {
          TickKeepsRecordsWellFormed(old(log), TransmitLength(4, UART_TX_BUF_LENGTH), u, spiRx[..], text);
        }
      } else {
        TransferFrame(READ_INT_STAT_REG, SPI_ISR_LOC);
        assert spiRx[3..] == old(spiRx[3..]);
        if old(Running()) {
          AppendWithoutTransmit(old(log), [Transfer(READ_INT_STAT_REG, SPI_ISR_LOC)]);
        }
      }
    }
  }
}
