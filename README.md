# MAX35103 acquisition firmware, modelled in Dafny

This project models the core of the WonderGecko firmware that drives a MAX35103
time-of-flight (TOF) ultrasonic converter. The firmware does three things:

- It configures the chip over SPI.
- Once a second, when the chip signals a finished measurement, it reads the
  chip's RTC and TOF-difference registers.
- It formats them into a 35-byte ASCII record, which it sends over the UART.

The model has five modules:

- `HexCodec` (`hex_codec.dfy`): the two branch-free encoders `int16_2hex` and
  `int32_2hex` of `src/int_2hex.h`, as functions on bit-vectors. Each step of
  the C code (nibble reversal, spreading, lane selection) is its own function.
  Each step's contract says what it does to every nibble or byte lane. The
  encoders are proved to spell the uppercase hexadecimal text of their input
  (`HexString`), whose round trip with `HexValue` is proved as well.
- `HexLut` (`hex_lut.dfy`): `lutHexString`, the table-driven encoder, as a
  method over an `array<char>` with its `while` loop. The two 512-character
  tables are checked row by row against their meaning, and the method is
  proved to agree with `int16_2hex`.
- `MaxRegisters` (`max_registers.dfy`): every opcode constant of
  `src/max_macros.h`, grouped in header order, with lemmas about the layout of
  the opcode space.
- `Record` (`record.dfy`): what the firmware computes from the bytes it
  receives. This covers:
  - the ASCII digits of `processRTC_ASCII`, including the 12-hour "+2" quirk;
  - the signed integer and unsigned fraction of `processTOF_ASCII`;
  - the printed TOF field;
  - the separators `main` stores;
  - the hex-mode words of `processRTC_HEX` and `processTOF_HEX`.
- `Acquisition` (`acquisition.dfy`): the firmware's global state as a class
  `Firmware`.
  - Its fields are the arrays `spi_rx_buffer` (21 bytes), `spi_tx_buffer` (1),
    `spi_tx_config_buffer` (3) and `uart_tx_buffer` (35), plus the GPIO
    interrupt-enable flag.
  - A ghost log records what goes out on the bus: commands, configuration
    writes, three-byte register transfers, UART transmissions, and interrupt
    enable/disable/clear.
  - Its methods are `MAX_Init`, the start-up part of `main`, `GPIOINT_callback`,
    `callback_RTC`, `pollRTC`, `pollTOF`, `processRTC_ASCII` and
    `processTOF_ASCII`. Each one's contract gives the events it appends, the
    opcode byte it leaves in `spi_tx_buffer`, the record bytes it writes, and
    the `spi_rx_buffer` bytes it leaves alone. The bytes the chip returns into
    the other receive slots are arbitrary, so no contract fixes them.
  - The invariant `Running` says the separators are in place and every record
    sent so far is well formed. `StartUp` establishes it, and both callbacks
    preserve it. The '\n' and '\r' at the end of every such record come from
    the corrected TOF field, which keeps the first 12 characters of gcvt's
    text. The firmware as written loses them whenever that text is longer
    than 12 characters, as it usually is (see Findings).

The bytes the chip returns in a transfer are arbitrary: `TransferFrame` picks
them non-deterministically. The decimal text that `gcvt` produces for the TOF
value is a parameter (`text`) of `ProcessTofAscii` and `CallbackRtc`.

The separators at record indices 8 and 20 are the space character 0x20, which
is what `main` stores (src/main.c:523). The record's layout comment
(src/main.c:114, 126) says a tab. The model follows the code.

The UART byte count follows the code as well: `CallbackRtc` logs a transmit
asking for sizeof(uint32_t) * 35 = 140 bytes. The intended count and what a
tick sends with it are `RecordTransmitLength` and `TickSendsExactRecord`
(see Findings).

## Model

| member | source | states |
|---|---|---|
| HexCodec.HexStringRoundTrip | src/int_2hex.h:28-45 | the reference text HexString(n, w) reads back to n whenever n < 16^w |
| HexCodec.HexValueRoundTrip | src/int_2hex.h:28-45 | an uppercase digit string re-encodes to itself, so HexString and HexValue are inverse |
| HexCodec.ReverseNibbles16 | src/int_2hex.h:35-36 | after the two swaps, nibble j of b is nibble 3 - j of the input |
| HexCodec.SpreadNibbles16 | src/int_2hex.h:39-40 | after spreading, byte lane k holds exactly nibble k and every lane's upper four bits are zero |
| HexCodec.SelectAscii32 | src/int_2hex.h:41-43 | on lanes holding 0..15, the +6 / mask / +0x2A-or-0x31 step turns each lane into the ASCII hex digit of its nibble, lane by lane, with no carry between lanes |
| HexCodec.AsciiHexDigit | src/int_2hex.h:41-43 | the per-lane result is the uppercase hex digit character '0'-'9' or 'A'-'F' of the nibble |
| HexCodec.Int16ToHex | src/int_2hex.h:28-45 | byte k of int16_2hex's result is the ASCII hex digit of nibble 3 - k of the input |
| HexCodec.Int16ToHexSpellsHex | src/int_2hex.h:28-45 | the result's bytes, least significant first, spell the 4-digit uppercase hex of the input |
| HexCodec.ReverseNibbles32 | src/int_2hex.h:14-16 | after the three swaps, nibble j of b is nibble 7 - j of the input |
| HexCodec.SpreadNibbles32 | src/int_2hex.h:17-20 | after spreading, byte lane k of the 64-bit word holds exactly nibble k, upper bits zero |
| HexCodec.SelectAscii64 | src/int_2hex.h:21-23 | the lane selection on eight lanes gives each lane the ASCII hex digit of its nibble |
| HexCodec.Int32ToHex | src/int_2hex.h:7-25 | byte k of int32_2hex's result is the ASCII hex digit of nibble 7 - k of the input |
| HexCodec.Int32ToHexHalves | src/int_2hex.h:7-45 | int32_2hex's text is int16_2hex of the upper half followed by int16_2hex of the lower half |
| HexCodec.Int32ToHexSpellsHex | src/int_2hex.h:7-25 | the result's bytes, least significant first, spell the 8-digit uppercase hex of the input |
| HexCodec.HexStringAppend | src/int_2hex.h:7-25 | the digits of a * 16^w + b are those of a followed by the w digits of b |
| HexLut.RowSpelled | src/int_2hex.h:50-83 | each 32-character row r of either table is the pairs "r0".."rF" in the table's letter case |
| HexLut.LutEntry | src/int_2hex.h:50-83 | entries 2b and 2b + 1 of a table are the hex digits of b >> 4 and b & 0xF |
| HexLut.LutIsHexTable | src/int_2hex.h:50-83 | both tables hold, at 2b and 2b + 1, the two digits of every byte b |
| HexLut.HexTableUnique | src/int_2hex.h:50-83 | only one table per letter case has that property |
| HexLut.LowerLutDiffersOnlyInLetters | src/int_2hex.h:67-83 | the lowercase table equals the uppercase one except where that one has A-F, which become a-f |
| HexLut.SelectTable | src/int_2hex.h:86 | the table lowerAlpha selects is a hex table of the requested case |
| HexLut.LutStep | src/int_2hex.h:89-94 | in pass i of the loop, the two table entries read are digits 2i and 2i + 1 of the number |
| HexLut.LutHexString | src/int_2hex.h:48-101 | the loop makes exactly two passes; s[0..4] becomes the 4-digit hex of num mod 2^16 in the requested case, s[4..] is untouched (no terminator), and 0 is returned; with the uppercase table s[0..4] is the text int16_2hex gives for those 16 bits |
| HexLut.LutMatchesInt16ToHex | src/int_2hex.h:28-101 | with the uppercase table, lutHexString writes exactly the text int16_2hex produces for the same low 16 bits |
| MaxRegisters.ExecutionOpcodesDense | src/max_macros.h:16-30 | the fifteen execution opcodes are 0x00..0x0E in order, all below 0x10 |
| MaxRegisters.RegisterOpcodesDense | src/max_macros.h:34-76 | write opcodes run 0x30..0x35 then 0x38..0x43, and read opcodes run 0xB0..0xB5 then 0xB8..0xC3 |
| MaxRegisters.ReadIsWriteWithBit7 | src/max_macros.h:34-76 | every read opcode is its write opcode with bit 7 set, including the READ_EVT_TIMING2/WRITE_EVT_TIMING3 pair |
| MaxRegisters.ResultOpcodesDense | src/max_macros.h:79-137 | the 54 result opcodes (without the alias) are 0xC4..0xF9 in order |
| MaxRegisters.ResultsHaveNoWrite | src/max_macros.h:79-137 | no opcode plus 0x80 is a result opcode, so no result register has a write counterpart |
| MaxRegisters.TofRangeAliasesCycleCount | src/max_macros.h:113-114 | TOF_CYCLE_COUNT and TOF_RANGE are both 0xE4 |
| MaxRegisters.ControlRegisterInverted | src/max_macros.h:140-142 | READ_CTRL_REG is below 0x80 and WRITE_CTRL_REG is it plus 0x80, inverting the rule; READ_INT_STAT_REG is 0xFE |
| MaxRegisters.AllOpcodesDistinct | src/max_macros.h:13-142 | apart from the alias, the 109 opcode values are strictly increasing when listed, hence distinct |
| MaxRegisters.OpcodeGap | src/max_macros.h:13-142 | no opcode lies in 0x44..0x7E |
| Record.RtcAsciiByUpdates | src/main.c:458-479 | the fourteen single-byte stores of processRTC_ASCII, in order, give RtcAscii |
| Record.RtcAsciiAt | src/main.c:460-478 | the digit at each of the fourteen positions is '0' plus the masked, shifted field of the byte the source names |
| Record.RtcAsciiWritesOnlyDigits | src/main.c:458-479 | every position outside {0,1,3,4,6,7,9,10,12,13,15,16,18,19} keeps its old value |
| Record.RtcAsciiReadsDataBytesOnly | src/main.c:458-479 | the digits depend only on rx[10], 11, 14, 16, 17, 19 and 20; the leading bytes rx[9], 12, 15 and 18 are never read |
| Record.RtcDateSpellsBcd | src/main.c:460-465 | the month, date and year digit pairs read as the BCD values of their register fields |
| Record.RtcTimeSpellsBcd | src/main.c:473-478 | the minute, second and tenths/hundredths pairs read as the BCD values of their fields |
| Record.RtcHourSpellsBcd | src/main.c:466-472 | the hour pair reads as the BCD hour, plus 2 when bit 6 (12-hour mode) is set |
| Record.HourUnitsValue | src/main.c:467-472 | the hour units digit is '0' plus the low nibble, or '2' plus it when bit 6 is set |
| Record.RtcAsciiTensRanges | src/main.c:460-478 | month tens is in '0'..'1', date and hour tens in '0'..'3', minute and second tens in '0'..'7', year and tenths in 0x30..0x3F; flipping bit 6 leaves the hour tens unchanged |
| Record.HourQuirkLeavesDigits | src/main.c:467-469 | with hour byte 0x48 (12-hour mode, 8) the units character is ':' (0x3A), not a digit |
| Record.DigitPairSpellsBcd | src/main.c:460-478 | a tens/units pair read as two decimal digits is the BCD value of the masked field |
| Record.BigEndian16 | src/main.c:484-485 | (hi << 8) \| lo is below 65536 with high byte hi and low byte lo |
| Record.TofDiffInt | src/main.c:484 | the int16_t reading of rx[4], rx[5] is in -32768..32767, congruent to the 16-bit value mod 65536, and negative exactly when bit 7 of rx[4] is set |
| Record.TofDiffFrac | src/main.c:485 | the uint16_t fraction is rx[7] * 256 + rx[8] |
| Record.TofDiffIntRoundTrip | src/main.c:484 | every int16 value is read back from its own two bytes |
| Record.TofDiffIntInjective | src/main.c:484 | different (rx[4], rx[5]) pairs never give the same integer part |
| Record.TofValueSplits | src/main.c:487-489 | the exact value TofValue (integer register plus fraction / 65536, before float rounding) has the integer register as its floor and lies in -32768..32768 |
| Record.TofField | src/main.c:492 | the TOF field is 14 bytes ending in '\n', '\r' |
| Record.TofFieldRoundTrip | src/main.c:492 | a value text of at most 12 characters, right-justified in positions 21..32, is recovered by dropping the leading spaces; positions 0..20 are kept and 33, 34 are '\n', '\r' |
| Record.SprintfWritesPastRecord | src/main.c:492 | sprintf's output always ends past the 35-byte buffer, and its NUL lands at index 35 when the text fits in 12 characters |
| Record.AsWrittenLongTextNotWellFormed | src/main.c:492 | as written, a text of 13 or more characters puts its 13th character at index 33, so the 35 bytes in the buffer are not a well-formed record |
| Record.AsWrittenAgreesInBuffer | src/main.c:492 | as written, a text of at most 12 characters leaves in the buffer exactly the corrected TofAscii record |
| Record.SeparatorsInPlace | src/main.c:522-524 | main puts '/' at 2 and 5, a space at 8 and 20, ':' at 11, 14 and 17, and changes nothing else |
| Record.AsciiRecordWellFormed | src/main.c:458-493 | processing never overwrites a separator: a record whose separators are set comes out with separators in place, RTC positions in 0x30..0x41, and '\n', '\r' at the end |
| Record.LoadLe16Value | src/main.c:447-455 | the little-endian load at rx[k] is rx[k + 1] * 256 + rx[k] |
| Record.HexWordSpellsSwappedBytes | src/main.c:447-455 | the hex word for the register at rx[k] spells rx[k + 1] then rx[k], the opposite byte order to processTOF_ASCII |
| Record.TofHexWords | src/main.c:453-456 | words 0 and 2 spell the TOF integer and fraction registers with their bytes swapped |
| Record.RtcHexDateWords | src/main.c:447-448 | words 4 and 6 spell the month/year and day/date data bytes, swapped |
| Record.RtcHexTimeWords | src/main.c:449-450 | words 8 and 10 spell the minutes/hours and seconds data bytes, swapped |
| Record.HexRecordKeepsDelimiters | src/main.c:446-456 | the hex-mode packers write only even words, so the delimiters main stores at odd words (src/main.c:520) survive |
| Acquisition.InitWritesConfigurationOnce | src/main.c:145-266 | MAX_Init sends RESET, then nine configuration writes to distinct configuration registers in increasing order, then TX_CONFIG_FLASH and INITIALIZE |
| Acquisition.TickReadsFillDisjointSlots | src/main.c:424-444 | the six reads of a tick are transfers into slots 9, 12, 15, 18, 3 and 6: pairwise disjoint, at or after index 3, and inside the 21-byte buffer |
| Acquisition.TickKeepsRecordsWellFormed | src/main.c:352-383 | whatever byte count the transmit asks for, a tick keeps the separators and the buffer bytes it sends are a well-formed 35-byte record |
| Acquisition.TickOverreadsAsWritten | src/main.c:371 | the tick's transmit, with the count as written, asks for more bytes than the 35-byte record holds |
| Acquisition.RecordTransmitLength | src/main.c:371 | the intended count, sizeof(uint8_t) * UART_TX_BUF_LENGTH, is the record's 35 bytes |
| Acquisition.TickSendsExactRecord | src/main.c:371 | with the intended count, the tick's only transmit asks for exactly the 35 bytes of the record |
| Acquisition.TransmitLength | src/main.c:371 | sizeof(element) * elements equals the element count only for one-byte elements, and exceeds it otherwise |
| Acquisition.TransmitLengthAsWritten | src/main.c:371 | as written, the ASCII build asks the UART to send 140 bytes from the 35-byte buffer; the same expression is right for the hex build's 12 words |
| Acquisition.Firmware.constructor | src/main.c:33-34 | static storage: all buffers zero, the interrupt off, nothing logged |
| Acquisition.Firmware.MaxInit | src/main.c:145-266 | the log grows by exactly the MAX_Init sequence; spi_tx_buffer[0] ends as INITIALIZE and the config buffer as the last write |
| Acquisition.Firmware.StartUp | src/main.c:504-541 | after MAX_Init, the interrupt is enabled, the separators are set, TOF_DIFF is sent, the status is read (spi_tx_buffer[0] ends as READ_INT_STAT_REG), and rx[0..3] is zeroed with rx[3..] unchanged; from a log whose sent records are well formed (such as the empty one) it establishes Running |
| Acquisition.Firmware.GpioIntCallback | src/main.c:393-402 | logs disable, one status transfer into rx[0..3] and clear; spi_tx_buffer[0] ends as READ_INT_STAT_REG; the interrupt ends disabled; rx[3..] unchanged; Running preserved |
| Acquisition.Firmware.PollRtc | src/main.c:424-436 | logs the four RTC transfers in source order, leaves READ_RTC_SECS in spi_tx_buffer[0] and leaves rx[0..9] unchanged |
| Acquisition.Firmware.PollTof | src/main.c:438-444 | logs the two TOF transfers, leaves TOF_DIFF_FRAC in spi_tx_buffer[0] and leaves rx[0..3] and rx[9..] unchanged |
| Acquisition.Firmware.PutSeparators | src/main.c:522-524 | uart_tx_buffer becomes WithSeparators of its old contents |
| Acquisition.Firmware.ProcessRtcAscii | src/main.c:458-479 | uart_tx_buffer becomes RtcAscii of its old contents and spi_rx_buffer |
| Acquisition.Firmware.ProcessTofAscii | src/main.c:481-493 | returns the int16 and uint16 register values and stores the 14-byte field at 21..34 |
| Acquisition.Firmware.PollAndFormat | src/main.c:352-364 | the polls log their six transfers, the record becomes AsciiRecord of its old contents and the bytes read, and rx[0..3] is unchanged |
| Acquisition.Firmware.SendAndRearm | src/main.c:369-383 | logs a transmit of 4 * 35 bytes from the record, then the interrupt enable and TOF_DIFF; only rx[1] changes, to 0; TOF_DIFF ends in spi_tx_buffer[0] |
| Acquisition.Firmware.CallbackRtc | src/main.c:347-391 | with status bit 12 set: six reads, the record built from them, one transmit asking for 140 bytes although the record holds 35, rx[1] := 0, interrupt enabled, TOF_DIFF last in spi_tx_buffer[0], rx[0] and rx[2] kept; with it clear: one status read (READ_INT_STAT_REG in spi_tx_buffer[0]) and nothing else, the interrupt state and record unchanged; Running preserved either way |

## Left out

- SPI_Init, UART_Init, CHIP_Init, the RTCDRV timer set-up and the GPIO pin configuration in setupGPIOInt (src/main.c:275-320, 412-419, 507-517, 543) configure hardware through vendor drivers that are not part of this model. Only setupGPIOInt's final interrupt enable is modelled, as the IntEnable event in StartUp.
- The SPI, UART and GPIO driver calls are log entries. Their timing, completion callbacks and error codes are not modelled, and neither are the empty UART callbacks (src/main.c:323-344).
- Acquisition.Firmware.TransferFrame: MAX_SPI_TXRX clocks three bytes out of the one-byte spi_tx_buffer. Only the opcode byte is recorded; the two bytes read past that buffer are not modelled.
- Acquisition.Firmware.ProcessTofAscii: the float arithmetic and gcvt's decimal formatting are not modelled. The text gcvt produces is a parameter, and its possible overrun of the 12-byte tmp_buffer is not modelled either. The exact value it stands for is Record.TofValue, a real number; single-precision rounding is not modelled.
- Acquisition.Firmware.ProcessTofAscii: the method stores the corrected field Record.TofField (see Findings). It does not write the NUL past the buffer, and a text longer than 12 characters is cut to its first 12. That cut is the usual case: gcvt with 12 significant digits prints most values that have a fraction in 13 to 17 characters (0 + 806/65536 gives "0.0122985839844"). The cut can drop an exponent and change the value: 1/65536 prints "1.52587890625e-05", whose first 12 characters "1.5258789062" read 10^5 times too large.
- Acquisition.Firmware.CallbackRtc: the transmit event records the 140 bytes the source asks for and the 35 record bytes among them. The 105 bytes past uart_tx_buffer that the UART would send are whatever static storage follows the buffer, and they are not modelled.
- Acquisition.TickKeepsRecordsWellFormed: speaks of the 35 bytes of the record only. As written the tick asks the UART for 140 bytes (see Findings), and nothing is promised about the 105 bytes past the buffer. The '\n' and '\r' at indices 33 and 34 come from the corrected field Record.TofField: the firmware as written loses them whenever gcvt's text is longer than 12 characters (Record.AsWrittenLongTextNotWellFormed), so its records are well formed only for texts of at most 12 characters (Record.AsWrittenAgreesInBuffer).
- Record.TofValueSplits: is about the exact real value. The source computes it in single-precision float, and rounding can carry the printed value to the next integer: 1000 + 65535/65536 rounds to 1001.0f, and 32767 + 65535/65536 to 32768.0f.
- Preemption between the GPIO interrupt handler and the RTC timer callback is not modelled. Each handler is one atomic method.
- The hex build (SAVE_HEX_DATA) is compiled out in the source. Its packers processRTC_HEX and processTOF_HEX, and main's delimiter stores, are modelled as functions on a sequence of 32-bit words (Record.RtcHex, Record.TofHex, Record.WithDelimiters), not as a second class.
- HexLut.LutHexString: the uint32_t argument is a natural number below 2^32, and the local uint16_t x is held as its value (x & 0xFF is x % 256, x >>= 8 is x / 256), not as a 16-bit register.
- The commented-out code (src/int_2hex.h:11-12, 32-33, 38; src/main.c:372-375, 525-526, 536) has no behaviour and is not modelled.

## Findings

| source | as written | input that shows it | evidently intended | confidence | as-written member | corrected member |
|---|---|---|---|---|---|---|
| src/main.c:371 | UARTDRV_Transmit is given sizeof(uint32_t) * UART_TX_BUF_LENGTH bytes, correct for the hex build's uint32_t buffer but 140 in the ASCII build, where uart_tx_buffer is 35 bytes | any tick with status bit 12 set in the ASCII build: 140 > 35, so 105 bytes past the buffer are sent | send the 35 bytes of the record (sizeof(uart_tx_buffer)) | not executed | Acquisition.TickOverreadsAsWritten | Acquisition.TickSendsExactRecord |
| src/main.c:492 | sprintf(&uart_tx_buffer[21], "%12s\n\r", ...) stores at least 12 + 2 characters plus a NUL from index 21 | a value text longer than 12 characters, gcvt's usual output for a value with a fraction (such as "0.0122985839844" for 806/65536): its 13th character lands at index 33 and the line end past the buffer; a text of 12 characters or fewer still stores its NUL at index 35 of the 35-byte buffer | a 12-character field, '\n' and '\r' filling indices 21..34 and nothing past them | not executed | Record.AsWrittenLongTextNotWellFormed | Record.TofFieldRoundTrip |
