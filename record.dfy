/// The measurement record the firmware of src/main.c builds from the frames it
/// reads over SPI: the RTC digits of processRTC_ASCII, the time-of-flight
/// value of processTOF_ASCII and the field it prints, the separators main()
/// puts between the fields, and the hex-mode words of processRTC_HEX and
/// processTOF_HEX.
module Record {
  import opened HexCodec
  import opened Bytes

  const SPI_RX_BUF_LENGTH: nat := 21
  /** Length of uart_tx_buffer when the record is sent as ASCII text (bytes). */
  const UART_TX_BUF_LENGTH: nat := 35
  /** Length of uart_tx_buffer in hex mode (32-bit words). */
  const HEX_UART_TX_BUF_LENGTH: nat := 12

  // Where each three-byte SPI transfer lands in spi_rx_buffer.
  const SPI_ISR_LOC: nat := 0
  const SPI_TOF_INT_LOC: nat := 3
  const SPI_TOF_FRAC_LOC: nat := 6
  const SPI_RTC_MM_YY_LOC: nat := 9
  const SPI_RTC_DD_DATE_LOC: nat := 12
  const SPI_RTC_MM_HH_LOC: nat := 15
  const SPI_RTC_SS_LOC: nat := 18

  // ---------------------------------------------------------------------------
  // RTC fields as ASCII digits (processRTC_ASCII)
  // ---------------------------------------------------------------------------

  /** The tens digit of a BCD field: the bits under `mask`, shifted down, plus '0'. */
  function TensDigit(b: byte, mask: byte): byte
  {
    ((b & mask) >> 4) + 0x30
  }

  /** The units digit of a BCD field: the low nibble plus '0'. */
  function UnitsDigit(b: byte): byte
  {
    (b & 0x0F) + 0x30
  }

  /** The hours units digit: in 12-hour mode (bit 6 set) the firmware adds
      '2' rather than '0' to the low nibble. */
  function HourUnitsDigit(b: byte): byte
  {
    if (b & 0x40) == 0x40 then (b & 0x0F) + 0x32 else (b & 0x0F) + 0x30
  }

  /** The record after processRTC_ASCII: fourteen digit positions are
      written from the RTC frames; the other positions are kept. */
  function RtcAscii(u: seq<byte>, rx: seq<byte>): (r: seq<byte>)
    requires |u| == UART_TX_BUF_LENGTH && |rx| == SPI_RX_BUF_LENGTH
    ensures |r| == UART_TX_BUF_LENGTH
  {
    seq(UART_TX_BUF_LENGTH, i requires 0 <= i < UART_TX_BUF_LENGTH => RtcChar(u, rx, i))
  }

  /** Position i of the record after processRTC_ASCII. */
  function RtcChar(u: seq<byte>, rx: seq<byte>, i: nat): byte
    requires |u| == UART_TX_BUF_LENGTH && |rx| == SPI_RX_BUF_LENGTH && i < UART_TX_BUF_LENGTH
  {
    if i == 0 then TensDigit(rx[10], 0x10)            // month
    else if i == 1 then UnitsDigit(rx[10])
    else if i == 3 then TensDigit(rx[14], 0x30)       // date
    else if i == 4 then UnitsDigit(rx[14])
    else if i == 6 then TensDigit(rx[11], 0xF0)       // year
    else if i == 7 then UnitsDigit(rx[11])
    else if i == 9 then TensDigit(rx[17], 0x30)       // hours
    else if i == 10 then HourUnitsDigit(rx[17])
    else if i == 12 then TensDigit(rx[16], 0x70)      // minutes
    else if i == 13 then UnitsDigit(rx[16])
    else if i == 15 then TensDigit(rx[20], 0x70)      // seconds
    else if i == 16 then UnitsDigit(rx[20])
    else if i == 18 then TensDigit(rx[19], 0xF0)      // tenths, hundredths
    else if i == 19 then UnitsDigit(rx[19])
    else u[i]
  }

  /** Writing the fourteen digits one pair at a time gives RtcAscii. */
  lemma {:induction false} RtcAsciiByUpdates(u: seq<byte>, rx: seq<byte>)
    requires |u| == UART_TX_BUF_LENGTH && |rx| == SPI_RX_BUF_LENGTH
    ensures u[0 := TensDigit(rx[10], 0x10)][1 := UnitsDigit(rx[10])]
             [3 := TensDigit(rx[14], 0x30)][4 := UnitsDigit(rx[14])]
             [6 := TensDigit(rx[11], 0xF0)][7 := UnitsDigit(rx[11])]
             [9 := TensDigit(rx[17], 0x30)][10 := HourUnitsDigit(rx[17])]
             [12 := TensDigit(rx[16], 0x70)][13 := UnitsDigit(rx[16])]
             [15 := TensDigit(rx[20], 0x70)][16 := UnitsDigit(rx[20])]
             [18 := TensDigit(rx[19], 0xF0)][19 := UnitsDigit(rx[19])]
            == RtcAscii(u, rx)
  {
    var w := u[0 := TensDigit(rx[10], 0x10)][1 := UnitsDigit(rx[10])]
              [3 := TensDigit(rx[14], 0x30)][4 := UnitsDigit(rx[14])]
              [6 := TensDigit(rx[11], 0xF0)][7 := UnitsDigit(rx[11])]
              [9 := TensDigit(rx[17], 0x30)][10 := HourUnitsDigit(rx[17])]
              [12 := TensDigit(rx[16], 0x70)][13 := UnitsDigit(rx[16])]
              [15 := TensDigit(rx[20], 0x70)][16 := UnitsDigit(rx[20])]
              [18 := TensDigit(rx[19], 0xF0)][19 := UnitsDigit(rx[19])];
    var r := RtcAscii(u, rx);
    forall i | 0 <= i < UART_TX_BUF_LENGTH
      ensures w[i] == r[i]
    {
      assert r[i] == RtcChar(u, rx, i);
      if i < 9 {
        if i < 3 {
        } else if i < 6 {
        } else {
        }
      } else if i < 15 {
        if i < 12 {
        } else {
        }
      } else {
        if i < 18 {
        } else {
        }
      }
    }
  }

  /** RtcAscii position by position. */
  lemma {:induction false} RtcAsciiAt(u: seq<byte>, rx: seq<byte>)
    requires |u| == UART_TX_BUF_LENGTH && |rx| == SPI_RX_BUF_LENGTH
    ensures var r := RtcAscii(u, rx);
      && r[0] == TensDigit(rx[10], 0x10) && r[1] == UnitsDigit(rx[10])
      && r[3] == TensDigit(rx[14], 0x30) && r[4] == UnitsDigit(rx[14])
      && r[6] == TensDigit(rx[11], 0xF0) && r[7] == UnitsDigit(rx[11])
      && r[9] == TensDigit(rx[17], 0x30) && r[10] == HourUnitsDigit(rx[17])
      && r[12] == TensDigit(rx[16], 0x70) && r[13] == UnitsDigit(rx[16])
      && r[15] == TensDigit(rx[20], 0x70) && r[16] == UnitsDigit(rx[20])
      && r[18] == TensDigit(rx[19], 0xF0) && r[19] == UnitsDigit(rx[19])
  {
    var r := RtcAscii(u, rx);
    assert r[0] == RtcChar(u, rx, 0) && r[1] == RtcChar(u, rx, 1);
    assert r[3] == RtcChar(u, rx, 3) && r[4] == RtcChar(u, rx, 4);
    assert r[6] == RtcChar(u, rx, 6) && r[7] == RtcChar(u, rx, 7);
    assert r[9] == RtcChar(u, rx, 9) && r[10] == RtcChar(u, rx, 10);
    assert r[12] == RtcChar(u, rx, 12) && r[13] == RtcChar(u, rx, 13);
    assert r[15] == RtcChar(u, rx, 15) && r[16] == RtcChar(u, rx, 16);
    assert r[18] == RtcChar(u, rx, 18) && r[19] == RtcChar(u, rx, 19);
  }

  /** The record positions processRTC_ASCII writes. */
  predicate IsRtcPosition(i: int)
  {
    i == 0 || i == 1 || i == 3 || i == 4 || i == 6 || i == 7 || i == 9 || i == 10
    || i == 12 || i == 13 || i == 15 || i == 16 || i == 18 || i == 19
  }

  /** Every other position of the record is left as it was. */
  lemma RtcAsciiWritesOnlyDigits(u: seq<byte>, rx: seq<byte>)
    requires |u| == UART_TX_BUF_LENGTH && |rx| == SPI_RX_BUF_LENGTH
    ensures forall i | 0 <= i < UART_TX_BUF_LENGTH && !IsRtcPosition(i) :: RtcAscii(u, rx)[i] == u[i]
  {
  }

  /** The RTC digits depend only on the data bytes of the frames: the byte
      clocked in while the opcode goes out (rx[9], rx[12], rx[15], rx[18]),
      the day-of-week byte rx[13] and the status and TOF frames are not read. */
  lemma RtcAsciiReadsDataBytesOnly(u: seq<byte>, rx: seq<byte>, rx': seq<byte>)
    requires |u| == UART_TX_BUF_LENGTH && |rx| == SPI_RX_BUF_LENGTH && |rx'| == SPI_RX_BUF_LENGTH
    requires rx[10] == rx'[10] && rx[11] == rx'[11] && rx[14] == rx'[14]
    requires rx[16] == rx'[16] && rx[17] == rx'[17] && rx[19] == rx'[19] && rx[20] == rx'[20]
    ensures RtcAscii(u, rx) == RtcAscii(u, rx')
  {
  }

  /** The numeric value of an ASCII digit. */
  function DigitValue(c: byte): int
  {
    c as int - 0x30
  }

  /** The two-digit decimal number a tens and a units character spell. */
  function Decimal2(tens: byte, units: byte): int
  {
    10 * DigitValue(tens) + DigitValue(units)
  }

  /** The decimal value of a BCD register field: tens in the bits under
      `mask` (upper nibble), units in the low nibble. */
  function BcdValue(b: byte, mask: byte): nat
  {
    10 * ((b & mask) >> 4) as int + (b & 0x0F) as int
  }

  /** A tens/units digit pair spells the BCD value of its field, and the tens
      digit never exceeds what the mask allows. */
  lemma {:induction false} DigitPairSpellsBcd(b: byte, mask: byte)
    requires mask & 0x0F == 0
    ensures Decimal2(TensDigit(b, mask), UnitsDigit(b)) == BcdValue(b, mask)
    ensures 0 <= DigitValue(TensDigit(b, mask)) <= (mask >> 4) as int
    ensures 0 <= DigitValue(UnitsDigit(b)) <= 15
  {
    var t := (b & mask) >> 4;
    assert t <= mask >> 4;
    assert t < 16;
    assert (t + 0x30) as int == t as int + 0x30;
    var n := b & 0x0F;
    assert n < 16;
    assert (n + 0x30) as int == n as int + 0x30;
  }

  /** Each date digit pair of the record spells the BCD value of the
      register field it comes from. */
  lemma RtcDateSpellsBcd(u: seq<byte>, rx: seq<byte>)
    requires |u| == UART_TX_BUF_LENGTH && |rx| == SPI_RX_BUF_LENGTH
    ensures var r := RtcAscii(u, rx);
      && Decimal2(r[0], r[1]) == BcdValue(rx[10], 0x10)
      && Decimal2(r[3], r[4]) == BcdValue(rx[14], 0x30)
      && Decimal2(r[6], r[7]) == BcdValue(rx[11], 0xF0)
  {
    var r := RtcAscii(u, rx);
    RtcAsciiAt(u, rx);
    PairSpellsBcd(r, 0, rx[10], 0x10);
    PairSpellsBcd(r, 3, rx[14], 0x30);
    PairSpellsBcd(r, 6, rx[11], 0xF0);
  }

  /** The minutes, seconds and hundredths pairs spell the BCD values of
      their register fields. */
  lemma RtcTimeSpellsBcd(u: seq<byte>, rx: seq<byte>)
    requires |u| == UART_TX_BUF_LENGTH && |rx| == SPI_RX_BUF_LENGTH
    ensures var r := RtcAscii(u, rx);
      && Decimal2(r[12], r[13]) == BcdValue(rx[16], 0x70)
      && Decimal2(r[15], r[16]) == BcdValue(rx[20], 0x70)
      && Decimal2(r[18], r[19]) == BcdValue(rx[19], 0xF0)
  {
    var r := RtcAscii(u, rx);
    RtcAsciiAt(u, rx);
    PairSpellsBcd(r, 12, rx[16], 0x70);
    PairSpellsBcd(r, 15, rx[20], 0x70);
    PairSpellsBcd(r, 18, rx[19], 0xF0);
  }

  /** The hours pair reads the BCD hours, plus two in 12-hour mode. */
  lemma RtcHourSpellsBcd(u: seq<byte>, rx: seq<byte>)
    requires |u| == UART_TX_BUF_LENGTH && |rx| == SPI_RX_BUF_LENGTH
    ensures var r := RtcAscii(u, rx);
      Decimal2(r[9], r[10]) == BcdValue(rx[17], 0x30) + (if (rx[17] & 0x40) == 0x40 then 2 else 0)
  {
    RtcAsciiAt(u, rx);
    HourPairValue(rx[17]);
  }

  lemma {:induction false} PairSpellsBcd(r: seq<byte>, k: nat, b: byte, mask: byte)
    requires k + 1 < |r| && mask & 0x0F == 0
    requires r[k] == TensDigit(b, mask) && r[k + 1] == UnitsDigit(b)
    ensures Decimal2(r[k], r[k + 1]) == BcdValue(b, mask)
  {
    DigitPairSpellsBcd(b, mask);
  }

  /** The hours pair: the BCD value, plus two in 12-hour mode. */
  lemma {:induction false} HourPairValue(b: byte)
    ensures Decimal2(TensDigit(b, 0x30), HourUnitsDigit(b)) == BcdValue(b, 0x30) + (if (b & 0x40) == 0x40 then 2 else 0)
  {
    DigitPairSpellsBcd(b, 0x30);
    HourUnitsValue(b);
  }

  lemma {:induction false} HourUnitsValue(b: byte)
    ensures DigitValue(HourUnitsDigit(b)) == (b & 0x0F) as int + (if (b & 0x40) == 0x40 then 2 else 0)
  {
    var n := b & 0x0F;
    assert n < 16;
    assert (n + 0x32) as int == n as int + 0x32;
    assert (n + 0x30) as int == n as int + 0x30;
  }

  /** The tens digits stay within the range their masks allow: month '0'-'1',
      date and hours '0'-'3', minutes and seconds '0'-'7'. The hours tens
      digit is the same in 12- and 24-hour mode. */
  lemma RtcAsciiTensRanges(u: seq<byte>, rx: seq<byte>)
    requires |u| == UART_TX_BUF_LENGTH && |rx| == SPI_RX_BUF_LENGTH
    ensures var r := RtcAscii(u, rx);
      && 0x30 <= r[0] <= 0x31
      && 0x30 <= r[3] <= 0x33 && 0x30 <= r[9] <= 0x33
      && 0x30 <= r[12] <= 0x37 && 0x30 <= r[15] <= 0x37
      && 0x30 <= r[6] <= 0x3F && 0x30 <= r[18] <= 0x3F
    ensures RtcAscii(u, rx)[9] == RtcAscii(u, rx[17 := rx[17] ^ 0x40])[9]
  {
  }

  /** In 12-hour mode the hours units character need not be a digit at all:
      hour 8 comes out as ':'. */
  lemma HourQuirkLeavesDigits(u: seq<byte>, rx: seq<byte>)
    requires |u| == UART_TX_BUF_LENGTH && |rx| == SPI_RX_BUF_LENGTH
    requires rx[17] == 0x48
    ensures RtcAscii(u, rx)[10] == 0x3A
  {
  }

  // ---------------------------------------------------------------------------
  // Time of flight (processTOF_ASCII)
  // ---------------------------------------------------------------------------

  /** `(hi << 8) | lo`: a big-endian 16-bit register value. */
  function BigEndian16(hi: byte, lo: byte): (v: nat)
    ensures v < 65536
    ensures v / 256 == hi as int && v % 256 == lo as int
  {
    hi as int * 256 + lo as int
  }

  /** The 16-bit value read back as `int16_t` (two's complement). */
  function TofDiffInt(hi: byte, lo: byte): (v: int)
    ensures -32768 <= v < 32768
    ensures (v - BigEndian16(hi, lo)) % 65536 == 0
    ensures v < 0 <==> (hi & 0x80) == 0x80
  {
    var w := BigEndian16(hi, lo);
    SignBit(hi);
    if w >= 32768 then w - 65536 else w
  }

  lemma {:induction false} SignBit(hi: byte)
    ensures hi as int >= 128 <==> (hi & 0x80) == 0x80
  {
  }

  /** The `uint16_t` fraction register: 1/65536ths of a clock period. */
  function TofDiffFrac(hi: byte, lo: byte): (v: nat)
    ensures v < 65536
    ensures v / 256 == hi as int && v % 256 == lo as int
  {
    BigEndian16(hi, lo)
  }

  /** The high and low byte of a 16-bit two's complement value. */
  function Int16High(v: int): byte
    requires -32768 <= v < 32768
  {
    (((v + 65536) % 65536) / 256) as byte
  }

  function Int16Low(v: int): byte
    requires -32768 <= v < 32768
  {
    ((v + 65536) % 256) as byte
  }

  /** Every int16 value is read back from its own two bytes. */
  lemma {:induction false} TofDiffIntRoundTrip(v: int)
    requires -32768 <= v < 32768
    ensures TofDiffInt(Int16High(v), Int16Low(v)) == v
  {
    var w := if v >= 0 then v else v + 65536;
    Int16Residues(v, w);
    ByteOfInt(w / 256);
    ByteOfInt(w % 256);
    assert BigEndian16(Int16High(v), Int16Low(v)) == w;
  }

  lemma {:induction false} Int16Residues(v: int, w: int)
    requires -32768 <= v < 32768 && w == if v >= 0 then v else v + 65536
    ensures (v + 65536) % 65536 == w && (v + 65536) % 256 == w % 256
  {
    if v < 0 {
      assert v + 65536 == w;
    } else {
      assert v + 65536 == w + 256 * 256;
    }
  }

  /** Different frames never give the same integer part. */
  lemma {:induction false} TofDiffIntInjective(hi: byte, lo: byte, hi': byte, lo': byte)
    requires TofDiffInt(hi, lo) == TofDiffInt(hi', lo')
    ensures hi == hi' && lo == lo'
  {
    var w := BigEndian16(hi, lo);
    var w' := BigEndian16(hi', lo');
    var v := TofDiffInt(hi, lo);
    assert w == w' by {
      if v < 0 {
        assert w == v + 65536 && w' == v + 65536;
      } else {
        assert w == v && w' == v;
      }
    }
    assert hi as int == hi' as int && lo as int == lo' as int;
    assert hi == (hi as int) as byte && hi' == (hi' as int) as byte;
    assert lo == (lo as int) as byte && lo' == (lo' as int) as byte;
  }

  /** `tofDiffInt + tofDiffFrac / 65536`, the value processTOF_ASCII prints,
      computed exactly (the firmware computes it in single precision). */
  function TofValue(rx: seq<byte>): real
    requires |rx| == SPI_RX_BUF_LENGTH
  {
    TofDiffInt(rx[4], rx[5]) as real + TofDiffFrac(rx[7], rx[8]) as real / 65536.0
  }

  /** The integer register is the floor of the value and the fraction
      register the part below one. */
  lemma TofValueSplits(rx: seq<byte>)
    requires |rx| == SPI_RX_BUF_LENGTH
    ensures TofDiffInt(rx[4], rx[5]) as real <= TofValue(rx) < TofDiffInt(rx[4], rx[5]) as real + 1.0
    ensures TofValue(rx).Floor == TofDiffInt(rx[4], rx[5])
    ensures -32768.0 <= TofValue(rx) < 32768.0
  {
  }

  // ---------------------------------------------------------------------------
  // The printed TOF field: `sprintf(&uart_tx_buffer[21], "%12s\n\r", text)`
  // ---------------------------------------------------------------------------

  function Spaces(n: nat): (s: seq<byte>)
    ensures |s| == n && forall k | 0 <= k < n :: s[k] == 0x20
  {
    seq(n, _ => 0x20)
  }

  /** `%12s`: the text right-justified in a field of at least 12 characters. */
  function Padded12(text: seq<byte>): (s: seq<byte>)
    ensures |s| == if |text| <= 12 then 12 else |text|
  {
    if |text| <= 12 then Spaces(12 - |text|) + text else text
  }

  /** As written: sprintf stores the padded text, '\n', '\r' and a
      terminating NUL from index 21 on, into `mem`, the 35-byte buffer
      followed by whatever memory lies after it. */
  function SprintfAsWritten(mem: seq<byte>, text: seq<byte>): (m: seq<byte>)
    requires |mem| >= 21 + |Padded12(text)| + 3
    ensures |m| == |mem|
  {
    var written := Padded12(text) + [0x0A, 0x0D, 0x00];
    mem[..21] + written + mem[21 + |written|..]
  }

  /** The terminating NUL always lands past the 35-byte buffer: at index 35
      for a text of at most 12 characters, further on for a longer one,
      whose last characters occupy 33 and 34; its '\r', and from 14
      characters on its '\n' too, falls outside. */
  lemma SprintfWritesPastRecord(mem: seq<byte>, text: seq<byte>)
    requires |mem| >= 21 + |Padded12(text)| + 3
    ensures |text| <= 12 ==> SprintfAsWritten(mem, text)[UART_TX_BUF_LENGTH] == 0x00
    ensures 21 + |Padded12(text)| + 3 > UART_TX_BUF_LENGTH
    ensures |text| > 12 ==> SprintfAsWritten(mem, text)[21 + |text|] == 0x0A
  {
    var written := Padded12(text) + [0x0A, 0x0D, 0x00];
    assert SprintfAsWritten(mem, text)[21 + |written| - 1] == 0x00;
  }

  /** As written, a value text longer than 12 characters (gcvt's usual
      output for a value with a fraction) pushes the line end out of the
      record: position 33 holds its 13th character, so the 35 bytes in the
      buffer do not end in "\n\r". */
  lemma AsWrittenLongTextNotWellFormed(mem: seq<byte>, text: seq<byte>)
    requires |text| >= 13 && |mem| >= 21 + |text| + 3 && text[12] != 0x0A
    ensures |Padded12(text)| == |text|
    ensures SprintfAsWritten(mem, text)[33] == text[12]
    ensures !WellFormedRecord(SprintfAsWritten(mem, text)[..UART_TX_BUF_LENGTH])
  {
    var m := SprintfAsWritten(mem, text);
    assert m[33] == Padded12(text)[12] == text[12];
    assert m[..UART_TX_BUF_LENGTH][33] == m[33];
  }

  /** As written, a text of at most 12 characters leaves in the buffer
      exactly the field of the corrected TofAscii; only its NUL is stored
      past the end. */
  lemma AsWrittenAgreesInBuffer(mem: seq<byte>, text: seq<byte>)
    requires |text| <= 12 && |mem| >= 21 + 12 + 3
    ensures SprintfAsWritten(mem, text)[..UART_TX_BUF_LENGTH] == TofAscii(mem[..UART_TX_BUF_LENGTH], text)
  {
    var m := SprintfAsWritten(mem, text);
    var f := TofField(text);
    assert f == Padded12(text) + [0x0A, 0x0D];
    forall i | 0 <= i < UART_TX_BUF_LENGTH
      ensures m[i] == TofAscii(mem[..UART_TX_BUF_LENGTH], text)[i]
    {
      if i >= 21 {
        assert m[i] == (Padded12(text) + [0x0A, 0x0D, 0x00])[i - 21];
      }
    }
  }

  /** The field as the record layout means it: exactly 12 characters (the
      text right-justified, cut to its first 12 characters if longer), then
      '\n' and '\r', ending at the last byte of the buffer. */
  function TofField(text: seq<byte>): (f: seq<byte>)
    ensures |f| == 14 && f[12] == 0x0A && f[13] == 0x0D
  {
    var t := if |text| <= 12 then text else text[..12];
    Spaces(12 - |t|) + t + [0x0A, 0x0D]
  }

  /** The record after the corrected processTOF_ASCII: positions 21 to 34
      hold the field, nothing before them changes. */
  function TofAscii(u: seq<byte>, text: seq<byte>): (r: seq<byte>)
    requires |u| == UART_TX_BUF_LENGTH
    ensures |r| == UART_TX_BUF_LENGTH
  {
    u[..21] + TofField(text)
  }

  /** Leading spaces removed. */
  function TrimLeft(s: seq<byte>): seq<byte>
  {
    if |s| > 0 && s[0] == 0x20 then TrimLeft(s[1..]) else s
  }

  lemma {:induction false} TrimSpaces(n: nat, t: seq<byte>)
    requires |t| > 0 && t[0] != 0x20
    ensures TrimLeft(Spaces(n) + t) == t
  {
    if n > 0 {
      assert (Spaces(n) + t)[1..] == Spaces(n - 1) + t;
      TrimSpaces(n - 1, t);
    } else {
      assert Spaces(n) + t == t;
    }
  }

  /** A reader of the record gets back the text of a value that fits: the
      characters at 21..32 with leading spaces removed. */
  lemma TofFieldRoundTrip(u: seq<byte>, text: seq<byte>)
    requires |u| == UART_TX_BUF_LENGTH
    requires 0 < |text| <= 12 && text[0] != 0x20
    ensures TrimLeft(TofAscii(u, text)[21..33]) == text
    ensures TofAscii(u, text)[..21] == u[..21]
    ensures TofAscii(u, text)[33] == 0x0A && TofAscii(u, text)[34] == 0x0D
  {
    var r := TofAscii(u, text);
    assert r[21..33] == Spaces(12 - |text|) + text;
    TrimSpaces(12 - |text|, text);
  }

  // ---------------------------------------------------------------------------
  // Separators (main) and the whole ASCII record
  // ---------------------------------------------------------------------------

  /** main(): '/' at 2 and 5, a space (0x20) at 8 and 20, ':' at 11, 14, 17. */
  function WithSeparators(u: seq<byte>): (r: seq<byte>)
    requires |u| == UART_TX_BUF_LENGTH
    ensures |r| == UART_TX_BUF_LENGTH
  {
    u[2 := 0x2F][5 := 0x2F][8 := 0x20][20 := 0x20][11 := 0x3A][14 := 0x3A][17 := 0x3A]
  }

  predicate SeparatorsSet(u: seq<byte>)
    requires |u| == UART_TX_BUF_LENGTH
  {
    u[2] == 0x2F && u[5] == 0x2F && u[8] == 0x20 && u[20] == 0x20
    && u[11] == 0x3A && u[14] == 0x3A && u[17] == 0x3A
  }

  /** After main's assignments the separators are in place, and nothing else
      was written. */
  lemma SeparatorsInPlace(u: seq<byte>)
    requires |u| == UART_TX_BUF_LENGTH
    ensures SeparatorsSet(WithSeparators(u))
    ensures forall i | 0 <= i < UART_TX_BUF_LENGTH && i !in {2, 5, 8, 11, 14, 17, 20} :: WithSeparators(u)[i] == u[i]
  {
  }

  /** One tick of ASCII processing: RTC digits, then the TOF field. */
  function AsciiRecord(u: seq<byte>, rx: seq<byte>, text: seq<byte>): (r: seq<byte>)
    requires |u| == UART_TX_BUF_LENGTH && |rx| == SPI_RX_BUF_LENGTH
    ensures |r| == UART_TX_BUF_LENGTH
  {
    TofAscii(RtcAscii(u, rx), text)
  }

  /** The layout of a complete record: separators, digit-like characters
      ('0' to 'A') at every RTC position, "\n\r" at the end. */
  predicate WellFormedRecord(r: seq<byte>)
    requires |r| == UART_TX_BUF_LENGTH
  {
    && SeparatorsSet(r)
    && (forall i | 0 <= i < UART_TX_BUF_LENGTH && IsRtcPosition(i) :: 0x30 <= r[i] <= 0x41)
    && r[33] == 0x0A && r[34] == 0x0D
  }

  /** Processing never overwrites a separator, so once main has set them
      every record sent is well formed. */
  lemma {:induction false} AsciiRecordWellFormed(u: seq<byte>, rx: seq<byte>, text: seq<byte>)
    requires |u| == UART_TX_BUF_LENGTH && |rx| == SPI_RX_BUF_LENGTH
    requires SeparatorsSet(u)
    ensures WellFormedRecord(AsciiRecord(u, rx, text))
  {
    var m := RtcAscii(u, rx);
    RtcAsciiWritesOnlyDigits(u, rx);
    RtcDigitsInRange(u, rx);
    var r := AsciiRecord(u, rx, text);
    assert r[..21] == m[..21];
    forall i | 0 <= i < UART_TX_BUF_LENGTH && IsRtcPosition(i)
      ensures 0x30 <= r[i] <= 0x41
    {
      assert r[i] == m[i];
    }
  }

  lemma {:induction false} RtcDigitsInRange(u: seq<byte>, rx: seq<byte>)
    requires |u| == UART_TX_BUF_LENGTH && |rx| == SPI_RX_BUF_LENGTH
    ensures var r := RtcAscii(u, rx);
      && 0x30 <= r[0] <= 0x41 && 0x30 <= r[1] <= 0x41 && 0x30 <= r[3] <= 0x41 && 0x30 <= r[4] <= 0x41
      && 0x30 <= r[6] <= 0x41 && 0x30 <= r[7] <= 0x41 && 0x30 <= r[9] <= 0x41 && 0x30 <= r[10] <= 0x41
      && 0x30 <= r[12] <= 0x41 && 0x30 <= r[13] <= 0x41 && 0x30 <= r[15] <= 0x41 && 0x30 <= r[16] <= 0x41
      && 0x30 <= r[18] <= 0x41 && 0x30 <= r[19] <= 0x41
  {
    var r := RtcAscii(u, rx);
    DateDigitsInRange(u, rx);
    assert r[9] == TensDigit(rx[17], 0x30) && r[10] == HourUnitsDigit(rx[17]);
    DigitRange(rx[17], 0x30);
    assert r[12] == TensDigit(rx[16], 0x70) && r[13] == UnitsDigit(rx[16]);
    DigitRange(rx[16], 0x70);
    assert r[15] == TensDigit(rx[20], 0x70) && r[16] == UnitsDigit(rx[20]);
    DigitRange(rx[20], 0x70);
    assert r[18] == TensDigit(rx[19], 0xF0) && r[19] == UnitsDigit(rx[19]);
    DigitRange(rx[19], 0xF0);
  }

  lemma {:induction false} DateDigitsInRange(u: seq<byte>, rx: seq<byte>)
    requires |u| == UART_TX_BUF_LENGTH && |rx| == SPI_RX_BUF_LENGTH
    ensures var r := RtcAscii(u, rx);
      && 0x30 <= r[0] <= 0x41 && 0x30 <= r[1] <= 0x41 && 0x30 <= r[3] <= 0x41 && 0x30 <= r[4] <= 0x41
      && 0x30 <= r[6] <= 0x41 && 0x30 <= r[7] <= 0x41
  {
    var r := RtcAscii(u, rx);
    assert r[0] == TensDigit(rx[10], 0x10) && r[1] == UnitsDigit(rx[10]);
    DigitRange(rx[10], 0x10);
    assert r[3] == TensDigit(rx[14], 0x30) && r[4] == UnitsDigit(rx[14]);
    DigitRange(rx[14], 0x30);
    assert r[6] == TensDigit(rx[11], 0xF0) && r[7] == UnitsDigit(rx[11]);
    DigitRange(rx[11], 0xF0);
  }

  lemma {:induction false} DigitRange(b: byte, mask: byte)
    ensures 0x30 <= TensDigit(b, mask) <= 0x3F
    ensures 0x30 <= UnitsDigit(b) <= 0x3F
    ensures 0x30 <= HourUnitsDigit(b) <= 0x41
  {
  }

  // ---------------------------------------------------------------------------
  // Hex mode (processRTC_HEX, processTOF_HEX)
  // ---------------------------------------------------------------------------

  /** `*(uint16_t *)&rx[k]` on the little-endian target: rx[k] is the low byte. */
  function LoadLe16(rx: seq<byte>, k: nat): bv16
    requires k + 1 < |rx|
  {
    ((rx[k + 1] as bv16) << 8) | (rx[k] as bv16)
  }

  lemma {:induction false} LoadLe16Value(rx: seq<byte>, k: nat)
    requires k + 1 < |rx|
    ensures LoadLe16(rx, k) as int == BigEndian16(rx[k + 1], rx[k])
  {
    var v := LoadLe16(rx, k);
    BytesValue(v);
    assert (v >> 8) as bv8 == rx[k + 1];
    assert (v & 0xFF) as bv8 == rx[k];
    assert (v >> 8) as int == rx[k + 1] as int;
    assert (v & 0xFF) as int == rx[k] as int;
  }

  /** processRTC_HEX: words 4, 6, 8 and 10 get the hex text of the four RTC
      registers. */
  function RtcHex(w: seq<bv32>, rx: seq<byte>): (r: seq<bv32>)
    requires |w| == HEX_UART_TX_BUF_LENGTH && |rx| == SPI_RX_BUF_LENGTH
    ensures |r| == HEX_UART_TX_BUF_LENGTH
  {
    w[4 := Int16ToHex(LoadLe16(rx, 10))][6 := Int16ToHex(LoadLe16(rx, 13))]
     [8 := Int16ToHex(LoadLe16(rx, 16))][10 := Int16ToHex(LoadLe16(rx, 19))]
  }

  /** processTOF_HEX: words 0 and 2 get the hex text of the two TOF registers. */
  function TofHex(w: seq<bv32>, rx: seq<byte>): (r: seq<bv32>)
    requires |w| == HEX_UART_TX_BUF_LENGTH && |rx| == SPI_RX_BUF_LENGTH
    ensures |r| == HEX_UART_TX_BUF_LENGTH
  {
    w[0 := Int16ToHex(LoadLe16(rx, 4))][2 := Int16ToHex(LoadLe16(rx, 7))]
  }

  /** The hex word for the register at rx[k], rx[k+1] spells its two bytes
      swapped: the little-endian load reverses the big-endian order the
      device sends them in (and that processTOF_ASCII assembles). */
  lemma {:induction false} HexWordSpellsSwappedBytes(rx: seq<byte>, k: nat)
    requires k + 1 < |rx|
    ensures Text32(Int16ToHex(LoadLe16(rx, k))) == HexString(BigEndian16(rx[k + 1], rx[k]), 4, false)
  {
    Int16ToHexSpellsHex(LoadLe16(rx, k));
    LoadLe16Value(rx, k);
  }

  /** The hex-mode TOF words: the integer and fraction registers spelled
      with their bytes swapped (TofDiffFrac of the swapped pair). */
  lemma TofHexWords(w: seq<bv32>, rx: seq<byte>)
    requires |w| == HEX_UART_TX_BUF_LENGTH && |rx| == SPI_RX_BUF_LENGTH
    ensures Text32(TofHex(w, rx)[0]) == HexString(BigEndian16(rx[5], rx[4]), 4, false)
    ensures Text32(TofHex(w, rx)[2]) == HexString(TofDiffFrac(rx[8], rx[7]), 4, false)
  {
    HexWordSpellsSwappedBytes(rx, 4);
    HexWordSpellsSwappedBytes(rx, 7);
  }

  /** The hex-mode date words: year then month, and date then day of week. */
  lemma RtcHexDateWords(w: seq<bv32>, rx: seq<byte>)
    requires |w| == HEX_UART_TX_BUF_LENGTH && |rx| == SPI_RX_BUF_LENGTH
    ensures Text32(RtcHex(w, rx)[4]) == HexString(BigEndian16(rx[11], rx[10]), 4, false)
    ensures Text32(RtcHex(w, rx)[6]) == HexString(BigEndian16(rx[14], rx[13]), 4, false)
  {
    HexWordSpellsSwappedBytes(rx, 10);
    HexWordSpellsSwappedBytes(rx, 13);
  }

  /** The hex-mode time words: hours then minutes, and seconds then
      hundredths. */
  lemma RtcHexTimeWords(w: seq<bv32>, rx: seq<byte>)
    requires |w| == HEX_UART_TX_BUF_LENGTH && |rx| == SPI_RX_BUF_LENGTH
    ensures Text32(RtcHex(w, rx)[8]) == HexString(BigEndian16(rx[17], rx[16]), 4, false)
    ensures Text32(RtcHex(w, rx)[10]) == HexString(BigEndian16(rx[20], rx[19]), 4, false)
  {
    HexWordSpellsSwappedBytes(rx, 16);
    HexWordSpellsSwappedBytes(rx, 19);
  }

  /** main() in hex mode: a space word (0x00000020) at every odd index. */
  function WithDelimiters(w: seq<bv32>): (r: seq<bv32>)
    requires |w| == HEX_UART_TX_BUF_LENGTH
    ensures |r| == HEX_UART_TX_BUF_LENGTH
  {
    w[1 := 0x20][3 := 0x20][5 := 0x20][7 := 0x20][9 := 0x20][11 := 0x20]
  }

  /** Packing never overwrites a delimiter: the words written are the even ones. */
  lemma HexRecordKeepsDelimiters(w: seq<bv32>, rx: seq<byte>)
    requires |w| == HEX_UART_TX_BUF_LENGTH && |rx| == SPI_RX_BUF_LENGTH
    ensures forall i | 0 <= i < HEX_UART_TX_BUF_LENGTH && i % 2 == 1 ::
      TofHex(RtcHex(WithDelimiters(w), rx), rx)[i] == 0x20
  {
    var d := WithDelimiters(w);
    var r := RtcHex(d, rx);
    forall i | 0 <= i < HEX_UART_TX_BUF_LENGTH && i % 2 == 1
      ensures TofHex(r, rx)[i] == 0x20
    {
      assert i == 1 || i == 3 || i == 5 || i == 7 || i == 9 || i == 11;
      assert d[i] == 0x20;
      assert r[i] == d[i];
    }
  }
}
