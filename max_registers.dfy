/// The opcode map of the MAX35103 time-to-digital converter, as the
/// firmware names it in src/max_macros.h, and the structure the map has:
/// read/write pairs that differ in bit 7, dense execution and result ranges,
/// one alias and one inverted pair.
module MaxRegisters {

  /** An opcode byte, by value. */
  type Opcode = b: int | 0 <= b < 256

  /** The opcode that does nothing. */
  const NULL_CMD: Opcode := 0xA0

  // Execution opcode commands
  const TOF_UP: Opcode := 0x00
  const TOF_DOWN: Opcode := 0x01
  const TOF_DIFF: Opcode := 0x02
  const TEMPERATURE: Opcode := 0x03
  const RESET: Opcode := 0x04
  const INITIALIZE: Opcode := 0x05
  const TX_CONFIG_FLASH: Opcode := 0x06
  const EVTMG1: Opcode := 0x07
  const EVTMG2: Opcode := 0x08
  const EVTMG3: Opcode := 0x09
  const HALT: Opcode := 0x0A
  const LDO_TIMED: Opcode := 0x0B
  const LDO_ON: Opcode := 0x0C
  const LDO_OFF: Opcode := 0x0D
  const CLBRT: Opcode := 0x0E

  // RTC and watchdog registers
  const READ_RTC_SECS: Opcode := 0xB0
  const WRITE_RTC_SECS: Opcode := 0x30
  const READ_RTC_MIN_HRS: Opcode := 0xB1
  const WRITE_RTC_MIN_HRS: Opcode := 0x31
  const READ_RTC_DAY_DATE: Opcode := 0xB2
  const WRITE_RTC_DAY_DATE: Opcode := 0x32
  const READ_RTC_M_Y: Opcode := 0xB3
  const WRITE_RTC_M_Y: Opcode := 0x33
  const READ_WD_ALARM_CNT: Opcode := 0xB4
  const WRITE_WD_ALARM_CNT: Opcode := 0x34
  const READ_ALARM: Opcode := 0xB5
  const WRITE_ALARM: Opcode := 0x35

  // Configuration registers (READ_EVT_TIMING2 pairs with WRITE_EVT_TIMING3)
  const READ_TOF1: Opcode := 0xB8
  const WRITE_TOF1: Opcode := 0x38
  const READ_TOF2: Opcode := 0xB9
  const WRITE_TOF2: Opcode := 0x39
  const READ_TOF3: Opcode := 0xBA
  const WRITE_TOF3: Opcode := 0x3A
  const READ_TOF4: Opcode := 0xBB
  const WRITE_TOF4: Opcode := 0x3B
  const READ_TOF5: Opcode := 0xBC
  const WRITE_TOF5: Opcode := 0x3C
  const READ_TOF6: Opcode := 0xBD
  const WRITE_TOF6: Opcode := 0x3D
  const READ_TOF7: Opcode := 0xBE
  const WRITE_TOF7: Opcode := 0x3E
  const READ_EVT_TIMING1: Opcode := 0xBF
  const WRITE_EVT_TIMING1: Opcode := 0x3F
  const READ_EVT_TIMING2: Opcode := 0xC0
  const WRITE_EVT_TIMING3: Opcode := 0x40
  const READ_TOF_MEAS_DELAY: Opcode := 0xC1
  const WRITE_TOF_MEAS_DELAY: Opcode := 0x41
  const READ_CLBRT_CTRL: Opcode := 0xC2
  const WRITE_CLBRT_CTRL: Opcode := 0x42
  const READ_RTC: Opcode := 0xC3
  const WRITE_RTC: Opcode := 0x43

  // Conversion results registers (read only); TOF_CYCLE_COUNT and TOF_RANGE
  // are the low and high byte of one register, so they share an opcode
  const WVRUP: Opcode := 0xC4
  const HIT1_UP_INT: Opcode := 0xC5
  const HIT1_UP_FRAC: Opcode := 0xC6
  const HIT2_UP_INT: Opcode := 0xC7
  const HIT2_UP_FRAC: Opcode := 0xC8
  const HIT3_UP_INT: Opcode := 0xC9
  const HIT3_UP_FRAC: Opcode := 0xCA
  const HIT4_UP_INT: Opcode := 0xCB
  const HIT4_UP_FRAC: Opcode := 0xCC
  const HIT5_UP_INT: Opcode := 0xCD
  const HIT5_UP_FRAC: Opcode := 0xCE
  const HIT6_UP_INT: Opcode := 0xCF
  const HIT6_UP_FRAC: Opcode := 0xD0
  const AVG_UP_INT: Opcode := 0xD1
  const AVG_UP_FRAC: Opcode := 0xD2
  const WVRDN: Opcode := 0xD3
  const HIT1_DN_INT: Opcode := 0xD4
  const HIT1_DN_FRAC: Opcode := 0xD5
  const HIT2_DN_INT: Opcode := 0xD6
  const HIT2_DN_FRAC: Opcode := 0xD7
  const HIT3_DN_INT: Opcode := 0xD8
  const HIT3_DN_FRAC: Opcode := 0xD9
  const HIT4_DN_INT: Opcode := 0xDA
  const HIT4_DN_FRAC: Opcode := 0xDB
  const HIT5_DN_INT: Opcode := 0xDC
  const HIT5_DN_FRAC: Opcode := 0xDD
  const HIT6_DN_INT: Opcode := 0xDE
  const HIT7_DN_FRAC: Opcode := 0xDF
  const AVG_DN_INT: Opcode := 0xE0
  const AVG_DN_FRAC: Opcode := 0xE1
  const TOF_DIFF_INT: Opcode := 0xE2
  const TOF_DIFF_FRAC: Opcode := 0xE3
  const TOF_CYCLE_COUNT: Opcode := 0xE4
  const TOF_RANGE: Opcode := 0xE4
  const TOF_DIFF_AVG_INT: Opcode := 0xE5
  const TOF_DIFF_AVG_FRAC: Opcode := 0xE6
  const T1_INT: Opcode := 0xE7
  const T1_FRAC: Opcode := 0xE8
  const T2_INT: Opcode := 0xE9
  const T2_FRAC: Opcode := 0xEA
  const T3_INT: Opcode := 0xEB
  const T3_FRAC: Opcode := 0xEC
  const T4_INT: Opcode := 0xED
  const T4_FRAC: Opcode := 0xEE
  const TEMP_CYCLE_COUNT: Opcode := 0xEF
  const T1_AVG_INT: Opcode := 0xF0
  const T1_AVG_FRAC: Opcode := 0xF1
  const T2_AVG_INT: Opcode := 0xF2
  const T2_AVG_FRAC: Opcode := 0xF3
  const T3_AVG_INT: Opcode := 0xF4
  const T3_AVG_FRAC: Opcode := 0xF5
  const T4_AVG_INT: Opcode := 0xF6
  const T4_AVG_FRAC: Opcode := 0xF7
  const CLBRT_INT: Opcode := 0xF8
  const CLBRT_FRAC: Opcode := 0xF9

  // Status registers
  const READ_INT_STAT_REG: Opcode := 0xFE
  const READ_CTRL_REG: Opcode := 0x7F
  const WRITE_CTRL_REG: Opcode := 0xFF

  // ---------------------------------------------------------------------------
  // The opcode groups
  // ---------------------------------------------------------------------------

  /** The execution opcodes, in the order the header lists them. */
  const ExecutionOpcodes: seq<Opcode> := [
    TOF_UP, TOF_DOWN, TOF_DIFF, TEMPERATURE,
    RESET, INITIALIZE, TX_CONFIG_FLASH, EVTMG1,
    EVTMG2, EVTMG3, HALT, LDO_TIMED,
    LDO_ON, LDO_OFF, CLBRT
  ]

  /** A register with a read opcode and a write opcode. */
  datatype RegisterPair = RegisterPair(read: Opcode, write: Opcode)

  /** The RTC, watchdog and configuration registers, in header order. */
  const RegisterPairs: seq<RegisterPair> := [
    RegisterPair(READ_RTC_SECS, WRITE_RTC_SECS),
    RegisterPair(READ_RTC_MIN_HRS, WRITE_RTC_MIN_HRS),
    RegisterPair(READ_RTC_DAY_DATE, WRITE_RTC_DAY_DATE),
    RegisterPair(READ_RTC_M_Y, WRITE_RTC_M_Y),
    RegisterPair(READ_WD_ALARM_CNT, WRITE_WD_ALARM_CNT),
    RegisterPair(READ_ALARM, WRITE_ALARM),
    RegisterPair(READ_TOF1, WRITE_TOF1),
    RegisterPair(READ_TOF2, WRITE_TOF2),
    RegisterPair(READ_TOF3, WRITE_TOF3),
    RegisterPair(READ_TOF4, WRITE_TOF4),
    RegisterPair(READ_TOF5, WRITE_TOF5),
    RegisterPair(READ_TOF6, WRITE_TOF6),
    RegisterPair(READ_TOF7, WRITE_TOF7),
    RegisterPair(READ_EVT_TIMING1, WRITE_EVT_TIMING1),
    RegisterPair(READ_EVT_TIMING2, WRITE_EVT_TIMING3),
    RegisterPair(READ_TOF_MEAS_DELAY, WRITE_TOF_MEAS_DELAY),
    RegisterPair(READ_CLBRT_CTRL, WRITE_CLBRT_CTRL),
    RegisterPair(READ_RTC, WRITE_RTC)
  ]

  /** The conversion result opcodes, in header order, block by block, with
      TOF_RANGE left out as the alias of TOF_CYCLE_COUNT. */
  const UpResults: seq<Opcode> := [
    WVRUP, HIT1_UP_INT, HIT1_UP_FRAC, HIT2_UP_INT,
    HIT2_UP_FRAC, HIT3_UP_INT, HIT3_UP_FRAC, HIT4_UP_INT,
    HIT4_UP_FRAC, HIT5_UP_INT, HIT5_UP_FRAC, HIT6_UP_INT,
    HIT6_UP_FRAC, AVG_UP_INT, AVG_UP_FRAC
  ]
  const DownResults: seq<Opcode> := [
    WVRDN, HIT1_DN_INT, HIT1_DN_FRAC, HIT2_DN_INT,
    HIT2_DN_FRAC, HIT3_DN_INT, HIT3_DN_FRAC, HIT4_DN_INT,
    HIT4_DN_FRAC, HIT5_DN_INT, HIT5_DN_FRAC, HIT6_DN_INT,
    HIT7_DN_FRAC, AVG_DN_INT, AVG_DN_FRAC
  ]
  const TofDiffResults: seq<Opcode> := [
    TOF_DIFF_INT, TOF_DIFF_FRAC, TOF_CYCLE_COUNT, TOF_DIFF_AVG_INT,
    TOF_DIFF_AVG_FRAC
  ]
  const TemperatureResults: seq<Opcode> := [
    T1_INT, T1_FRAC, T2_INT, T2_FRAC,
    T3_INT, T3_FRAC, T4_INT, T4_FRAC,
    TEMP_CYCLE_COUNT, T1_AVG_INT, T1_AVG_FRAC, T2_AVG_INT,
    T2_AVG_FRAC, T3_AVG_INT, T3_AVG_FRAC, T4_AVG_INT,
    T4_AVG_FRAC
  ]
  const CalibrationResults: seq<Opcode> := [
    CLBRT_INT, CLBRT_FRAC
  ]

  const ResultOpcodes: seq<Opcode> := UpResults + DownResults + TofDiffResults + TemperatureResults + CalibrationResults

  function WriteOpcodes(): (w: seq<Opcode>)
    ensures |w| == |RegisterPairs|
  {
    seq(|RegisterPairs|, i requires 0 <= i < |RegisterPairs| => RegisterPairs[i].write)
  }

  function ReadOpcodes(): (r: seq<Opcode>)
    ensures |r| == |RegisterPairs|
  {
    seq(|RegisterPairs|, i requires 0 <= i < |RegisterPairs| => RegisterPairs[i].read)
  }

  /** Every opcode value the header defines, ascending, one name per value
      (TOF_RANGE is the alias of TOF_CYCLE_COUNT). */
  function AllOpcodes(): seq<Opcode>
  {
    ExecutionOpcodes + WriteOpcodes() + [READ_CTRL_REG, NULL_CMD] + ReadOpcodes() + ResultOpcodes
    + [READ_INT_STAT_REG, WRITE_CTRL_REG]
  }

  // ---------------------------------------------------------------------------
  // Shapes of opcode lists
  // ---------------------------------------------------------------------------

  /** s holds base, base + 1, base + 2, ... */
  predicate Dense(s: seq<int>, base: int)
  {
    forall k | 0 <= k < |s| :: s[k] == base + k
  }

  predicate Increasing(s: seq<int>)
  {
    forall i, j | 0 <= i < j < |s| :: s[i] < s[j]
  }

  predicate Distinct(s: seq<int>)
  {
    forall i, j | 0 <= i < j < |s| :: s[i] != s[j]
  }

  /** A dense list followed by a dense list that starts where it stops. */
  lemma DenseAppend(a: seq<int>, b: seq<int>, base: int)
    requires Dense(a, base) && Dense(b, base + |a|)
    ensures Dense(a + b, base)
  {
  }

  lemma DenseIncreasing(s: seq<int>, base: int)
    requires Dense(s, base)
    ensures Increasing(s)
  {
  }

  /** Two increasing lists, the first ending below where the second starts,
      make an increasing list. */
  lemma IncreasingAppend(a: seq<int>, b: seq<int>)
    requires Increasing(a) && Increasing(b)
    requires a != [] && b != [] ==> a[|a| - 1] < b[0]
    ensures Increasing(a + b)
  {
    forall i, j | 0 <= i < j < |a + b| ensures (a + b)[i] < (a + b)[j] {
      if i < |a| && j >= |a| {
        assert a[i] <= a[|a| - 1];
      }
    }
  }

  // ---------------------------------------------------------------------------
  // The structure of the map
  // ---------------------------------------------------------------------------

  /** The execution opcodes are exactly 0x00 .. 0x0E, in order. */
  lemma ExecutionOpcodesDense()
    ensures |ExecutionOpcodes| == 15 && Dense(ExecutionOpcodes, 0x00)
    ensures forall op | op in ExecutionOpcodes :: op < 0x10
  {
  }

  /** The write opcodes run 0x30 .. 0x35 (RTC and watchdog) and 0x38 .. 0x43
      (configuration); the read opcodes are the same runs with bit 7 set. */
  lemma RegisterOpcodesDense()
    ensures |RegisterPairs| == 18
    ensures Dense(WriteOpcodes()[..6], 0x30) && Dense(WriteOpcodes()[6..], 0x38)
    ensures Dense(ReadOpcodes()[..6], 0xB0) && Dense(ReadOpcodes()[6..], 0xB8)
  {
  }

  /** Each register's read opcode is its write opcode with bit 7 set, the
      mis-named READ_EVT_TIMING2 / WRITE_EVT_TIMING3 pair included. */
  lemma ReadIsWriteWithBit7()
    ensures forall i | 0 <= i < |RegisterPairs| :: RegisterPairs[i].write < 0x80 && RegisterPairs[i].read == RegisterPairs[i].write + 0x80
  {
    RegisterOpcodesDense();
    forall i | 0 <= i < |RegisterPairs|
      ensures RegisterPairs[i].write < 0x80 && RegisterPairs[i].read == RegisterPairs[i].write + 0x80
    {
      assert RegisterPairs[i].write == WriteOpcodes()[i] && RegisterPairs[i].read == ReadOpcodes()[i];
      if i < 6 {
        assert WriteOpcodes()[i] == WriteOpcodes()[..6][i] && ReadOpcodes()[i] == ReadOpcodes()[..6][i];
      } else {
        assert WriteOpcodes()[i] == WriteOpcodes()[6..][i - 6] && ReadOpcodes()[i] == ReadOpcodes()[6..][i - 6];
      }
    }
  }

  /** The conversion results are exactly 0xC4 .. 0xF9, in order. */
  lemma ResultOpcodesDense()
    ensures |ResultOpcodes| == 54 && Dense(ResultOpcodes, 0xC4)
  {
    assert Dense(UpResults, 0xC4) && Dense(DownResults, 0xD3) && Dense(TofDiffResults, 0xE2);
    assert Dense(TemperatureResults, 0xE7) && Dense(CalibrationResults, 0xF8);
    DenseAppend(UpResults, DownResults, 0xC4);
    DenseAppend(UpResults + DownResults, TofDiffResults, 0xC4);
    DenseAppend(UpResults + DownResults + TofDiffResults, TemperatureResults, 0xC4);
    DenseAppend(UpResults + DownResults + TofDiffResults + TemperatureResults, CalibrationResults, 0xC4);
  }

  /** TOF_CYCLE_COUNT and TOF_RANGE name the two bytes of one register and
      share its opcode. */
  lemma TofRangeAliasesCycleCount()
    ensures TOF_RANGE == TOF_CYCLE_COUNT == 0xE4
  {
  }

  /** The control register inverts the read/write rule: its read opcode has
      bit 7 clear and its write opcode has it set. */
  lemma ControlRegisterInverted()
    ensures READ_CTRL_REG < 0x80 && WRITE_CTRL_REG == READ_CTRL_REG + 0x80
    ensures READ_INT_STAT_REG == 0xFE
  {
  }

  lemma IncreasingDistinct(s: seq<int>)
    requires Increasing(s)
    ensures Distinct(s)
  {
  }

  /** Listed ascending, the opcodes are strictly increasing: no two names
      other than the alias share a value. */
  lemma AllOpcodesDistinct()
    ensures |AllOpcodes()| == 109 && Increasing(AllOpcodes()) && Distinct(AllOpcodes())
  {
    ExecutionOpcodesDense();
    RegisterOpcodesDense();
    ResultOpcodesDense();
    var wr, rd := WriteOpcodes(), ReadOpcodes();
    assert wr == wr[..6] + wr[6..] && rd == rd[..6] + rd[6..];
    DenseIncreasing(wr[..6], 0x30);
    DenseIncreasing(wr[6..], 0x38);
    IncreasingAppend(wr[..6], wr[6..]);
    DenseIncreasing(rd[..6], 0xB0);
    DenseIncreasing(rd[6..], 0xB8);
    IncreasingAppend(rd[..6], rd[6..]);
    DenseIncreasing(ExecutionOpcodes, 0x00);
    DenseIncreasing(ResultOpcodes, 0xC4);
    var a := ExecutionOpcodes + wr;
    IncreasingAppend(ExecutionOpcodes, wr);
    var b := a + [READ_CTRL_REG, NULL_CMD];
    IncreasingAppend(a, [READ_CTRL_REG, NULL_CMD]);
    var c := b + rd;
    IncreasingAppend(b, rd);
    var d := c + ResultOpcodes;
    IncreasingAppend(c, ResultOpcodes);
    IncreasingAppend(d, [READ_INT_STAT_REG, WRITE_CTRL_REG]);
    IncreasingDistinct(AllOpcodes());
  }

  /** No opcode lies in the gap 0x44 .. 0x7E. */
  lemma OpcodeGap()
    ensures forall o | o in AllOpcodes() :: o <= 0x43 || o >= 0x7F
  {
    ExecutionOpcodesDense();
    RegisterOpcodesDense();
    ResultOpcodesDense();
    var wr, rd := WriteOpcodes(), ReadOpcodes();
    assert wr == wr[..6] + wr[6..] && rd == rd[..6] + rd[6..];
    assert forall o | o in wr :: o <= 0x43;
    assert forall o | o in rd :: o >= 0xB0;
  }

  /** No result register can be written: clearing bit 7 of a result opcode
      gives a value no opcode has. */
  lemma ResultsHaveNoWrite()
    ensures forall r, o | r in ResultOpcodes && o in AllOpcodes() :: o + 0x80 != r
  {
    OpcodeGap();
    ResultOpcodesDense();
    assert forall r | r in ResultOpcodes :: 0xC4 <= r;
  }
}
