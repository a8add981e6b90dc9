/// The branchless integer-to-hexadecimal encoders of src/int_2hex.h
/// (`int16_2hex` and `int32_2hex`), and the reference definition they meet:
/// zero-padded hexadecimal text with the most significant digit first.
///
/// The encoders return a word, not a string.  Its bytes, read from the least
/// significant one up, are the ASCII characters of the text; on the
/// little-endian microcontroller the word stored in memory therefore *is* the
/// text.  `Text32` and `Text64` give that little-endian reading.
module HexCodec {

  // ---------------------------------------------------------------------------
  // Reference definition
  // ---------------------------------------------------------------------------

  /** The hexadecimal digit character for a digit value d. */
  function HexChar(d: nat, lower: bool): (c: char)
    requires d < 16
  {
    if d < 10 then ('0' as int + d) as char
    else if lower then ('a' as int + d - 10) as char
    else ('A' as int + d - 10) as char
  }

  /** c is a hexadecimal digit character of the requested case. */
  predicate IsHexChar(c: char, lower: bool)
  {
    ('0' <= c <= '9') || (if lower then 'a' <= c <= 'f' else 'A' <= c <= 'F')
  }

  /** The value of a hexadecimal digit character (either case). */
  function HexCharValue(c: char): (d: nat)
    requires IsHexChar(c, false) || IsHexChar(c, true)
    ensures d < 16
    ensures HexChar(d, 'a' <= c <= 'f') == c
  {
    if c <= '9' then c as int - '0' as int
    else if c <= 'F' then c as int - 'A' as int + 10
    else c as int - 'a' as int + 10
  }

  function Pow16(w: nat): (p: nat)
    ensures p >= 1
  {
    if w == 0 then 1 else 16 * Pow16(w - 1)
  }

  /** The `width`-digit text of n modulo 16^width, zero-padded, most
      significant digit first: what `printf("%0*X")` produces. */
  function HexString(n: nat, width: nat, lower: bool): (s: string)
    ensures |s| == width
    ensures forall i | 0 <= i < width :: IsHexChar(s[i], lower)
  {
    if width == 0 then [] else HexString(n / 16, width - 1, lower) + [HexChar(n % 16, lower)]
  }

  /** The number a string of hexadecimal digits denotes. */
  function HexValue(s: string): (n: nat)
    requires forall i | 0 <= i < |s| :: IsHexChar(s[i], false) || IsHexChar(s[i], true)
    ensures n < Pow16(|s|)
  {
    if s == [] then 0 else HexValue(s[..|s| - 1]) * 16 + HexCharValue(s[|s| - 1])
  }

  /** Reading the text back gives the number, when it fits in `width` digits. */
  lemma {:induction false} HexStringRoundTrip(n: nat, width: nat, lower: bool)
    requires n < Pow16(width)
    ensures HexValue(HexString(n, width, lower)) == n
  {
    if width > 0 {
      var s := HexString(n, width, lower);
      assert s[..width - 1] == HexString(n / 16, width - 1, lower);
      HexStringRoundTrip(n / 16, width - 1, lower);
    }
  }

  /** Text of an uppercase digit string re-encodes to itself. */
  lemma {:induction false} HexValueRoundTrip(s: string)
    requires forall i | 0 <= i < |s| :: IsHexChar(s[i], false)
    ensures HexString(HexValue(s), |s|, false) == s
  {
    if s != [] {
      var init := s[..|s| - 1];
      HexValueRoundTrip(init);
      var n := HexValue(s);
      assert n / 16 == HexValue(init) && n % 16 == HexCharValue(s[|s| - 1]);
      assert s == init + [s[|s| - 1]];
    }
  }

  /** Concatenating texts: the digits of a * 16^w + b are those of a followed
      by the w digits of b. */
  lemma {:induction false} HexStringAppend(a: nat, b: nat, wa: nat, w: nat, lower: bool)
    requires b < Pow16(w)
    ensures HexString(a * Pow16(w) + b, wa + w, lower) == HexString(a, wa, lower) + HexString(b, w, lower)
  {
    if w > 0 {
      var n, m := AppendStep(a, b, w);
      HexStringAppend(a, b / 16, wa, w - 1, lower);
      LastDigit(n, m, b % 16, wa + w, lower);
      LastDigit(b, b / 16, b % 16, w, lower);
      AppendAssemble(HexString(n, wa + w, lower), HexString(m, wa + w - 1, lower),
        HexString(a, wa, lower), HexString(b / 16, w - 1, lower), HexString(b, w, lower),
        [HexChar(b % 16, lower)]);
    }
  }

  /** The sequence step of HexStringAppend, free of arithmetic. */
  lemma AppendAssemble<T>(whole: seq<T>, init: seq<T>, front: seq<T>, rest: seq<T>, back: seq<T>, last: seq<T>)
    requires whole == init + last && init == front + rest && back == rest + last
    ensures whole == front + back
  {
    assert (front + rest) + last == front + (rest + last);
  }

  lemma {:induction false} LastDigit(n: nat, m: nat, d: nat, width: nat, lower: bool)
    requires width > 0 && n / 16 == m && n % 16 == d
    ensures HexString(n, width, lower) == HexString(m, width - 1, lower) + [HexChar(d, lower)]
  {
  }

  /** Dropping the last digit of a * 16^w + b drops the last digit of b. */
  lemma {:induction false} AppendStep(a: nat, b: nat, w: nat) returns (n: nat, m: nat)
    requires w > 0 && b < Pow16(w)
    ensures n == a * Pow16(w) + b && m == a * Pow16(w - 1) + b / 16
    ensures b / 16 < Pow16(w - 1)
    ensures n / 16 == m && n % 16 == b % 16
  {
    var p := Pow16(w - 1);
    assert a * Pow16(w) == 16 * (a * p);
    n, m := a * Pow16(w) + b, a * p + b / 16;
    DivMod16(n, m, b % 16);
  }

  // ---------------------------------------------------------------------------
  // Bit-vector view: nibbles and byte lanes
  // ---------------------------------------------------------------------------

  /** Nibble j (0 = least significant) of a 16-bit value. */
  function Nibble16(v: bv16, j: nat): bv8
    requires j < 4
  {
    (if j == 0 then v & 0xF
     else if j == 1 then (v >> 4) & 0xF
     else if j == 2 then (v >> 8) & 0xF
     else v >> 12) as bv8
  }

  /** Nibble j (0 = least significant) of a 32-bit value. */
  function Nibble32(v: bv32, j: nat): bv8
    requires j < 8
  {
    (if j == 0 then v & 0xF
     else if j == 1 then (v >> 4) & 0xF
     else if j == 2 then (v >> 8) & 0xF
     else if j == 3 then (v >> 12) & 0xF
     else if j == 4 then (v >> 16) & 0xF
     else if j == 5 then (v >> 20) & 0xF
     else if j == 6 then (v >> 24) & 0xF
     else v >> 28) as bv8
  }

  /** Byte lane k (0 = least significant) of a 32-bit word. */
  function Lane32(x: bv32, k: nat): bv8
    requires k < 4
  {
    (if k == 0 then x & 0xFF
     else if k == 1 then (x >> 8) & 0xFF
     else if k == 2 then (x >> 16) & 0xFF
     else x >> 24) as bv8
  }

  /** Byte lane k (0 = least significant) of a 64-bit word. */
  function Lane64(x: bv64, k: nat): bv8
    requires k < 8
  {
    (if k == 0 then x & 0xFF
     else if k == 1 then (x >> 8) & 0xFF
     else if k == 2 then (x >> 16) & 0xFF
     else if k == 3 then (x >> 24) & 0xFF
     else if k == 4 then (x >> 32) & 0xFF
     else if k == 5 then (x >> 40) & 0xFF
     else if k == 6 then (x >> 48) & 0xFF
     else x >> 56) as bv8
  }

  /** The ASCII code of the uppercase hex digit of a nibble value. */
  function AsciiHexDigit(n: bv8): (c: bv8)
    requires n < 16
    ensures c as int == HexChar(n as int, false) as int
  {
    if n < 10 then 0x30 + n else 0x37 + n
  }

  /** The bytes of a word, least significant first, as characters. */
  function Text32(x: bv32): (s: string)
    ensures |s| == 4 && forall k | 0 <= k < 4 :: s[k] as int == Lane32(x, k) as int
  {
    seq(4, k requires 0 <= k < 4 => Lane32(x, k) as int as char)
  }

  function Text64(x: bv64): (s: string)
    ensures |s| == 8 && forall k | 0 <= k < 8 :: s[k] as int == Lane64(x, k) as int
  {
    seq(8, k requires 0 <= k < 8 => Lane64(x, k) as int as char)
  }

  // ---------------------------------------------------------------------------
  // int16_2hex, phase by phase
  // ---------------------------------------------------------------------------

  /** The two swap steps: nibbles within each byte, then the two bytes.
      The nibble order ends up exactly reversed. */
  function ReverseNibbles16(bin: bv16): (b: bv16)
    ensures forall j | 0 <= j < 4 :: Nibble16(b, j) == Nibble16(bin, 3 - j)
  {
    var b := ((bin & 0xF0F0) >> 4) | ((bin & 0x0F0F) << 4);
    (b >> 8) | (b << 8)
  }

  /** The two spreading steps: nibble k moves into byte lane k, whose upper
      four bits are left clear. */
  function SpreadNibbles16(b: bv16): (x: bv32)
    ensures forall k | 0 <= k < 4 :: Lane32(x, k) == Nibble16(b, k)
    ensures x & 0xF0F0F0F0 == 0
  {
    var x := b as bv32;
    var x := ((x & 0x0000FF00) << 8) | (x & 0x000000FF);
    ((x & 0x00F000F0) << 4) | (x & 0x000F000F)
  }

  /** Lane selection: adding 6 sets bit 4 of a lane exactly when its nibble
      is 10 or more; that bit becomes a mask choosing 0x2A (digit) or 0x31
      (letter) to add.  No lane carries into the next. */
  function SelectAscii32(x: bv32): (r: bv32)
    requires x & 0xF0F0F0F0 == 0
    ensures Lane32(r, 0) == AsciiHexDigit(Lane32(x, 0))
    ensures Lane32(r, 1) == AsciiHexDigit(Lane32(x, 1))
    ensures Lane32(r, 2) == AsciiHexDigit(Lane32(x, 2))
    ensures Lane32(r, 3) == AsciiHexDigit(Lane32(x, 3))
  {
    var x := x + 0x06060606;
    var m := ((x & 0x10101010) >> 4) + 0x7F7F7F7F;
    x + ((m & 0x2A2A2A2A) | (!m & 0x31313131))
  }

  /** `int16_2hex`: byte k of the result is the ASCII hex digit of nibble
      3 - k of the input. */
  function Int16ToHex(bin: bv16): (r: bv32)
    ensures forall k | 0 <= k < 4 :: Lane32(r, k) == AsciiHexDigit(Nibble16(bin, 3 - k))
  {
    SelectAscii32(SpreadNibbles16(ReverseNibbles16(bin)))
  }

  // ---------------------------------------------------------------------------
  // int32_2hex, phase by phase
  // ---------------------------------------------------------------------------

  /** The three swap steps (nibbles, bytes, half-words): nibble order
      exactly reversed. */
  function ReverseNibbles32(bin: bv32): (b: bv32)
    ensures Nibble32(b, 0) == Nibble32(bin, 7) && Nibble32(b, 1) == Nibble32(bin, 6)
    ensures Nibble32(b, 2) == Nibble32(bin, 5) && Nibble32(b, 3) == Nibble32(bin, 4)
    ensures Nibble32(b, 4) == Nibble32(bin, 3) && Nibble32(b, 5) == Nibble32(bin, 2)
    ensures Nibble32(b, 6) == Nibble32(bin, 1) && Nibble32(b, 7) == Nibble32(bin, 0)
  {
    var b := ((bin & 0xF0F0F0F0) >> 4) | ((bin & 0x0F0F0F0F) << 4);
    var b := ((b & 0xFF00FF00) >> 8) | ((b & 0x00FF00FF) << 8);
    (b >> 16) | (b << 16)
  }

  /** The three spreading steps: nibble k moves into byte lane k of a
      64-bit word, upper four bits of each lane clear. */
  function SpreadNibbles32(b: bv32): (x: bv64)
    ensures forall k | 0 <= k < 8 :: Lane64(x, k) == Nibble32(b, k)
    ensures x & 0xF0F0F0F0F0F0F0F0 == 0
  {
    var x := b as bv64;
    var x := ((x & 0x00000000FFFF0000) << 16) | (x & 0x000000000000FFFF);
    var x := ((x & 0x0000FF000000FF00) << 8) | (x & 0x000000FF000000FF);
    ((x & 0x00F000F000F000F0) << 4) | (x & 0x000F000F000F000F)
  }

  /** Lane selection on eight lanes at once. */
  function SelectAscii64(x: bv64): (r: bv64)
    requires x & 0xF0F0F0F0F0F0F0F0 == 0
    ensures Lane64(r, 0) == AsciiHexDigit(Lane64(x, 0))
    ensures Lane64(r, 1) == AsciiHexDigit(Lane64(x, 1))
    ensures Lane64(r, 2) == AsciiHexDigit(Lane64(x, 2))
    ensures Lane64(r, 3) == AsciiHexDigit(Lane64(x, 3))
    ensures Lane64(r, 4) == AsciiHexDigit(Lane64(x, 4))
    ensures Lane64(r, 5) == AsciiHexDigit(Lane64(x, 5))
    ensures Lane64(r, 6) == AsciiHexDigit(Lane64(x, 6))
    ensures Lane64(r, 7) == AsciiHexDigit(Lane64(x, 7))
  {
    var x := x + 0x0606060606060606;
    var m := ((x & 0x1010101010101010) >> 4) + 0x7F7F7F7F7F7F7F7F;
    x + ((m & 0x2A2A2A2A2A2A2A2A) | (!m & 0x3131313131313131))
  }

  /** `int32_2hex`: byte k of the 64-bit result is the ASCII hex digit of
      nibble 7 - k of the input. */
  function Int32ToHex(bin: bv32): (r: bv64)
    ensures forall k | 0 <= k < 8 :: Lane64(r, k) == AsciiHexDigit(Nibble32(bin, 7 - k))
  {
    SelectAscii64(SpreadNibbles32(ReverseNibbles32(bin)))
  }

  // ---------------------------------------------------------------------------
  // Full correctness against the reference definition
  // ---------------------------------------------------------------------------

  lemma ByteValue(b: bv8)
    ensures b as int == (b >> 4) as int * 16 + (b & 0xF) as int
  {
  }

  lemma BytesValue(v: bv16)
    ensures v as int == (v >> 8) as int * 256 + (v & 0xFF) as int
  {
    var hi, lo := (v >> 8) as bv8, (v & 0xFF) as bv8;
    assert v == ((hi as bv16) << 8) | lo as bv16;
  }

  lemma Nibbles16Value(v: bv16)
    ensures v as int == Nibble16(v, 3) as int * 4096 + Nibble16(v, 2) as int * 256
                        + Nibble16(v, 1) as int * 16 + Nibble16(v, 0) as int
  {
    BytesValue(v);
    HighByteNibbles(v);
    LowByteNibbles(v);
  }

  lemma HighByteNibbles(v: bv16)
    ensures (v >> 8) as int == Nibble16(v, 3) as int * 16 + Nibble16(v, 2) as int
  {
    var hi := (v >> 8) as bv8;
    NarrowValue(v >> 8);
    ByteValue(hi);
    assert Nibble16(v, 3) == hi >> 4 && Nibble16(v, 2) == hi & 0xF;
  }

  lemma LowByteNibbles(v: bv16)
    ensures (v & 0xFF) as int == Nibble16(v, 1) as int * 16 + Nibble16(v, 0) as int
  {
    var lo := (v & 0xFF) as bv8;
    NarrowValue(v & 0xFF);
    ByteValue(lo);
    assert Nibble16(v, 1) == lo >> 4 && Nibble16(v, 0) == lo & 0xF;
  }

  lemma NarrowValue(x: bv16)
    requires x < 256
    ensures (x as bv8) as int == x as int
  {
  }

  /** The four digits of a number below 16^4, spelled out. */
  lemma HexString4(n: nat, lower: bool)
    requires n < 65536
    ensures HexString(n, 4, lower)
         == [HexChar(n / 4096, lower), HexChar(n / 256 % 16, lower), HexChar(n / 16 % 16, lower), HexChar(n % 16, lower)]
  {
    assert n / 16 / 16 == n / 256 && n / 256 / 16 == n / 4096 && n / 4096 / 16 == 0;
    var s1 := HexString(n / 4096, 1, lower);
    assert s1 == [HexChar(n / 4096, lower)];
    var s2 := HexString(n / 256, 2, lower);
    assert s2 == s1 + [HexChar(n / 256 % 16, lower)];
    var s3 := HexString(n / 16, 3, lower);
    assert s3 == s2 + [HexChar(n / 16 % 16, lower)];
  }

  lemma NibbleDigits(n: nat, d3: nat, d2: nat, d1: nat, d0: nat)
    requires d3 < 16 && d2 < 16 && d1 < 16 && d0 < 16
    requires n == d3 * 4096 + d2 * 256 + d1 * 16 + d0
    ensures n < 65536
    ensures n / 4096 == d3 && n / 256 % 16 == d2 && n / 16 % 16 == d1 && n % 16 == d0
  {
    DivMod4096(n, d3, d2 * 256 + d1 * 16 + d0);
    DivMod256(n, d3 * 16 + d2, d1 * 16 + d0);
    DivMod16(d3 * 16 + d2, d3, d2);
    DivMod16(n, d3 * 256 + d2 * 16 + d1, d0);
    DivMod16(d3 * 256 + d2 * 16 + d1, d3 * 16 + d2, d1);
  }

  // Quotient and remainder are fixed by any decomposition n == q * base + r with r < base.

  lemma DivMod16(n: int, q: int, r: int)
    requires 0 <= r < 16 && n == q * 16 + r
    ensures n / 16 == q && n % 16 == r
  {
  }

  lemma DivMod256(n: int, q: int, r: int)
    requires 0 <= r < 256 && n == q * 256 + r
    ensures n / 256 == q && n % 256 == r
  {
  }

  lemma DivMod4096(n: int, q: int, r: int)
    requires 0 <= r < 4096 && n == q * 4096 + r
    ensures n / 4096 == q && n % 4096 == r
  {
  }

  /** Four digits d3 d2 d1 d0 of a number n below 16^4 spell HexString(n, 4). */
  lemma HexStringOfDigits(n: nat, d3: nat, d2: nat, d1: nat, d0: nat, lower: bool)
    requires d3 < 16 && d2 < 16 && d1 < 16 && d0 < 16
    requires n == d3 * 4096 + d2 * 256 + d1 * 16 + d0
    ensures HexString(n, 4, lower) == [HexChar(d3, lower), HexChar(d2, lower), HexChar(d1, lower), HexChar(d0, lower)]
  {
    NibbleDigits(n, d3, d2, d1, d0);
    HexString4(n, lower);
  }

  /** The text of int16_2hex's result, digit by digit. */
  lemma Int16ToHexText(v: bv16)
    ensures Text32(Int16ToHex(v)) == [HexChar(Nibble16(v, 3) as int, false), HexChar(Nibble16(v, 2) as int, false),
                                      HexChar(Nibble16(v, 1) as int, false), HexChar(Nibble16(v, 0) as int, false)]
  {
    var t := Text32(Int16ToHex(v));
    assert t[0] == HexChar(Nibble16(v, 3) as int, false);
    assert t[1] == HexChar(Nibble16(v, 2) as int, false);
    assert t[2] == HexChar(Nibble16(v, 1) as int, false);
    assert t[3] == HexChar(Nibble16(v, 0) as int, false);
  }

  /** The 4-digit uppercase hex of v, digit by digit from its nibbles. */
  lemma HexStringOfNibbles16(v: bv16)
    ensures HexString(v as int, 4, false) == [HexChar(Nibble16(v, 3) as int, false), HexChar(Nibble16(v, 2) as int, false),
                                               HexChar(Nibble16(v, 1) as int, false), HexChar(Nibble16(v, 0) as int, false)]
  {
    var n, d3, d2, d1, d0 := v as int, Nibble16(v, 3) as int, Nibble16(v, 2) as int, Nibble16(v, 1) as int, Nibble16(v, 0) as int;
    Nibbles16Value(v);
    UpperHexStringOfDigits(n, d3, d2, d1, d0);
  }

  lemma UpperHexStringOfDigits(n: nat, d3: nat, d2: nat, d1: nat, d0: nat)
    requires d3 < 16 && d2 < 16 && d1 < 16 && d0 < 16
    requires n == d3 * 4096 + d2 * 256 + d1 * 16 + d0
    ensures HexString(n, 4, false) == [HexChar(d3, false), HexChar(d2, false), HexChar(d1, false), HexChar(d0, false)]
  {
    HexStringOfDigits(n, d3, d2, d1, d0, false);
  }

  /** The encoded word, read as text, is the 4-digit uppercase hex of v. */
  lemma Int16ToHexSpellsHex(v: bv16)
    ensures Text32(Int16ToHex(v)) == HexString(v as int, 4, false)
  {
    Int16ToHexText(v);
    HexStringOfNibbles16(v);
  }

  /** The upper and lower half of a 32-bit word. */
  function High16(v: bv32): bv16 { (v >> 16) as bv16 }
  function Low16(v: bv32): bv16 { (v & 0xFFFF) as bv16 }

  lemma HalvesValue(v: bv32)
    ensures v as int == High16(v) as int * 65536 + Low16(v) as int
  {
    var hi, lo := High16(v), Low16(v);
    assert v == ((hi as bv32) << 16) | lo as bv32;
    JoinValue(hi, lo);
  }

  lemma JoinValue(hi: bv16, lo: bv16)
    ensures (((hi as bv32) << 16) | lo as bv32) as int == hi as int * 65536 + lo as int
  {
  }

  lemma HalvesNibbles(v: bv32)
    ensures Nibble32(v, 7) == Nibble16(High16(v), 3) && Nibble32(v, 6) == Nibble16(High16(v), 2)
    ensures Nibble32(v, 5) == Nibble16(High16(v), 1) && Nibble32(v, 4) == Nibble16(High16(v), 0)
    ensures Nibble32(v, 3) == Nibble16(Low16(v), 3) && Nibble32(v, 2) == Nibble16(Low16(v), 2)
    ensures Nibble32(v, 1) == Nibble16(Low16(v), 1) && Nibble32(v, 0) == Nibble16(Low16(v), 0)
  {
  }

  /** int32_2hex is int16_2hex on the upper half followed by int16_2hex on
      the lower half. */
  lemma Int32ToHexHalves(v: bv32)
    ensures Text64(Int32ToHex(v)) == Text32(Int16ToHex(High16(v))) + Text32(Int16ToHex(Low16(v)))
  {
    var t, th, tl := Text64(Int32ToHex(v)), Text32(Int16ToHex(High16(v))), Text32(Int16ToHex(Low16(v)));
    HalvesNibbles(v);
    assert t[0] == th[0] && t[1] == th[1] && t[2] == th[2] && t[3] == th[3];
    assert t[4] == tl[0] && t[5] == tl[1] && t[6] == tl[2] && t[7] == tl[3];
  }

  /** Eight uppercase digits are the four of the upper half, then the four
      of the lower half. */
  lemma UpperHexStringHalves(hi: nat, lo: nat)
    requires lo < 65536
    ensures HexString(hi * 65536 + lo, 8, false) == HexString(hi, 4, false) + HexString(lo, 4, false)
  {
    assert Pow16(4) == 65536;
    HexStringAppend(hi, lo, 4, 4, false);
  }

  lemma HexStringOfHalves(v: bv32)
    ensures HexString(v as int, 8, false) == HexString(High16(v) as int, 4, false) + HexString(Low16(v) as int, 4, false)
  {
    HalvesValue(v);
    UpperHexStringHalves(High16(v) as int, Low16(v) as int);
  }

  /** The encoded word, read as text, is the 8-digit uppercase hex of v. */
  lemma Int32ToHexSpellsHex(v: bv32)
    ensures Text64(Int32ToHex(v)) == HexString(v as int, 8, false)
  {
    Int32ToHexHalves(v);
    Int16ToHexSpellsHex(High16(v));
    Int16ToHexSpellsHex(Low16(v));
    HexStringOfHalves(v);
  }
}
