/// The table-driven encoder `lutHexString` of src/int_2hex.h: two 512-character
/// tables (uppercase and lowercase) holding the two-digit hex text of every
/// byte, read two characters at a time.
module HexLut {
  import opened HexCodec

  // ---------------------------------------------------------------------------
  // The tables, row by row as the source writes them
  // ---------------------------------------------------------------------------

  /** The sixteen 32-character rows of the uppercase table `digits`. */
  const UpperRows: seq<string> := [
    "000102030405060708090A0B0C0D0E0F",
    "101112131415161718191A1B1C1D1E1F",
    "202122232425262728292A2B2C2D2E2F",
    "303132333435363738393A3B3C3D3E3F",
    "404142434445464748494A4B4C4D4E4F",
    "505152535455565758595A5B5C5D5E5F",
    "606162636465666768696A6B6C6D6E6F",
    "707172737475767778797A7B7C7D7E7F",
    "808182838485868788898A8B8C8D8E8F",
    "909192939495969798999A9B9C9D9E9F",
    "A0A1A2A3A4A5A6A7A8A9AAABACADAEAF",
    "B0B1B2B3B4B5B6B7B8B9BABBBCBDBEBF",
    "C0C1C2C3C4C5C6C7C8C9CACBCCCDCECF",
    "D0D1D2D3D4D5D6D7D8D9DADBDCDDDEDF",
    "E0E1E2E3E4E5E6E7E8E9EAEBECEDEEEF",
    "F0F1F2F3F4F5F6F7F8F9FAFBFCFDFEFF"
  ]

  /** The sixteen rows of the lowercase table `digitsLowerAlpha`. */
  const LowerRows: seq<string> := [
    "000102030405060708090a0b0c0d0e0f",
    "101112131415161718191a1b1c1d1e1f",
    "202122232425262728292a2b2c2d2e2f",
    "303132333435363738393a3b3c3d3e3f",
    "404142434445464748494a4b4c4d4e4f",
    "505152535455565758595a5b5c5d5e5f",
    "606162636465666768696a6b6c6d6e6f",
    "707172737475767778797a7b7c7d7e7f",
    "808182838485868788898a8b8c8d8e8f",
    "909192939495969798999a9b9c9d9e9f",
    "a0a1a2a3a4a5a6a7a8a9aaabacadaeaf",
    "b0b1b2b3b4b5b6b7b8b9babbbcbdbebf",
    "c0c1c2c3c4c5c6c7c8c9cacbcccdcecf",
    "d0d1d2d3d4d5d6d7d8d9dadbdcdddedf",
    "e0e1e2e3e4e5e6e7e8e9eaebecedeeef",
    "f0f1f2f3f4f5f6f7f8f9fafbfcfdfeff"
  ]

  /** Row r of a list of rows, walked to one row at a time. */
  function RowAt(rows: seq<string>, r: nat): string
    requires r < |rows|
  {
    if r == 0 then rows[0] else RowAt(rows[1..], r - 1)
  }

  lemma {:induction false} RowAtIndex(rows: seq<string>, r: nat)
    requires r < |rows|
    ensures RowAt(rows, r) == rows[r]
  {
    if r > 0 {
      RowAtIndex(rows[1..], r - 1);
    }
  }

  /** Row r of the chosen table. */
  function Row(r: nat, lower: bool): string
    requires r < 16
  {
    RowAt(if lower then LowerRows else UpperRows, r)
  }

  /** The lookup table itself: the rows laid end to end, as C concatenates
      adjacent string literals (512 characters; the C array's 513th element
      is the string terminator, which is never read). */
  function Lut(lower: bool): (lut: string)
    ensures |lut| == 512
  {
    seq(512, i requires 0 <= i < 512 => RowSpelled(i / 32, lower); Row(i / 32, lower)[i % 32])
  }

  /** What row r must hold: the two-digit text of bytes 16r .. 16r + 15. */
  function RowSpec(r: nat, lower: bool): (row: string)
    requires r < 16
    ensures |row| == 32
  {
    seq(32, k requires 0 <= k < 32 => if k % 2 == 0 then HexChar(r, lower) else HexChar(k / 2, lower))
  }

  lemma UpperRow0() ensures UpperRows[0] == RowSpec(0, false) {}
  lemma UpperRow1() ensures UpperRows[1] == RowSpec(1, false) {}
  lemma UpperRow2() ensures UpperRows[2] == RowSpec(2, false) {}
  lemma UpperRow3() ensures UpperRows[3] == RowSpec(3, false) {}
  lemma UpperRow4() ensures UpperRows[4] == RowSpec(4, false) {}
  lemma UpperRow5() ensures UpperRows[5] == RowSpec(5, false) {}
  lemma UpperRow6() ensures UpperRows[6] == RowSpec(6, false) {}
  lemma UpperRow7() ensures UpperRows[7] == RowSpec(7, false) {}
  lemma UpperRow8() ensures UpperRows[8] == RowSpec(8, false) {}
  lemma UpperRow9() ensures UpperRows[9] == RowSpec(9, false) {}
  lemma UpperRowA() ensures UpperRows[10] == RowSpec(10, false) {}
  lemma UpperRowB() ensures UpperRows[11] == RowSpec(11, false) {}
  lemma UpperRowC() ensures UpperRows[12] == RowSpec(12, false) {}
  lemma UpperRowD() ensures UpperRows[13] == RowSpec(13, false) {}
  lemma UpperRowE() ensures UpperRows[14] == RowSpec(14, false) {}
  lemma UpperRowF() ensures UpperRows[15] == RowSpec(15, false) {}
  lemma LowerRow0() ensures LowerRows[0] == RowSpec(0, true) {}
  lemma LowerRow1() ensures LowerRows[1] == RowSpec(1, true) {}
  lemma LowerRow2() ensures LowerRows[2] == RowSpec(2, true) {}
  lemma LowerRow3() ensures LowerRows[3] == RowSpec(3, true) {}
  lemma LowerRow4() ensures LowerRows[4] == RowSpec(4, true) {}
  lemma LowerRow5() ensures LowerRows[5] == RowSpec(5, true) {}
  lemma LowerRow6() ensures LowerRows[6] == RowSpec(6, true) {}
  lemma LowerRow7() ensures LowerRows[7] == RowSpec(7, true) {}
  lemma LowerRow8() ensures LowerRows[8] == RowSpec(8, true) {}
  lemma LowerRow9() ensures LowerRows[9] == RowSpec(9, true) {}
  lemma LowerRowA() ensures LowerRows[10] == RowSpec(10, true) {}
  lemma LowerRowB() ensures LowerRows[11] == RowSpec(11, true) {}
  lemma LowerRowC() ensures LowerRows[12] == RowSpec(12, true) {}
  lemma LowerRowD() ensures LowerRows[13] == RowSpec(13, true) {}
  lemma LowerRowE() ensures LowerRows[14] == RowSpec(14, true) {}
  lemma LowerRowF() ensures LowerRows[15] == RowSpec(15, true) {}

  lemma RowSpelled(r: nat, lower: bool)
    requires r < 16
    ensures Row(r, lower) == RowSpec(r, lower)
  {
    RowAtIndex(if lower then LowerRows else UpperRows, r);
    if lower {
      if r == 0 { LowerRow0(); }
      else if r == 1 { LowerRow1(); }
      else if r == 2 { LowerRow2(); }
      else if r == 3 { LowerRow3(); }
      else if r == 4 { LowerRow4(); }
      else if r == 5 { LowerRow5(); }
      else if r == 6 { LowerRow6(); }
      else if r == 7 { LowerRow7(); }
      else if r == 8 { LowerRow8(); }
      else if r == 9 { LowerRow9(); }
      else if r == 10 { LowerRowA(); }
      else if r == 11 { LowerRowB(); }
      else if r == 12 { LowerRowC(); }
      else if r == 13 { LowerRowD(); }
      else if r == 14 { LowerRowE(); }
      else { LowerRowF(); }
    } else {
      if r == 0 { UpperRow0(); }
      else if r == 1 { UpperRow1(); }
      else if r == 2 { UpperRow2(); }
      else if r == 3 { UpperRow3(); }
      else if r == 4 { UpperRow4(); }
      else if r == 5 { UpperRow5(); }
      else if r == 6 { UpperRow6(); }
      else if r == 7 { UpperRow7(); }
      else if r == 8 { UpperRow8(); }
      else if r == 9 { UpperRow9(); }
      else if r == 10 { UpperRowA(); }
      else if r == 11 { UpperRowB(); }
      else if r == 12 { UpperRowC(); }
      else if r == 13 { UpperRowD(); }
      else if r == 14 { UpperRowE(); }
      else { UpperRowF(); }
    }
  }

  lemma LutAt(q: nat, k: nat, lower: bool)
    requires q < 16 && k < 32
    ensures Lut(lower)[32 * q + k] == RowSpec(q, lower)[k]
  {
    assert (32 * q + k) / 32 == q && (32 * q + k) % 32 == k;
    RowSpelled(q, lower);
  }

  lemma RowSpecEntry(r: nat, c: nat, lower: bool)
    requires r < 16 && c < 16
    ensures RowSpec(r, lower)[2 * c] == HexChar(r, lower)
    ensures RowSpec(r, lower)[2 * c + 1] == HexChar(c, lower)
  {
    assert (2 * c) % 2 == 0 && (2 * c + 1) % 2 == 1 && (2 * c + 1) / 2 == c;
  }

  /** Entries 2b and 2b + 1 of a table are the hex digits of b's upper and
      lower nibble, in the table's case. */
  lemma LutEntry(b: nat, lower: bool)
    requires b < 256
    ensures Lut(lower)[2 * b] == HexChar(b / 16, lower)
    ensures Lut(lower)[2 * b + 1] == HexChar(b % 16, lower)
  {
    var q, c := b / 16, b % 16;
    assert 2 * b == 32 * q + 2 * c;
    LutAt(q, 2 * c, lower);
    LutAt(q, 2 * c + 1, lower);
    RowSpecEntry(q, c, lower);
  }

  /** A digit's lowercase spelling is its uppercase one, unless it is a
      letter A-F, which is shifted to a-f. */
  lemma HexCharCase(d: nat)
    requires d < 16
    ensures HexChar(d, true) == HexChar(d, false) || ('A' <= HexChar(d, false) <= 'F' && HexChar(d, true) as int == HexChar(d, false) as int + 32)
  {
  }

  /** The two tables differ only where the uppercase one has a letter A-F,
      and there the lowercase one has the same letter in lower case. */
  lemma LowerLutDiffersOnlyInLetters(i: nat)
    requires i < 512
    ensures Lut(true)[i] == Lut(false)[i] || ('A' <= Lut(false)[i] <= 'F' && Lut(true)[i] as int == Lut(false)[i] as int + 32)
  {
    var b := i / 2;
    LutEntry(b, false);
    LutEntry(b, true);
    if i % 2 == 0 {
      assert i == 2 * b;
      HexCharCase(b / 16);
    } else {
      assert i == 2 * b + 1;
      HexCharCase(b % 16);
    }
  }

  // ---------------------------------------------------------------------------
  // lutHexString
  // ---------------------------------------------------------------------------

  lemma DigitsOfBytes(n: nat)
    requires n < 65536
    ensures n % 256 / 16 == n / 16 % 16 && n % 256 % 16 == n % 16
    ensures n / 256 % 256 == n / 256 && n / 256 / 16 == n / 4096 && n / 256 % 16 == n / 256 % 16
  {
  }

  /** A table holding, at 2b and 2b + 1, the two hex digits of every byte b. */
  predicate IsHexTable(t: string, lower: bool)
  {
    |t| == 512 && forall b | 0 <= b < 256 :: t[2 * b] == HexChar(b / 16, lower) && t[2 * b + 1] == HexChar(b % 16, lower)
  }

  /** Both tables of the source are such tables. */
  lemma LutIsHexTable(lower: bool)
    ensures IsHexTable(Lut(lower), lower)
  {
    forall b | 0 <= b < 256 ensures Lut(lower)[2 * b] == HexChar(b / 16, lower) && Lut(lower)[2 * b + 1] == HexChar(b % 16, lower) {
      LutEntry(b, lower);
    }
  }

  /** There is only one such table per case, so the property pins the table down. */
  lemma HexTableUnique(t: string, u: string, lower: bool)
    requires IsHexTable(t, lower) && IsHexTable(u, lower)
    ensures t == u
  {
    forall i | 0 <= i < 512 ensures t[i] == u[i] {
      var b := i / 2;
      assert t[2 * b] == u[2 * b] && t[2 * b + 1] == u[2 * b + 1];
      assert i == 2 * b || i == 2 * b + 1;
    }
  }

  /** The table pointer chosen by lowerAlpha. */
  method SelectTable(lowerAlpha: bool) returns (lut: string)
    ensures IsHexTable(lut, lowerAlpha)
  {
    lut := if lowerAlpha then Lut(true) else Lut(false);
    LutIsHexTable(lowerAlpha);
  }

  /** The four hex digits of n, most significant first. */
  function Digits4(n: nat, lower: bool): (t: string)
    requires n < 65536
    ensures |t| == 4
  {
    [HexChar(n / 4096, lower), HexChar(n / 256 % 16, lower), HexChar(n / 16 % 16, lower), HexChar(n % 16, lower)]
  }

  /** One pass of the loop reads the digits of its byte: the low byte of n
      when i is 1, the high byte when i is 0. */
  lemma LutStep(lut: string, lower: bool, n: nat, x: nat, i: int)
    requires IsHexTable(lut, lower) && n < 65536 && 0 <= i <= 1
    requires i == 1 ==> x == n
    requires i == 0 ==> x == n / 256
    ensures (x % 256) * 2 + 1 < |lut|
    ensures lut[(x % 256) * 2] == Digits4(n, lower)[2 * i]
    ensures lut[(x % 256) * 2 + 1] == Digits4(n, lower)[2 * i + 1]
  {
    var b := x % 256;
    assert lut[2 * b] == HexChar(b / 16, lower) && lut[2 * b + 1] == HexChar(b % 16, lower);
    DigitsOfBytes(n);
  }

  /** A uint32_t, held as its value. */
  type U32 = n: nat | n < 0x1_0000_0000

  /** With the uppercase table, lutHexString and the branch-free int16_2hex
      spell (uint16_t)num alike. */
  lemma LutMatchesInt16ToHex(num: U32, v: bv16)
    requires v as int == num % 65536
    ensures HexString(num % 65536, 4, false) == Text32(Int16ToHex(v))
  {
    Int16ToHexSpellsHex(v);
  }

  /** Writes the hex text of the low 16 bits of num, most significant digit
      first, into s[0..4] (no terminator), from the table chosen by
      lowerAlpha; returns 0. The loop makes two passes, one per byte. */
  method LutHexString(num: U32, s: array<char>, lowerAlpha: bool) returns (r: bv16, ghost passes: nat)
    requires s.Length >= 4
    modifies s
    ensures r == 0 && passes == 2
    ensures s[..4] == HexString(num % 65536, 4, lowerAlpha)
    ensures s[4..] == old(s[4..])
    ensures !lowerAlpha ==> forall v: bv16 | v as int == num % 65536 :: s[..4] == Text32(Int16ToHex(v))
  {
    // the uint16_t x, held as its value: `x & 0xFF` is x % 256, `x >>= 8` is x / 256
    var x: int := num % 65536;
    var i: int := 1;
    var lut := SelectTable(lowerAlpha);
    ghost var n := x;
    ghost var digits := Digits4(n, lowerAlpha);
    passes := 0;
    while i >= 0
      invariant -1 <= i <= 1
      invariant passes == 1 - i
      invariant 0 <= x < 65536
      invariant i == 1 ==> x == n
      invariant i == 0 ==> x == n / 256
      invariant i <= 0 ==> s[2] == digits[2] && s[3] == digits[3]
      invariant i < 0 ==> s[0] == digits[0] && s[1] == digits[1]
      invariant s[4..] == old(s[4..])
    {
      var pos := (x % 256) * 2;
      LutStep(lut, lowerAlpha, n, x, i);
      var ch := lut[pos];
      s[i * 2] := ch;
      ch := lut[pos + 1];
      s[i * 2 + 1] := ch;
      x := x / 256;
      i := i - 1;
      passes := passes + 1;
    }
    HexString4(n, lowerAlpha);
    assert s[..4] == digits;
    forall v: bv16 | v as int == num % 65536 && !lowerAlpha
      ensures s[..4] == Text32(Int16ToHex(v))
    {
      LutMatchesInt16ToHex(num, v);
    }
    r := 0;
  }
}
