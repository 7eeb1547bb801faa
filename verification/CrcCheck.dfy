/** The check value of CRC-32: the checksum of the nine digits, which every implementation of it gives. */
module CrcCheck {
  import opened Bytes
  import opened Crc32

  /** "123456789" */
  const DIGITS: seq<Byte> := [0x31, 0x32, 0x33, 0x34, 0x35, 0x36, 0x37, 0x38, 0x39]

  lemma OneStep(c: Word, b: Byte, bits: bv8, x: bv8, word: Word)
    requires Bits(b) == bits && Byte0(Xor(c, bits as Word)) == x && CrcTable(x) == word
    ensures Divide(c, b) == Xor(word, c >> 8)
  {
    hide CrcTable, Xor, Byte0;
    TableDrivenIsDivision(c, b);
  }

  lemma DigitBits()
    ensures Bits(0x31) == 0x31 && Bits(0x32) == 0x32 && Bits(0x33) == 0x33
    ensures Bits(0x34) == 0x34 && Bits(0x35) == 0x35 && Bits(0x36) == 0x36
    ensures Bits(0x37) == 0x37 && Bits(0x38) == 0x38 && Bits(0x39) == 0x39
  {
  }

  lemma DigitOne()
    ensures Divide(0xFFFF_FFFF, 0x31) == 0x7C23_1048
  {
    DigitBits();
    OneStep(0xFFFF_FFFF, 0x31, 0x31, 0xCE, 0x7CDC_EFB7);
  }

  lemma DigitTwo()
    ensures Divide(0x7C23_1048, 0x32) == 0xB0AC_BB32
  {
    DigitBits();
    OneStep(0x7C23_1048, 0x32, 0x32, 0x7A, 0xB0D0_9822);
  }

  lemma DigitThree()
    ensures Divide(0xB0AC_BB32, 0x33) == 0x77B7_9C2D
  {
    DigitBits();
    OneStep(0xB0AC_BB32, 0x33, 0x33, 0x01, 0x7707_3096);
  }

  lemma DigitFour()
    ensures Divide(0x77B7_9C2D, 0x34) == 0x641C_1F5C
  {
    DigitBits();
    OneStep(0x77B7_9C2D, 0x34, 0x34, 0x19, 0x646B_A8C0);
  }

  lemma DigitFive()
    ensures Divide(0x641C_1F5C, 0x35) == 0x340A_C5E3
  {
    DigitBits();
    OneStep(0x641C_1F5C, 0x35, 0x35, 0x69, 0x346E_D9FC);
  }

  lemma DigitSix()
    ensures Divide(0x340A_C5E3, 0x36) == 0xF68D_2C9E
  {
    DigitBits();
    OneStep(0x340A_C5E3, 0x36, 0x36, 0xD5, 0xF6B9_265B);
  }

  lemma DigitSeven()
    ensures Divide(0xF68D_2C9E, 0x37) == 0xAFFC_9660
  {
    DigitBits();
    OneStep(0xF68D_2C9E, 0x37, 0x37, 0xA9, 0xAF0A_1B4C);
  }

  lemma DigitEight()
    ensures Divide(0xAFFC_9660, 0x38) == 0x651F_2550
  {
    DigitBits();
    OneStep(0xAFFC_9660, 0x38, 0x38, 0x58, 0x65B0_D9C6);
  }

  lemma DigitNine()
    ensures Divide(0x651F_2550, 0x39) == 0x340B_C6D9
  {
    DigitBits();
    OneStep(0x651F_2550, 0x39, 0x39, 0x69, 0x346E_D9FC);
  }

  lemma FoldThree<S, B>(f: (S, B) -> S, c: S, x: B, y: B, z: B)
    ensures Fold(f, c, [x, y, z]) == f(f(f(c, x), y), z)
  {
    var s := [x, y, z];
    FoldPrefix(f, c, s, 0);
    FoldPrefix(f, c, s, 1);
    FoldPrefix(f, c, s, 2);
    assert s[..0] == [] && s[..3] == s;
  }

  lemma FirstThree()
    ensures Register(0xFFFF_FFFF, [0x31, 0x32, 0x33]) == 0x77B7_9C2D
  {
    hide Divide;
    FoldThree(Divide, 0xFFFF_FFFF, 0x31, 0x32, 0x33);
    DigitOne();
    DigitTwo();
    DigitThree();
  }

  lemma NextThree()
    ensures Register(0x77B7_9C2D, [0x34, 0x35, 0x36]) == 0xF68D_2C9E
  {
    hide Divide;
    FoldThree(Divide, 0x77B7_9C2D, 0x34, 0x35, 0x36);
    DigitFour();
    DigitFive();
    DigitSix();
  }

  lemma LastThree()
    ensures Register(0xF68D_2C9E, [0x37, 0x38, 0x39]) == 0x340B_C6D9
  {
    hide Divide;
    FoldThree(Divide, 0xF68D_2C9E, 0x37, 0x38, 0x39);
    DigitSeven();
    DigitEight();
    DigitNine();
  }

  lemma RegisterAppend(c: Word, s: seq<Byte>, t: seq<Byte>)
    ensures Register(c, s + t) == Register(Register(c, s), t)
  {
    FoldAppend(Divide, c, s, t);
  }

  lemma NineDigits()
    ensures Register(0xFFFF_FFFF, DIGITS) == 0x340B_C6D9
  {
    hide Register;
    FirstThree();
    NextThree();
    LastThree();
    RegisterAppend(0xFFFF_FFFF, [0x31, 0x32, 0x33], [0x34, 0x35, 0x36]);
    RegisterAppend(0xFFFF_FFFF, [0x31, 0x32, 0x33] + [0x34, 0x35, 0x36], [0x37, 0x38, 0x39]);
    assert DIGITS == [0x31, 0x32, 0x33] + [0x34, 0x35, 0x36] + [0x37, 0x38, 0x39];
  }

  lemma ReadValue()
    ensures WordBytes(0xCBF4_3926) == [0x26, 0x39, 0xF4, 0xCB] && Xor(0x340B_C6D9, 0xFFFF_FFFF) == 0xCBF4_3926
  {
  }

  lemma NumberOf(s: seq<Byte>)
    requires s == [0x26, 0x39, 0xF4, 0xCB]
    ensures FromLE(s) == 0xCBF4_3926
  {
    assert s[1..] == [0x39, 0xF4, 0xCB] && s[1..][1..] == [0xF4, 0xCB] && s[1..][1..][1..] == [0xCB];
    assert FromLE([0xCB]) == 0xCB;
    assert FromLE([0xF4, 0xCB]) == 0xCBF4;
  }

  /** The register starts with all ones and is inverted at the end, and the polynomial is CRC-32's. */
  lemma CheckValue()
    ensures Crc(DIGITS) == 0xCBF4_3926
  {
    hide Register, WordBytes, Xor;
    NineDigits();
    ReadValue();
    NumberOf(WordBytes(0xCBF4_3926));
  }
}
