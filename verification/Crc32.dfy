/** CRC-32 as `crc.cc` computes it: a 256-word table and one lookup a byte. */
module Crc32 {
  import opened Bytes

  type Word = bv32

  const POLY: Word := 0xEDB88320
  const ALL_ONES: Word := 0xFFFF_FFFF

  // Functions iterated n times, and what iteration keeps.

  function Iter<T>(f: T -> T, c: T, n: nat): T {
    if n == 0 then c else f(Iter(f, c, n - 1))
  }

  lemma {:induction false} IterAdd<T>(f: T -> T, c: T, n: nat, m: nat)
    ensures Iter(f, c, n + m) == Iter(f, Iter(f, c, n), m)
  {
    if m > 0 {
      IterAdd(f, c, n, m - 1);
    }
  }

  ghost predicate Additive<T(!new)>(f: T -> T, plus: (T, T) -> T) {
    forall a, b {:trigger f(plus(a, b))} :: f(plus(a, b)) == plus(f(a), f(b))
  }

  lemma {:induction false} IterAdditive<T(!new)>(f: T -> T, plus: (T, T) -> T, a: T, b: T, n: nat)
    requires Additive(f, plus)
    ensures Iter(f, plus(a, b), n) == plus(Iter(f, a, n), Iter(f, b, n))
  {
    if n > 0 {
      IterAdditive(f, plus, a, b, n - 1);
    }
  }

  ghost predicate Injective<T(!new)>(f: T -> T) {
    forall a, b {:trigger f(a), f(b)} :: f(a) == f(b) ==> a == b
  }

  lemma {:induction false} IterInjective<T(!new)>(f: T -> T, a: T, b: T, n: nat)
    requires Injective(f) && Iter(f, a, n) == Iter(f, b, n)
    ensures a == b
  {
    if n > 0 {
      IterInjective(f, a, b, n - 1);
    }
  }

  // Folds, likewise.

  function Fold<S, B>(f: (S, B) -> S, c: S, s: seq<B>): S {
    if s == [] then c else f(Fold(f, c, s[..|s| - 1]), s[|s| - 1])
  }

  lemma FoldPrefix<S, B>(f: (S, B) -> S, c: S, s: seq<B>, n: nat)
    requires n < |s|
    ensures Fold(f, c, s[..n + 1]) == f(Fold(f, c, s[..n]), s[n])
  {
    assert s[..n + 1][..n] == s[..n];
  }

  lemma {:induction false} FoldAppend<S, B>(f: (S, B) -> S, c: S, s: seq<B>, t: seq<B>)
    ensures Fold(f, c, s + t) == Fold(f, Fold(f, c, s), t)
  {
    if t == [] {
      assert s + t == s;
    } else {
      FoldAppend(f, c, s, t[..|t| - 1]);
      assert (s + t)[..|s + t| - 1] == s + t[..|t| - 1];
    }
  }

  lemma {:induction false} FoldInjective<S(!new), B(!new)>(f: (S, B) -> S, c: S, d: S, s: seq<B>)
    requires forall x, y, b {:trigger f(x, b), f(y, b)} :: f(x, b) == f(y, b) ==> x == y
    requires Fold(f, c, s) == Fold(f, d, s)
    ensures c == d
  {
    if s != [] {
      FoldInjective(f, c, d, s[..|s| - 1]);
    }
  }

  // The division register.

  function Xor(a: Word, b: Word): Word {
    a ^ b
  }

  /** One division step of the reflected generator, and n of them. */
  function Shift1(c: Word): Word {
    if c & 1 == 1 then (c >> 1) ^ POLY else c >> 1
  }

  function Shift(c: Word, n: nat): Word {
    Iter(Shift1, c, n)
  }

  function WordOf(b: Byte): Word {
    Bits(b) as Word
  }

  /** Dividing one more byte in. */
  function Divide(c: Word, b: Byte): Word {
    Shift(Xor(c, WordOf(b)), 8)
  }

  /** The register after dividing a message in, one bit at a time, lowest bit of each byte first. */
  function Register(c: Word, s: seq<Byte>): Word {
    Fold(Divide, c, s)
  }

  function Byte0(w: Word): bv8 {
    (w & 0xff) as bv8
  }

  /** The four bytes of a word, lowest first. */
  function WordBytes(w: Word): (s: seq<Byte>)
    ensures |s| == 4
  {
    [Value(Byte0(w)), Value(Byte0(w >> 8)), Value(Byte0(w >> 16)), Value(Byte0(w >> 24))]
  }

  /** CRC-32 of RFC 1952, section 8, by bitwise division. */
  function Crc(s: seq<Byte>): Uint32 {
    FromLERoundTrip(WordBytes(Xor(Register(ALL_ONES, s), ALL_ONES)));
    FromLE(WordBytes(Xor(Register(ALL_ONES, s), ALL_ONES)))
  }

  // The table.

  /** The word among sixteen that the low four bits of x name. */
  function Select(x: bv8, a0: Word, a1: Word, a2: Word, a3: Word, a4: Word, a5: Word, a6: Word, a7: Word,
                  a8: Word, a9: Word, a10: Word, a11: Word, a12: Word, a13: Word, a14: Word, a15: Word): Word
  {
    if x & 8 == 0 then
      if x & 4 == 0 then
        if x & 2 == 0 then if x & 1 == 0 then a0 else a1 else if x & 1 == 0 then a2 else a3
      else
        if x & 2 == 0 then if x & 1 == 0 then a4 else a5 else if x & 1 == 0 then a6 else a7
    else
      if x & 4 == 0 then
        if x & 2 == 0 then if x & 1 == 0 then a8 else a9 else if x & 1 == 0 then a10 else a11
      else
        if x & 2 == 0 then if x & 1 == 0 then a12 else a13 else if x & 1 == 0 then a14 else a15
  }

  // `crc_table`: its 256 words in order, sixteen a row.

  function Row0(x: bv8): Word {
    Select(x, 0x00000000, 0x77073096, 0xEE0E612C, 0x990951BA, 0x076DC419, 0x706AF48F, 0xE963A535, 0x9E6495A3,
           0x0EDB8832, 0x79DCB8A4, 0xE0D5E91E, 0x97D2D988, 0x09B64C2B, 0x7EB17CBD, 0xE7B82D07, 0x90BF1D91)
  }

  function Row1(x: bv8): Word {
    Select(x, 0x1DB71064, 0x6AB020F2, 0xF3B97148, 0x84BE41DE, 0x1ADAD47D, 0x6DDDE4EB, 0xF4D4B551, 0x83D385C7,
           0x136C9856, 0x646BA8C0, 0xFD62F97A, 0x8A65C9EC, 0x14015C4F, 0x63066CD9, 0xFA0F3D63, 0x8D080DF5)
  }

  function Row2(x: bv8): Word {
    Select(x, 0x3B6E20C8, 0x4C69105E, 0xD56041E4, 0xA2677172, 0x3C03E4D1, 0x4B04D447, 0xD20D85FD, 0xA50AB56B,
           0x35B5A8FA, 0x42B2986C, 0xDBBBC9D6, 0xACBCF940, 0x32D86CE3, 0x45DF5C75, 0xDCD60DCF, 0xABD13D59)
  }

  function Row3(x: bv8): Word {
    Select(x, 0x26D930AC, 0x51DE003A, 0xC8D75180, 0xBFD06116, 0x21B4F4B5, 0x56B3C423, 0xCFBA9599, 0xB8BDA50F,
           0x2802B89E, 0x5F058808, 0xC60CD9B2, 0xB10BE924, 0x2F6F7C87, 0x58684C11, 0xC1611DAB, 0xB6662D3D)
  }

  function Row4(x: bv8): Word {
    Select(x, 0x76DC4190, 0x01DB7106, 0x98D220BC, 0xEFD5102A, 0x71B18589, 0x06B6B51F, 0x9FBFE4A5, 0xE8B8D433,
           0x7807C9A2, 0x0F00F934, 0x9609A88E, 0xE10E9818, 0x7F6A0DBB, 0x086D3D2D, 0x91646C97, 0xE6635C01)
  }

  function Row5(x: bv8): Word {
    Select(x, 0x6B6B51F4, 0x1C6C6162, 0x856530D8, 0xF262004E, 0x6C0695ED, 0x1B01A57B, 0x8208F4C1, 0xF50FC457,
           0x65B0D9C6, 0x12B7E950, 0x8BBEB8EA, 0xFCB9887C, 0x62DD1DDF, 0x15DA2D49, 0x8CD37CF3, 0xFBD44C65)
  }

  function Row6(x: bv8): Word {
    Select(x, 0x4DB26158, 0x3AB551CE, 0xA3BC0074, 0xD4BB30E2, 0x4ADFA541, 0x3DD895D7, 0xA4D1C46D, 0xD3D6F4FB,
           0x4369E96A, 0x346ED9FC, 0xAD678846, 0xDA60B8D0, 0x44042D73, 0x33031DE5, 0xAA0A4C5F, 0xDD0D7CC9)
  }

  function Row7(x: bv8): Word {
    Select(x, 0x5005713C, 0x270241AA, 0xBE0B1010, 0xC90C2086, 0x5768B525, 0x206F85B3, 0xB966D409, 0xCE61E49F,
           0x5EDEF90E, 0x29D9C998, 0xB0D09822, 0xC7D7A8B4, 0x59B33D17, 0x2EB40D81, 0xB7BD5C3B, 0xC0BA6CAD)
  }

  function Row8(x: bv8): Word {
    Select(x, 0xEDB88320, 0x9ABFB3B6, 0x03B6E20C, 0x74B1D29A, 0xEAD54739, 0x9DD277AF, 0x04DB2615, 0x73DC1683,
           0xE3630B12, 0x94643B84, 0x0D6D6A3E, 0x7A6A5AA8, 0xE40ECF0B, 0x9309FF9D, 0x0A00AE27, 0x7D079EB1)
  }

  function Row9(x: bv8): Word {
    Select(x, 0xF00F9344, 0x8708A3D2, 0x1E01F268, 0x6906C2FE, 0xF762575D, 0x806567CB, 0x196C3671, 0x6E6B06E7,
           0xFED41B76, 0x89D32BE0, 0x10DA7A5A, 0x67DD4ACC, 0xF9B9DF6F, 0x8EBEEFF9, 0x17B7BE43, 0x60B08ED5)
  }

  function Row10(x: bv8): Word {
    Select(x, 0xD6D6A3E8, 0xA1D1937E, 0x38D8C2C4, 0x4FDFF252, 0xD1BB67F1, 0xA6BC5767, 0x3FB506DD, 0x48B2364B,
           0xD80D2BDA, 0xAF0A1B4C, 0x36034AF6, 0x41047A60, 0xDF60EFC3, 0xA867DF55, 0x316E8EEF, 0x4669BE79)
  }

  function Row11(x: bv8): Word {
    Select(x, 0xCB61B38C, 0xBC66831A, 0x256FD2A0, 0x5268E236, 0xCC0C7795, 0xBB0B4703, 0x220216B9, 0x5505262F,
           0xC5BA3BBE, 0xB2BD0B28, 0x2BB45A92, 0x5CB36A04, 0xC2D7FFA7, 0xB5D0CF31, 0x2CD99E8B, 0x5BDEAE1D)
  }

  function Row12(x: bv8): Word {
    Select(x, 0x9B64C2B0, 0xEC63F226, 0x756AA39C, 0x026D930A, 0x9C0906A9, 0xEB0E363F, 0x72076785, 0x05005713,
           0x95BF4A82, 0xE2B87A14, 0x7BB12BAE, 0x0CB61B38, 0x92D28E9B, 0xE5D5BE0D, 0x7CDCEFB7, 0x0BDBDF21)
  }

  function Row13(x: bv8): Word {
    Select(x, 0x86D3D2D4, 0xF1D4E242, 0x68DDB3F8, 0x1FDA836E, 0x81BE16CD, 0xF6B9265B, 0x6FB077E1, 0x18B74777,
           0x88085AE6, 0xFF0F6A70, 0x66063BCA, 0x11010B5C, 0x8F659EFF, 0xF862AE69, 0x616BFFD3, 0x166CCF45)
  }

  function Row14(x: bv8): Word {
    Select(x, 0xA00AE278, 0xD70DD2EE, 0x4E048354, 0x3903B3C2, 0xA7672661, 0xD06016F7, 0x4969474D, 0x3E6E77DB,
           0xAED16A4A, 0xD9D65ADC, 0x40DF0B66, 0x37D83BF0, 0xA9BCAE53, 0xDEBB9EC5, 0x47B2CF7F, 0x30B5FFE9)
  }

  function Row15(x: bv8): Word {
    Select(x, 0xBDBDF21C, 0xCABAC28A, 0x53B39330, 0x24B4A3A6, 0xBAD03605, 0xCDD70693, 0x54DE5729, 0x23D967BF,
           0xB3667A2E, 0xC4614AB8, 0x5D681B02, 0x2A6F2B94, 0xB40BBE37, 0xC30C8EA1, 0x5A05DF1B, 0x2D02EF8D)
  }

  function CrcTable(x: bv8): Word {
    Select(x >> 4, Row0(x), Row1(x), Row2(x), Row3(x), Row4(x), Row5(x), Row6(x), Row7(x),
           Row8(x), Row9(x), Row10(x), Row11(x), Row12(x), Row13(x), Row14(x), Row15(x))
  }

  lemma HalfXor(a: Word, b: Word)
    ensures (a ^ b) >> 1 == (a >> 1) ^ (b >> 1)
    ensures (a ^ b) & 1 == (a & 1) ^ (b & 1)
    ensures (a & 1 == 0 || a & 1 == 1) && (b & 1 == 0 || b & 1 == 1)
  {
  }

  lemma XorLaws(a: Word, b: Word, p: Word)
    ensures (a ^ p) ^ (b ^ p) == a ^ b
    ensures (a ^ p) ^ b == (a ^ b) ^ p
    ensures a ^ (b ^ p) == (a ^ b) ^ p
  {
  }

  lemma Shift1Xor(a: Word, b: Word)
    ensures Shift1(a ^ b) == Shift1(a) ^ Shift1(b)
  {
    HalfXor(a, b);
    XorLaws(a >> 1, b >> 1, POLY);
  }

  /** Division is linear: the steps of a sum are the sum of the steps. */
  lemma Shift1Additive()
    ensures Additive(Shift1, Xor)
  {
    forall a: Word, b: Word
      ensures Shift1(Xor(a, b)) == Xor(Shift1(a), Shift1(b))
    {
      Shift1Xor(a, b);
    }
  }

  lemma ShiftXor(a: Word, b: Word, n: nat)
    ensures Shift(Xor(a, b), n) == Xor(Shift(a, n), Shift(b, n))
  {
    Shift1Additive();
    IterAdditive(Shift1, Xor, a, b, n);
  }

  lemma XorCancel(x: Word, y: Word, w: Word)
    ensures Xor(x, w) == Xor(y, w) <==> x == y
    ensures Xor(w, x) == Xor(w, y) <==> x == y
  {
  }

  lemma HalfInjective(a: Word, b: Word)
    ensures ((a >> 1) ^ POLY) & 0x8000_0000 != 0 && (b >> 1) & 0x8000_0000 == 0
    ensures a >> 1 == b >> 1 && a & 1 == b & 1 ==> a == b
    ensures a & 1 == 0 || a & 1 == 1
  {
  }

  /** Division loses nothing: the generator's top bit tells what was shifted out. */
  lemma Shift1Differs(a: Word, b: Word)
    requires Shift1(a) == Shift1(b)
    ensures a == b
  {
    HalfInjective(a, b);
    HalfInjective(b, a);
    XorCancel(a >> 1, b >> 1, POLY);
  }

  lemma Shift1Injective()
    ensures Injective(Shift1)
  {
    hide Shift1;
    forall a: Word, b: Word | Shift1(a) == Shift1(b)
      ensures a == b
    {
      Shift1Differs(a, b);
    }
  }

  lemma ShiftInjective(a: Word, b: Word, n: nat)
    requires Shift(a, n) == Shift(b, n)
    ensures a == b
  {
    Shift1Injective();
    IterInjective(Shift1, a, b, n);
  }

  lemma ShiftLow(a: Word)
    requires a & 0xff == 0
    ensures Shift(a, 8) == a >> 8
  {
  }

  // ---- the table is the division -----------------------------------------------

  function Shift8(c: Word): Word {
    Shift1(Shift1(Shift1(Shift1(Shift1(Shift1(Shift1(Shift1(c))))))))
  }

  lemma Shift8IsShift(c: Word)
    ensures Shift(c, 8) == Shift8(c)
  {
    IterEight(Shift1, c);
  }

  lemma IterEight<T>(f: T -> T, c: T)
    ensures Iter(f, c, 8) == f(f(f(f(f(f(f(f(c))))))))
  {
  }

  /** Every one of the 256 words is eight division steps of its index. */
  lemma CrcTableIsDivision(x: bv8)
    ensures CrcTable(x) == Shift(x as Word, 8)
  {
    Shift8IsShift(x as Word);
    CrcTableIsDivision8(x);
  }

  // Row by row, every word is eight division steps of its index.

  lemma Row1IsDivision(x: bv8)
    requires x >> 4 == 1
    ensures Row1(x) == Shift8(x as Word)
  {
  }

  lemma Row2IsDivision(x: bv8)
    requires x >> 4 == 2
    ensures Row2(x) == Shift8(x as Word)
  {
  }

  lemma Row3IsDivision(x: bv8)
    requires x >> 4 == 3
    ensures Row3(x) == Shift8(x as Word)
  {
  }

  lemma Row4IsDivision(x: bv8)
    requires x >> 4 == 4
    ensures Row4(x) == Shift8(x as Word)
  {
  }

  lemma Row5IsDivision(x: bv8)
    requires x >> 4 == 5
    ensures Row5(x) == Shift8(x as Word)
  {
  }

  lemma Row6IsDivision(x: bv8)
    requires x >> 4 == 6
    ensures Row6(x) == Shift8(x as Word)
  {
  }

  lemma Row7IsDivision(x: bv8)
    requires x >> 4 == 7
    ensures Row7(x) == Shift8(x as Word)
  {
  }

  lemma Row8IsDivision(x: bv8)
    requires x >> 4 == 8
    ensures Row8(x) == Shift8(x as Word)
  {
  }

  lemma Row9IsDivision(x: bv8)
    requires x >> 4 == 9
    ensures Row9(x) == Shift8(x as Word)
  {
  }

  lemma Row10IsDivision(x: bv8)
    requires x >> 4 == 10
    ensures Row10(x) == Shift8(x as Word)
  {
  }

  lemma Row11IsDivision(x: bv8)
    requires x >> 4 == 11
    ensures Row11(x) == Shift8(x as Word)
  {
  }

  lemma Row12IsDivision(x: bv8)
    requires x >> 4 == 12
    ensures Row12(x) == Shift8(x as Word)
  {
  }

  lemma Row13IsDivision(x: bv8)
    requires x >> 4 == 13
    ensures Row13(x) == Shift8(x as Word)
  {
  }

  lemma Row14IsDivision(x: bv8)
    requires x >> 4 == 14
    ensures Row14(x) == Shift8(x as Word)
  {
  }

  lemma Row15IsDivision(x: bv8)
    requires x >> 4 == 15
    ensures Row15(x) == Shift8(x as Word)
  {
  }

  lemma Row0BesideRow8(x: bv8)
    requires x >> 4 == 0
    ensures Row0(x) == Xor(Row8(x ^ 0x80), 0xEDB88320)
    ensures (x ^ 0x80) >> 4 == 8 && x as Word == Xor((x ^ 0x80) as Word, 0x80)
  {
  }

  lemma TopBitShifted()
    ensures Shift8(0x80) == 0xEDB88320
  {
  }

  /** Row 0 by linearity, from row 8. */
  lemma Row0IsDivision(x: bv8)
    requires x >> 4 == 0
    ensures Row0(x) == Shift8(x as Word)
  {
    hide Shift8, Row0, Row8, Xor;
    Row0BesideRow8(x);
    Row8IsDivision(x ^ 0x80);
    TopBitShifted();
    ShiftXor((x ^ 0x80) as Word, 0x80, 8);
    Shift8IsShift((x ^ 0x80) as Word);
    Shift8IsShift(0x80);
    Shift8IsShift(x as Word);
  }

  lemma CrcTableIsDivision8(x: bv8)
    ensures CrcTable(x) == Shift8(x as Word)
  {
    hide Shift8, Row0, Row1, Row2, Row3, Row4, Row5, Row6, Row7, Row8, Row9, Row10, Row11, Row12, Row13, Row14, Row15;
    if x >> 4 == 0 {
      Row0IsDivision(x);
    } else if x >> 4 == 1 {
      Row1IsDivision(x);
    } else if x >> 4 == 2 {
      Row2IsDivision(x);
    } else if x >> 4 == 3 {
      Row3IsDivision(x);
    } else if x >> 4 == 4 {
      Row4IsDivision(x);
    } else if x >> 4 == 5 {
      Row5IsDivision(x);
    } else if x >> 4 == 6 {
      Row6IsDivision(x);
    } else if x >> 4 == 7 {
      Row7IsDivision(x);
    } else if x >> 4 == 8 {
      Row8IsDivision(x);
    } else if x >> 4 == 9 {
      Row9IsDivision(x);
    } else if x >> 4 == 10 {
      Row10IsDivision(x);
    } else if x >> 4 == 11 {
      Row11IsDivision(x);
    } else if x >> 4 == 12 {
      Row12IsDivision(x);
    } else if x >> 4 == 13 {
      Row13IsDivision(x);
    } else if x >> 4 == 14 {
      Row14IsDivision(x);
    } else if x >> 4 == 15 {
      Row15IsDivision(x);
    }
  }

  lemma SplitLow(x: Word)
    ensures x == Xor(Byte0(x) as Word, x & 0xffff_ff00)
    ensures (x & 0xffff_ff00) & 0xff == 0 && (x & 0xffff_ff00) >> 8 == x >> 8
  {
  }

  lemma TableStepSplit(lo: bv8, hi: Word)
    requires hi & 0xff == 0
    ensures Shift(Xor(lo as Word, hi), 8) == Xor(CrcTable(lo), hi >> 8)
  {
    CrcTableIsDivision(lo);
    ShiftXor(lo as Word, hi, 8);
    ShiftLow(hi);
  }

  /** The loop's table step is eight division steps. */
  lemma TableStep(x: Word)
    ensures Xor(CrcTable(Byte0(x)), x >> 8) == Shift(x, 8)
  {
    SplitLow(x);
    TableStepSplit(Byte0(x), x & 0xffff_ff00);
  }

  lemma SameHigh(c: Word, w: bv8)
    ensures Xor(c, w as Word) >> 8 == c >> 8
  {
  }

  /** The body of the loop of `crc32`. */
  function TableDriven(c: Word, b: Byte): Word {
    Xor(CrcTable(Byte0(Xor(c, WordOf(b)))), c >> 8)
  }

  lemma TableDrivenIsDivision(c: Word, b: Byte)
    ensures TableDriven(c, b) == Divide(c, b)
  {
    TableStep(Xor(c, WordOf(b)));
    SameHigh(c, Bits(b));
  }

  /** `crc32`: the loop over the table computes the bitwise division. */
  method ComputeCrc32(buf: seq<Byte>) returns (crc: nat)
    ensures crc == Crc(buf)
  {
    var c := ALL_ONES;
    for n := 0 to |buf|
      invariant c == Register(ALL_ONES, buf[..n])
    {
      FoldPrefix(Divide, ALL_ONES, buf, n);
      TableDrivenIsDivision(c, buf[n]);
      c := TableDriven(c, buf[n]);
    }
    assert buf[..|buf|] == buf;
    crc := FromLE(WordBytes(Xor(c, ALL_ONES)));
  }

  // ---- what the checksum detects ---------------------------------------------------

  /** Different registers stay different, whatever follows. */
  lemma RegisterInjective(c: Word, d: Word, s: seq<Byte>)
    requires Register(c, s) == Register(d, s)
    ensures c == d
  {
    forall x, y, b | Divide(x, b) == Divide(y, b)
      ensures x == y
    {
      ShiftInjective(Xor(x, WordOf(b)), Xor(y, WordOf(b)), 8);
      XorCancel(x, y, WordOf(b));
    }
    FoldInjective(Divide, c, d, s);
  }

  function Pack(b0: bv8, b1: bv8, b2: bv8, b3: bv8): Word {
    Xor(Xor(Xor(b0 as Word, (b1 as Word) << 8), (b2 as Word) << 16), (b3 as Word) << 24)
  }

  function PackBytes(s: seq<Byte>): Word
    requires |s| == 4
  {
    Pack(Bits(s[0]), Bits(s[1]), Bits(s[2]), Bits(s[3]))
  }

  lemma PackParts(b0: bv8, b1: bv8, b2: bv8, b3: bv8)
    ensures var w := Pack(b0, b1, b2, b3);
            Byte0(w) == b0 && Byte0(w >> 8) == b1 && Byte0(w >> 16) == b2 && Byte0(w >> 24) == b3
  {
  }

  lemma PartsPack(w: Word)
    ensures Pack(Byte0(w), Byte0(w >> 8), Byte0(w >> 16), Byte0(w >> 24)) == w
  {
  }

  lemma WordBytesOfPack(s: seq<Byte>)
    requires |s| == 4
    ensures WordBytes(PackBytes(s)) == s
  {
    PackParts(Bits(s[0]), Bits(s[1]), Bits(s[2]), Bits(s[3]));
    ValueOfBits(s[0]);
    ValueOfBits(s[1]);
    ValueOfBits(s[2]);
    ValueOfBits(s[3]);
  }

  lemma PackOfWordBytes(w: Word)
    ensures PackBytes(WordBytes(w)) == w
  {
    BitsOfValue(Byte0(w));
    BitsOfValue(Byte0(w >> 8));
    BitsOfValue(Byte0(w >> 16));
    BitsOfValue(Byte0(w >> 24));
    PartsPack(w);
  }

  // A byte divided in k bytes later acts like the same byte 8k bits further up.

  lemma ShiftBack(u: Word, v: Word, w: Word, n: nat)
    requires u & 0xff == 0 && u >> 8 == v && Shift(v, n) == w
    ensures Shift(u, 8 + n) == w
  {
    ShiftLow(u);
    IterAdd(Shift1, u, 8, n);
  }

  lemma Up(b: bv8)
    ensures var w := b as Word;
            && (w << 8) & 0xff == 0 && (w << 8) >> 8 == w
            && (w << 16) & 0xff == 0 && (w << 16) >> 8 == w << 8
            && (w << 24) & 0xff == 0 && (w << 24) >> 8 == w << 16
  {
  }

  lemma ShiftUp(w: Word, u1: Word, u2: Word, u3: Word)
    requires u1 & 0xff == 0 && u1 >> 8 == w
    requires u2 & 0xff == 0 && u2 >> 8 == u1
    requires u3 & 0xff == 0 && u3 >> 8 == u2
    ensures Shift(u1, 8) == w && Shift(u2, 16) == w && Shift(u3, 24) == w
  {
    ShiftBack(u1, w, w, 0);
    ShiftBack(u2, u1, w, 8);
    ShiftBack(u3, u2, w, 16);
  }

  lemma ShiftUpByte(b: bv8)
    ensures Shift((b as Word) << 8, 8) == b as Word
    ensures Shift((b as Word) << 16, 16) == b as Word
    ensures Shift((b as Word) << 24, 24) == b as Word
  {
    Up(b);
    ShiftUp(b as Word, (b as Word) << 8, (b as Word) << 16, (b as Word) << 24);
  }

  lemma DivideLater(y: Word, w: Word, u: Word, n: nat)
    requires Shift(u, n) == w
    ensures Shift(Xor(Shift(y, n), w), 8) == Shift(Xor(y, u), n + 8)
  {
    ShiftXor(y, u, n);
    IterAdd(Shift1, Xor(y, u), n, 8);
  }

  lemma DivideFour(c: Word, w0: Word, w1: Word, w2: Word, w3: Word, u1: Word, u2: Word, u3: Word)
    requires Shift(u1, 8) == w1 && Shift(u2, 16) == w2 && Shift(u3, 24) == w3
    ensures Shift(Xor(Shift(Xor(Shift(Xor(Shift(Xor(c, w0), 8), w1), 8), w2), 8), w3), 8)
         == Shift(Xor(Xor(Xor(Xor(c, w0), u1), u2), u3), 32)
  {
    DivideLater(Xor(c, w0), w1, u1, 8);
    DivideLater(Xor(Xor(c, w0), u1), w2, u2, 16);
    DivideLater(Xor(Xor(Xor(c, w0), u1), u2), w3, u3, 24);
  }

  lemma FoldFour<S, B>(f: (S, B) -> S, c: S, s: seq<B>)
    requires |s| == 4
    ensures Fold(f, c, s) == f(f(f(f(c, s[0]), s[1]), s[2]), s[3])
  {
    FoldPrefix(f, c, s, 0);
    FoldPrefix(f, c, s, 1);
    FoldPrefix(f, c, s, 2);
    FoldPrefix(f, c, s, 3);
    assert s[..0] == [] && s[..4] == s;
  }

  lemma XorAssoc(a: Word, b: Word, c: Word)
    ensures Xor(Xor(a, b), c) == Xor(a, Xor(b, c))
  {
  }

  lemma XorPack(c: Word, b0: bv8, b1: bv8, b2: bv8, b3: bv8)
    ensures Xor(Xor(Xor(Xor(c, b0 as Word), (b1 as Word) << 8), (b2 as Word) << 16), (b3 as Word) << 24)
         == Xor(c, Pack(b0, b1, b2, b3))
  {
    XorAssoc4(c, b0 as Word, (b1 as Word) << 8, (b2 as Word) << 16, (b3 as Word) << 24);
  }

  lemma XorAssoc4(c: Word, p: Word, q: Word, r: Word, s: Word)
    ensures Xor(Xor(Xor(Xor(c, p), q), r), s) == Xor(c, Xor(Xor(Xor(p, q), r), s))
  {
    XorAssoc(c, p, q);
    XorAssoc(c, Xor(p, q), r);
    XorAssoc(c, Xor(Xor(p, q), r), s);
  }

  lemma DivideFourBytes(c: Word, b0: bv8, b1: bv8, b2: bv8, b3: bv8)
    ensures Shift(Xor(Shift(Xor(Shift(Xor(Shift(Xor(c, b0 as Word), 8), b1 as Word), 8), b2 as Word), 8),
                      b3 as Word), 8)
         == Shift(Xor(c, Pack(b0, b1, b2, b3)), 32)
  {
    ShiftUpByte(b1);
    ShiftUpByte(b2);
    ShiftUpByte(b3);
    DivideFour(c, b0 as Word, b1 as Word, b2 as Word, b3 as Word, (b1 as Word) << 8, (b2 as Word) << 16,
               (b3 as Word) << 24);
    XorPack(c, b0, b1, b2, b3);
  }

  /** Four bytes divided in one by one are one word divided in at once. */
  lemma RegisterFour(c: Word, s: seq<Byte>)
    requires |s| == 4
    ensures Register(c, s) == Shift(Xor(c, PackBytes(s)), 32)
  {
    FoldFour(Divide, c, s);
    DivideFourBytes(c, Bits(s[0]), Bits(s[1]), Bits(s[2]), Bits(s[3]));
  }

  lemma RegisterFourInjective(c: Word, s: seq<Byte>, t: seq<Byte>)
    requires |s| == 4 && |t| == 4 && Register(c, s) == Register(c, t)
    ensures s == t
  {
    RegisterFour(c, s);
    RegisterFour(c, t);
    ShiftInjective(Xor(c, PackBytes(s)), Xor(c, PackBytes(t)), 32);
    XorCancel(PackBytes(s), PackBytes(t), c);
    WordBytesOfPack(s);
    WordBytesOfPack(t);
  }

  /** a and b have one length and agree outside the four bytes from `at`. */
  ghost predicate DifferInBurst(a: seq<Byte>, b: seq<Byte>, at: nat) {
    && |a| == |b|
    && forall k | 0 <= k < |a| && !(at <= k < at + 4) :: a[k] == b[k]
  }

  lemma WindowInjective(c: Word, pre: seq<Byte>, x: seq<Byte>, y: seq<Byte>, post: seq<Byte>)
    requires |x| == |y| <= 4 && Register(c, pre + x + post) == Register(c, pre + y + post)
    ensures x == y
  {
    FoldAppend(Divide, c, pre + x, post);
    FoldAppend(Divide, c, pre + y, post);
    RegisterInjective(Register(c, pre + x), Register(c, pre + y), post);
    FoldAppend(Divide, c, pre, x);
    FoldAppend(Divide, c, pre, y);
    ShortInjective(Register(c, pre), x, y);
  }

  lemma ShortInjective(c: Word, x: seq<Byte>, y: seq<Byte>)
    requires |x| == |y| <= 4 && Register(c, x) == Register(c, y)
    ensures x == y
  {
    var pad: seq<Byte> := seq(4 - |x|, _ => 0);
    FoldAppend(Divide, c, x, pad);
    FoldAppend(Divide, c, y, pad);
    RegisterFourInjective(c, x + pad, y + pad);
    assert x == (x + pad)[..|x|] && y == (y + pad)[..|y|];
  }

  /** A burst of up to four wrong bytes always changes the register. */
  lemma BurstChangesRegister(c: Word, a: seq<Byte>, b: seq<Byte>, at: nat)
    requires DifferInBurst(a, b, at) && a != b
    ensures Register(c, a) != Register(c, b)
  {
    var lo := if at <= |a| then at else |a|;
    var hi := if at + 4 <= |a| then at + 4 else |a|;
    var pre: seq<Byte>, post: seq<Byte> := a[..lo], a[hi..];
    assert a == pre + a[lo..hi] + post && b == pre + b[lo..hi] + post;
    if Register(c, a) == Register(c, b) {
      WindowInjective(c, pre, a[lo..hi], b[lo..hi], post);
    }
  }

  lemma ReadOut(r: Word, q: Word)
    requires FromLE(WordBytes(Xor(r, ALL_ONES))) == FromLE(WordBytes(Xor(q, ALL_ONES)))
    ensures r == q
  {
    FromLERoundTrip(WordBytes(Xor(r, ALL_ONES)));
    FromLERoundTrip(WordBytes(Xor(q, ALL_ONES)));
    PackOfWordBytes(Xor(r, ALL_ONES));
    PackOfWordBytes(Xor(q, ALL_ONES));
    XorCancel(r, q, ALL_ONES);
  }

  /** Equal-length messages that differ only within four consecutive bytes have different checksums. */
  lemma BurstDetected(a: seq<Byte>, b: seq<Byte>, at: nat)
    requires DifferInBurst(a, b, at) && a != b
    ensures Crc(a) != Crc(b)
  {
    BurstChangesRegister(ALL_ONES, a, b, at);
    if Crc(a) == Crc(b) {
      ReadOut(Register(ALL_ONES, a), Register(ALL_ONES, b));
    }
  }

  /** A checksum and a trailer agree exactly when the trailer's word is the inverted register. */
  lemma TrailerWord(r: Word, t: seq<Byte>)
    requires |t| == 4
    ensures FromLE(WordBytes(Xor(r, ALL_ONES))) == FromLE(t) <==> PackBytes(t) == Xor(r, ALL_ONES)
  {
    hide FromLE, WordBytes, PackBytes, Xor, LE;
    FromLERoundTrip(WordBytes(Xor(r, ALL_ONES)));
    FromLERoundTrip(t);
    PackOfWordBytes(Xor(r, ALL_ONES));
    WordBytesOfPack(t);
  }

  /** The test passes exactly when the register, run over data and trailer alike, ends on one fixed word. */
  lemma TrailerOkIsResidue(w: seq<Byte>)
    requires |w| >= 4
    ensures TrailerOk(Crc, w) <==> Register(ALL_ONES, w) == Shift(ALL_ONES, 32)
  {
    hide FromLE, WordBytes, PackBytes, Xor, Shift, Fold, Divide;
    var data, t := w[..|w| - 4], w[|w| - 4..];
    var r := Register(ALL_ONES, data);
    assert w == data + t;
    FoldAppend(Divide, ALL_ONES, data, t);
    RegisterFour(r, t);
    TrailerWord(r, t);
    XorSwap(r, PackBytes(t));
    if Register(ALL_ONES, w) == Shift(ALL_ONES, 32) {
      ShiftInjective(Xor(r, PackBytes(t)), ALL_ONES, 32);
    }
  }

  lemma XorSwap(r: Word, p: Word)
    ensures Xor(r, p) == ALL_ONES <==> p == Xor(r, ALL_ONES)
  {
    XorTwice(r, p);
    XorTwice(r, ALL_ONES);
  }

  lemma XorTwice(r: Word, p: Word)
    ensures Xor(r, Xor(r, p)) == p
  {
  }

  /** A burst anywhere in a checksummed frame, data or trailer, is caught by the receiver. */
  lemma CorruptedFrameRejected(w: seq<Byte>, v: seq<Byte>, at: nat)
    requires |w| >= 4 && TrailerOk(Crc, w)
    requires DifferInBurst(w, v, at) && w != v
    ensures !TrailerOk(Crc, v)
  {
    TrailerOkIsResidue(w);
    TrailerOkIsResidue(v);
    BurstChangesRegister(ALL_ONES, w, v, at);
  }

  /** The sender's trailer passes the receiver's test. */
  lemma SentTrailerOk(data: seq<Byte>)
    ensures TrailerOk(Crc, data + LE(Crc(data), 4))
  {
    var w := data + LE(Crc(data), 4);
    assert w[..|w| - 4] == data && w[|w| - 4..] == LE(Crc(data), 4);
    FromLERoundTrip(WordBytes(Xor(Register(ALL_ONES, data), ALL_ONES)));
    LERoundTrip(Crc(data), 4);
  }
}
