/** Bytes as the firmware's `uint8_t`, their bit patterns, little-endian integers, and C's 32-bit ones. */
module Bytes {

  type Byte = x: int | 0 <= x < 256

  const TWO31: int := 0x8000_0000
  const TWO32: int := 0x1_0000_0000

  type Uint32 = x: int | 0 <= x < 0x1_0000_0000

  type Int32 = x: int | -0x8000_0000 <= x < 0x8000_0000

  /** `uint32_t` to `int32_t`. */
  function AsInt32(value: int): int {
    if value >= TWO31 then value - TWO32 else value
  }

  /** To `uint32_t`. */
  function Unsigned32(x: int): Uint32 {
    x % TWO32
  }

  /** C division and remainder. */
  function Quotient(a: int, b: int): int
    requires b != 0
  {
    if (a < 0) == (b < 0) then (if a < 0 then -a else a) / (if b < 0 then -b else b)
    else -((if a < 0 then -a else a) / (if b < 0 then -b else b))
  }

  function Remainder(a: int, b: int): int
    requires b != 0
  {
    a - Quotient(a, b) * b
  }

  /** `k` bytes of n, lowest first: the layout of the packed structs' integers. */
  function LE(n: nat, k: nat): (s: seq<Byte>)
    ensures |s| == k
  {
    if k == 0 then [] else [n % 256] + LE(n / 256, k - 1)
  }

  function FromLE(s: seq<Byte>): (n: nat)
  {
    if s == [] then 0 else (s[0] as nat) + 256 * FromLE(s[1..])
  }

  function Pow256(k: nat): (p: nat)
    ensures p >= 1
  {
    if k == 0 then 1 else 256 * Pow256(k - 1)
  }

  /** Writing an integer into k bytes and reading it back keeps it exactly when it fits. */
  lemma {:induction false} LERoundTrip(n: nat, k: nat)
    ensures FromLE(LE(n, k)) == n <==> n < Pow256(k)
    ensures FromLE(LE(n, k)) < Pow256(k)
  {
    if k > 0 {
      LERoundTrip(n / 256, k - 1);
      assert LE(n, k)[1..] == LE(n / 256, k - 1);
    }
  }

  lemma LowestByte(low: Byte, high: nat)
    ensures (low + 256 * high) % 256 == low && (low + 256 * high) / 256 == high
  {
  }

  lemma {:induction false} FromLERoundTrip(s: seq<Byte>)
    ensures LE(FromLE(s), |s|) == s
    ensures FromLE(s) < Pow256(|s|)
  {
    if s != [] {
      FromLERoundTrip(s[1..]);
      LowestByte(s[0], FromLE(s[1..]));
    }
  }

  // ---- checksums -------------------------------------------------------------

  type Checksum = seq<Byte> -> Uint32

  /** The last four bytes, lowest first, are the checksum of what precedes them. */
  predicate TrailerOk(crc: Checksum, w: seq<Byte>)
    requires |w| >= 4
  {
    crc(w[..|w| - 4]) == FromLE(w[|w| - 4..])
  }

  // ---- bit patterns --------------------------------------------------------

  function NibbleBits(n: nat): bv8 {
    if n < 8 then
      if n < 4 then
        if n < 2 then if n == 0 then 0 else 1 else if n == 2 then 2 else 3
      else
        if n < 6 then if n == 4 then 4 else 5 else if n == 6 then 6 else 7
    else
      if n < 12 then
        if n < 10 then if n == 8 then 8 else 9 else if n == 10 then 10 else 11
      else
        if n < 14 then if n == 12 then 12 else 13 else if n == 14 then 14 else 15
  }

  function NibbleValue(x: bv8): (n: nat)
    ensures n < 16
  {
    (if x & 1 == 0 then 0 else 1) + (if x & 2 == 0 then 0 else 2) +
    (if x & 4 == 0 then 0 else 4) + (if x & 8 == 0 then 0 else 8)
  }

  lemma NibbleRoundTrip(n: nat, x: bv8)
    ensures n < 16 ==> NibbleValue(NibbleBits(n)) == n
    ensures NibbleBits(n) & 0xf0 == 0
    ensures x & 0xf0 == 0 ==> NibbleBits(NibbleValue(x)) == x
  {
  }

  /** The eight bits of a byte, and the unsigned value of eight bits. */
  function Bits(b: Byte): bv8 {
    (NibbleBits(b / 16) << 4) | NibbleBits(b % 16)
  }

  function Value(x: bv8): Byte {
    16 * NibbleValue(x >> 4) + NibbleValue(x & 15)
  }

  lemma JoinNibbles(h: bv8, l: bv8)
    requires h & 0xf0 == 0 && l & 0xf0 == 0
    ensures ((h << 4) | l) >> 4 == h && ((h << 4) | l) & 15 == l
  {
  }

  lemma SplitNibbles(x: bv8)
    ensures (x >> 4) & 0xf0 == 0 && (x & 15) & 0xf0 == 0
    ensures ((x >> 4) << 4) | (x & 15) == x
  {
  }

  lemma ValueOfBits(b: Byte)
    ensures Value(Bits(b)) == b
  {
    NibbleRoundTrip(b / 16, 0);
    NibbleRoundTrip(b % 16, 0);
    JoinNibbles(NibbleBits(b / 16), NibbleBits(b % 16));
  }

  lemma DivMod16(h: nat, l: nat)
    requires l < 16
    ensures (16 * h + l) / 16 == h && (16 * h + l) % 16 == l
  {
  }

  lemma BitsOfValue(x: bv8)
    ensures Bits(Value(x)) == x
  {
    SplitNibbles(x);
    NibbleRoundTrip(0, x >> 4);
    NibbleRoundTrip(0, x & 15);
    DivMod16(NibbleValue(x >> 4), NibbleValue(x & 15));
  }
}
