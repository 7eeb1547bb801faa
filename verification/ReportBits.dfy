/** Bit fields of a report: `get_bits` and `put_bits` of `remapper.cc`, `sign_extend_hid_value` of
    `hid_report_bits.h`, and what writing one field does to the others. */
module ReportBits {
  import opened Bytes

  type Octet = bv8

  function Pow2(n: nat): (p: nat)
    ensures p >= 1
  {
    if n == 0 then 1 else 2 * Pow2(n - 1)
  }

  /** `1 << i` within a byte. */
  function BitMask(i: nat): Octet {
    if i == 0 then 1 else if i == 1 then 2 else if i == 2 then 4 else if i == 3 then 8
    else if i == 4 then 16 else if i == 5 then 32 else if i == 6 then 64 else 128
  }

  // ---- single bits -----------------------------------------------------------------

  /** Bit i of byte k; bits beyond the report read as zero. */
  predicate BitIn(data: seq<Octet>, k: nat, i: nat) {
    k < |data| && data[k] & BitMask(i) != 0
  }

  /** `get_bit`. */
  predicate BitAt(data: seq<Octet>, pos: nat) {
    BitIn(data, pos / 8, pos % 8)
  }

  function WithBit(b: Octet, m: Octet, on: bool): Octet {
    (b & !m) | (if on then m else 0)
  }

  /** Bits beyond the report are not written. */
  function SetBitIn(data: seq<Octet>, k: nat, i: nat, on: bool): (r: seq<Octet>)
    ensures |r| == |data|
  {
    if k < |data| then data[k := WithBit(data[k], BitMask(i), on)] else data
  }

  /** `put_bit`. */
  function SetBit(data: seq<Octet>, pos: nat, on: bool): (r: seq<Octet>)
    ensures |r| == |data|
  {
    SetBitIn(data, pos / 8, pos % 8, on)
  }

  lemma MasksDisjoint(i: nat, j: nat)
    requires i < 8 && j < 8
    ensures i != j ==> BitMask(i) & BitMask(j) == 0
    ensures BitMask(i) != 0
  {
  }

  lemma WithBitReads(b: Octet, m: Octet, n: Octet, on: bool)
    ensures m & n == 0 ==> WithBit(b, m, on) & n == b & n
    ensures m != 0 ==> (WithBit(b, m, on) & m != 0 <==> on)
  {
  }

  lemma SamePlace(pos: nat, q: nat)
    ensures pos / 8 == q / 8 && pos % 8 == q % 8 <==> pos == q
  {
  }

  lemma WithBitElsewhere(b: Octet, i: nat, j: nat, on: bool)
    requires i < 8 && j < 8
    ensures WithBit(b, BitMask(i), on) & BitMask(j) != 0 <==> if i == j then on else b & BitMask(j) != 0
  {
    hide BitMask, WithBit;
    MasksDisjoint(i, j);
    WithBitReads(b, BitMask(i), BitMask(j), on);
  }

  lemma SetBitInReads(data: seq<Octet>, k: nat, i: nat, on: bool, l: nat, j: nat)
    requires i < 8 && j < 8
    ensures BitIn(SetBitIn(data, k, i, on), l, j)
       <==> if l == k && i == j && k < |data| then on else BitIn(data, l, j)
  {
    hide BitMask, WithBit;
    if l == k < |data| {
      WithBitElsewhere(data[k], i, j, on);
    }
  }

  /** A written bit reads back, and no other bit changes. */
  lemma SetBitReads(data: seq<Octet>, pos: nat, on: bool, q: nat)
    ensures BitAt(SetBit(data, pos, on), q) <==> if q == pos && pos / 8 < |data| then on else BitAt(data, q)
  {
    hide BitIn, SetBitIn;
    SamePlace(pos, q);
    SetBitInReads(data, pos / 8, pos % 8, on, q / 8, q % 8);
  }

  // ---- fields -------------------------------------------------------------------------

  /** `get_bits`: lowest bit first. */
  function GetBits(data: seq<Octet>, pos: nat, size: nat): (v: nat)
    ensures v < Pow2(size)
    decreases size
  {
    if size == 0 then 0 else (if BitAt(data, pos) then 1 else 0) + 2 * GetBits(data, pos + 1, size - 1)
  }

  /** `put_bits`; a negative value is written as two's complement hardware holds it. */
  function PutBits(data: seq<Octet>, pos: nat, size: nat, value: int): (r: seq<Octet>)
    ensures |r| == |data|
    decreases size
  {
    if size == 0 then data else PutBits(SetBit(data, pos, value % 2 == 1), pos + 1, size - 1, value / 2)
  }

  /** No bit outside the field is written. */
  lemma {:induction false} PutBitsOutside(data: seq<Octet>, pos: nat, size: nat, value: int, q: nat)
    requires q < pos || pos + size <= q
    ensures BitAt(PutBits(data, pos, size, value), q) == BitAt(data, q)
    decreases size
  {
    if size > 0 {
      PutBitsOutside(SetBit(data, pos, value % 2 == 1), pos + 1, size - 1, value / 2, q);
      SetBitReads(data, pos, value % 2 == 1, q);
    }
  }

  /** A field depends on its own bits only. */
  lemma {:induction false} GetBitsCongruent(a: seq<Octet>, b: seq<Octet>, pos: nat, size: nat)
    requires forall q :: pos <= q < pos + size ==> BitAt(a, q) == BitAt(b, q)
    ensures GetBits(a, pos, size) == GetBits(b, pos, size)
    decreases size
  {
    if size > 0 {
      GetBitsCongruent(a, b, pos + 1, size - 1);
    }
  }

  predicate Disjoint(pos: nat, size: nat, pos': nat, size': nat) {
    pos + size <= pos' || pos' + size' <= pos
  }

  /** Writing one field leaves a disjoint one alone. */
  lemma PutBitsFrame(data: seq<Octet>, pos: nat, size: nat, value: int, pos': nat, size': nat)
    requires Disjoint(pos, size, pos', size')
    ensures GetBits(PutBits(data, pos, size, value), pos', size') == GetBits(data, pos', size')
  {
    var r := PutBits(data, pos, size, value);
    forall q | pos' <= q < pos' + size'
      ensures BitAt(r, q) == BitAt(data, q)
    {
      PutBitsOutside(data, pos, size, value, q);
    }
    GetBitsCongruent(r, data, pos', size');
  }

  // ---- numbers cut to a width ---------------------------------------------------------

  /** The low `size` bits of a two's complement number. */
  function Cut(value: int, size: nat): (v: nat)
    ensures v < Pow2(size)
    decreases size
  {
    if size == 0 then 0 else value % 2 + 2 * Cut(value / 2, size - 1)
  }

  /** What is written into a field inside the report reads back, cut to the field's width. */
  lemma {:induction false} PutBitsGet(data: seq<Octet>, pos: nat, size: nat, value: int)
    requires pos + size <= 8 * |data|
    ensures GetBits(PutBits(data, pos, size, value), pos, size) == Cut(value, size)
    decreases size
  {
    hide BitAt, SetBit;
    if size > 0 {
      var first := SetBit(data, pos, value % 2 == 1);
      PutBitsGet(first, pos + 1, size - 1, value / 2);
      PutBitsOutside(first, pos + 1, size - 1, value / 2, pos);
      SetBitReads(data, pos, value % 2 == 1, pos);
    }
  }

  lemma {:induction false} CutSmall(value: nat, size: nat)
    requires value < Pow2(size)
    ensures Cut(value, size) == value
  {
    if size > 0 {
      CutSmall(value / 2, size - 1);
    }
  }

  lemma HalfOfSum(value: int, p: int)
    ensures (value + 2 * p) / 2 == value / 2 + p && (value + 2 * p) % 2 == value % 2
  {
  }

  lemma {:induction false} CutPeriodic(value: int, size: nat)
    ensures Cut(value + Pow2(size), size) == Cut(value, size)
    decreases size
  {
    if size > 0 {
      HalfOfSum(value, Pow2(size - 1));
      CutPeriodic(value / 2, size - 1);
    }
  }

  predicate HighBit(value: int, i: nat)
    decreases i
  {
    if i == 0 then value % 2 == 1 else HighBit(value / 2, i - 1)
  }

  /** `sign_extend_hid_value`. */
  function SignExtendHidValue(value: nat, size: nat): int {
    if size == 0 || size >= 32 then AsInt32(value)
    else if HighBit(value, size - 1) then AsInt32(Cut(value, size) + (TWO32 - Pow2(size)))
    else AsInt32(value)
  }

  /** A field of this width and signedness can hold the value. */
  predicate Representable(value: int, size: nat, signed: bool)
    requires 1 <= size <= 32
  {
    if signed || size == 32 then 0 - Pow2(size - 1) <= value < Pow2(size - 1) else 0 <= value < Pow2(size)
  }

  /** A field as the firmware reads it back: sign-extended when its logical minimum is negative. */
  function Decode(raw: nat, size: nat, signed: bool): int {
    if signed then SignExtendHidValue(raw, size) else AsInt32(raw)
  }

  lemma {:induction false} HighBitIsSign(value: nat, i: nat)
    requires value < Pow2(i + 1)
    ensures HighBit(value, i) <==> value >= Pow2(i)
  {
    if i > 0 {
      HighBitIsSign(value / 2, i - 1);
    }
  }

  lemma Pow2Values()
    ensures Pow2(31) == TWO31 && Pow2(32) == TWO32
  {
    assert Pow2(8) == 0x100;
    assert Pow2(16) == 0x1_0000;
    assert Pow2(24) == 0x100_0000;
  }

  lemma {:induction false} Pow2Bound(size: nat)
    requires size < 32
    ensures 2 * Pow2(size) <= TWO32
    decreases 32 - size
  {
    Pow2Values();
    if size < 31 {
      Pow2Bound(size + 1);
    }
  }

  /** The number some bits stand for, the top one counting as a sign or not. */
  function Reading(raw: nat, size: nat, signed: bool): int {
    if signed && size >= 1 && raw >= Pow2(size - 1) then raw - Pow2(size) else raw
  }

  lemma DecodeIsReading(raw: nat, size: nat, signed: bool)
    requires 1 <= size <= 32 && raw < Pow2(size)
    ensures Decode(raw, size, signed) == Reading(raw, size, signed || size == 32)
  {
    Pow2Values();
    if size < 32 {
      Pow2Bound(size);
      HighBitIsSign(raw, size - 1);
      CutSmall(raw, size);
    }
  }

  lemma ReadingOfCut(value: int, size: nat, signed: bool)
    requires size >= 1
    ensures var p := Pow2(size - 1);
            var held := if signed then 0 - p <= value < p else 0 <= value < 2 * p;
            Reading(Cut(value, size), size, signed) == value <==> held
  {
    var p := Pow2(size - 1);
    if 0 <= value < Pow2(size) {
      CutSmall(value, size);
    } else if 0 - p <= value < 0 {
      CutPeriodic(value, size);
      CutSmall(value + Pow2(size), size);
    }
  }

  /** A number survives being written to a field and read back exactly when the field can hold it. */
  lemma FieldHolds(value: int, size: nat, signed: bool)
    requires 1 <= size <= 32
    ensures Reading(Cut(value, size), size, signed || size == 32) == value <==> Representable(value, size, signed)
  {
    ReadingOfCut(value, size, signed || size == 32);
  }

  // ---- masks ------------------------------------------------------------------------------

  /** The report's bits under a mask of the same size. */
  function Masked(data: seq<Octet>, mask: seq<Octet>): (r: seq<Octet>)
    requires |data| == |mask|
    ensures |r| == |data|
  {
    seq(|data|, i requires 0 <= i < |data| => data[i] & mask[i])
  }

  lemma WithBitMasked(b: Octet, m: Octet, a: Octet, on: bool)
    requires a & m == 0
    ensures WithBit(b, m, on) & a == b & a
  {
  }

  lemma SetBitMasked(data: seq<Octet>, mask: seq<Octet>, pos: nat, on: bool)
    requires |data| == |mask| && !BitAt(mask, pos)
    ensures Masked(SetBit(data, pos, on), mask) == Masked(data, mask)
  {
    if pos / 8 < |data| {
      WithBitMasked(data[pos / 8], BitMask(pos % 8), mask[pos / 8], on);
    }
  }

  /** Writing a field that a mask leaves out changes nothing under the mask. */
  lemma {:induction false} PutBitsMasked(data: seq<Octet>, mask: seq<Octet>, pos: nat, size: nat, value: int)
    requires |data| == |mask| && forall q :: pos <= q < pos + size ==> !BitAt(mask, q)
    ensures Masked(PutBits(data, pos, size, value), mask) == Masked(data, mask)
    decreases size
  {
    if size > 0 {
      SetBitMasked(data, mask, pos, value % 2 == 1);
      PutBitsMasked(SetBit(data, pos, value % 2 == 1), mask, pos + 1, size - 1, value / 2);
    }
  }

  lemma ClearUnderMask(b: Octet, a: Octet, i: nat)
    requires b & a == 0 && a & BitMask(i) != 0
    ensures b & BitMask(i) == 0
  {
  }

  /** A field that a mask covers is zero when nothing shows under the mask. */
  lemma {:induction false} FieldClear(data: seq<Octet>, mask: seq<Octet>, pos: nat, size: nat)
    requires |data| == |mask| && forall q :: pos <= q < pos + size ==> BitAt(mask, q)
    requires forall i :: 0 <= i < |data| ==> data[i] & mask[i] == 0
    ensures GetBits(data, pos, size) == 0
    decreases size
  {
    hide BitMask;
    if size > 0 {
      assert BitAt(mask, pos);
      ClearUnderMask(data[pos / 8], mask[pos / 8], pos % 8);
      FieldClear(data, mask, pos + 1, size - 1);
    }
  }

  lemma NothingInZero(b: Octet)
    ensures 0 & b == 0
  {
  }

  lemma {:induction false} ZerosRead(n: nat, pos: nat, size: nat)
    ensures GetBits(seq(n, _ => 0), pos, size) == 0
    decreases size
  {
    if size > 0 {
      NothingInZero(BitMask(pos % 8));
      ZerosRead(n, pos + 1, size - 1);
    }
  }

  // ---- in place -----------------------------------------------------------------------------

  method GetBit(data: array<Octet>, len: nat, bitpos: nat) returns (on: bool)
    requires len <= data.Length
    ensures on == BitAt(data[..len], bitpos)
  {
    on := bitpos / 8 < len && data[bitpos / 8] & BitMask(bitpos % 8) != 0;
  }

  lemma {:induction false} GetBitsSnoc(data: seq<Octet>, pos: nat, size: nat)
    ensures GetBits(data, pos, size + 1) == GetBits(data, pos, size)
            + (if BitAt(data, pos + size) then Pow2(size) else 0)
    decreases size
  {
    hide BitAt;
    if size > 0 {
      GetBitsSnoc(data, pos + 1, size - 1);
    }
  }

  method GetBitsOf(data: array<Octet>, len: nat, bitpos: nat, size: nat) returns (value: nat)
    requires len <= data.Length
    ensures value == GetBits(data[..len], bitpos, size)
  {
    hide BitAt;
    value := 0;
    var weight: nat := 1;
    for i := 0 to size
      invariant value == GetBits(data[..len], bitpos, i) && weight == Pow2(i)
    {
      GetBitsSnoc(data[..len], bitpos, i);
      var on := GetBit(data, len, bitpos + i);
      value := value + (if on then weight else 0);
      weight := 2 * weight;
    }
  }

  method PutBit(data: array<Octet>, len: nat, bitpos: nat, on: bool)
    requires len <= data.Length
    modifies data
    ensures data[..len] == SetBit(old(data[..len]), bitpos, on)
    ensures data[len..] == old(data[len..])
  {
    if bitpos / 8 < len {
      data[bitpos / 8] := WithBit(data[bitpos / 8], BitMask(bitpos % 8), on);
    }
  }

  /** `put_bits`, in place; bytes from `len` on are left alone. */
  method PutBitsInto(data: array<Octet>, len: nat, bitpos: nat, size: nat, value: int)
    requires len <= data.Length
    modifies data
    ensures data[..len] == PutBits(old(data[..len]), bitpos, size, value)
    ensures data[len..] == old(data[len..])
  {
    hide BitMask, WithBit, SetBitIn;
    var v := value;
    for i := 0 to size
      invariant PutBits(data[..len], bitpos + i, size - i, v) == PutBits(old(data[..len]), bitpos, size, value)
      invariant data[len..] == old(data[len..])
    {
      PutBit(data, len, bitpos + i, v % 2 == 1);
      v := v / 2;
    }
  }
}
