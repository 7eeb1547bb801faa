/** Which bits of a report a field's number is made of: the lowest bit first, in the byte and from byte to byte. */
module ReportBytes {
  import opened ReportBits

  function Weight(b: Octet, mask: Octet, weight: nat): nat {
    if b & mask != 0 then weight else 0
  }

  /** The number of a byte. */
  function Number(b: Octet): nat {
    Weight(b, 1, 1) + Weight(b, 2, 2) + Weight(b, 4, 4) + Weight(b, 8, 8)
    + Weight(b, 16, 16) + Weight(b, 32, 32) + Weight(b, 64, 64) + Weight(b, 128, 128)
  }

  lemma Place(k: nat, i: nat)
    requires i < 8
    ensures (8 * k + i) / 8 == k && (8 * k + i) % 8 == i
  {
  }

  /** Bit i of byte k, where the mask for it has weight w. */
  lemma OneWeight(data: seq<Octet>, k: nat, i: nat, pos: nat, mask: Octet, w: nat)
    requires k < |data| && i < 8 && pos == 8 * k + i && mask == [1, 2, 4, 8, 16, 32, 64, 128][i]
    ensures w * BitNumber(data, pos) == Weight(data[k], mask, w)
  {
    Place(k, i);
  }

  function BitNumber(data: seq<Octet>, pos: nat): nat {
    if BitAt(data, pos) then 1 else 0
  }

  lemma OneMore(data: seq<Octet>, pos: nat, n: nat)
    ensures GetBits(data, pos, n + 1) == BitNumber(data, pos) + 2 * GetBits(data, pos + 1, n)
  {
    hide BitAt;
  }

  lemma TwoBits(data: seq<Octet>, pos: nat)
    ensures GetBits(data, pos, 2) == BitNumber(data, pos) + 2 * BitNumber(data, pos + 1)
  {
    hide BitAt;
    OneMore(data, pos, 1);
    OneMore(data, pos + 1, 0);
  }

  lemma EightBits(data: seq<Octet>, pos: nat)
    ensures GetBits(data, pos, 8)
         == BitNumber(data, pos) + 2 * BitNumber(data, pos + 1) + 4 * BitNumber(data, pos + 2)
            + 8 * BitNumber(data, pos + 3) + 16 * BitNumber(data, pos + 4) + 32 * BitNumber(data, pos + 5)
            + 64 * BitNumber(data, pos + 6) + 128 * BitNumber(data, pos + 7)
  {
    hide GetBits, BitNumber;
    OneMore(data, pos, 7);
    OneMore(data, pos + 1, 6);
    OneMore(data, pos + 2, 5);
    OneMore(data, pos + 3, 4);
    OneMore(data, pos + 4, 3);
    OneMore(data, pos + 5, 2);
    TwoBits(data, pos + 6);
  }

  lemma ByteReadsAt(data: seq<Octet>, k: nat, pos: nat)
    requires k < |data| && pos == 8 * k
    ensures GetBits(data, pos, 8) == Number(data[k])
  {
    hide GetBits, BitNumber, Weight;
    EightBits(data, pos);
    OneWeight(data, k, 0, pos, 1, 1);
    OneWeight(data, k, 1, pos + 1, 2, 2);
    OneWeight(data, k, 2, pos + 2, 4, 4);
    OneWeight(data, k, 3, pos + 3, 8, 8);
    OneWeight(data, k, 4, pos + 4, 16, 16);
    OneWeight(data, k, 5, pos + 5, 32, 32);
    OneWeight(data, k, 6, pos + 6, 64, 64);
    OneWeight(data, k, 7, pos + 7, 128, 128);
  }

  /** The eight bits from a byte's start on are that byte. */
  lemma ByteReads(data: seq<Octet>, k: nat)
    requires k < |data|
    ensures GetBits(data, 8 * k, 8) == Number(data[k])
  {
    hide GetBits, Number;
    ByteReadsAt(data, k, 8 * k);
  }

  lemma JoinStep(whole: nat, low: nat, high: nat, bit: nat, p: nat)
    requires whole == low + p * high
    ensures bit + 2 * whole == bit + 2 * low + 2 * p * high
  {
  }

  lemma NoBits(data: seq<Octet>, pos: nat)
    ensures GetBits(data, pos, 0) == 0 && Pow2(0) == 1
  {
  }

  /** A field is made of its parts, the first one lowest. */
  lemma {:induction false} FieldsJoin(data: seq<Octet>, pos: nat, m: nat, n: nat)
    ensures GetBits(data, pos, m + n) == GetBits(data, pos, m) + Pow2(m) * GetBits(data, pos + m, n)
    decreases m
  {
    hide GetBits, BitNumber;
    if m == 0 {
      NoBits(data, pos);
    } else {
      FieldsJoin(data, pos + 1, m - 1, n);
      OneMore(data, pos, m - 1 + n);
      OneMore(data, pos, m - 1);
      var high := GetBits(data, pos + 1 + (m - 1), n);
      assert high == GetBits(data, pos + m, n);
      JoinStep(GetBits(data, pos + 1, m - 1 + n), GetBits(data, pos + 1, m - 1), high, BitNumber(data, pos),
               Pow2(m - 1));
    }
  }

  /** Bits beyond the report read as zero. */
  lemma {:induction false} NothingBeyond(data: seq<Octet>, pos: nat, size: nat)
    requires 8 * |data| <= pos
    ensures GetBits(data, pos, size) == 0
    decreases size
  {
    if size > 0 {
      NothingBeyond(data, pos + 1, size - 1);
    }
  }
}
