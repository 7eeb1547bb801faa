/** The numbers of expressions: 32-bit, in thousandths, wrapping as the hardware does. */
module ExprArithmetic {
  import opened Bytes
  import opened ExprOps

  function Wrap32(x: int): Int32 {
    (x + TWO31) % TWO32 - TWO31
  }

  /** A bitwise operation on the lowest n bits. */
  function EachBit(op: (bool, bool) -> bool, a: nat, b: nat, n: nat): nat
    decreases n
  {
    if n == 0 then 0 else (if op(a % 2 == 1, b % 2 == 1) then 1 else 0) + 2 * EachBit(op, a / 2, b / 2, n - 1)
  }

  /** Floating-point operations, left uninterpreted. */
  datatype Floats = Floats(
    sin: Int32 -> Int32, cos: Int32 -> Int32, sqrt: Int32 -> Int32, atan2: (Int32, Int32) -> Int32,
    fp32: Int32 -> Int32, deadzone: (Int32, Int32, Int32) -> (Int32, Int32),
    deadzone2: (Int32, Int32, Int32, Int32) -> (Int32, Int32))

  function Truth(b: bool): Int32 {
    if b then 1000 else 0
  }

  function UnaryValue(f: Floats, op: OpCode, a: Int32): Int32 {
    var x: int := a;
    if op == NOT then Truth(a == 0)
    else if op == ABS then Wrap32(if x < 0 then -x else x)
    else if op == SIN then f.sin(a)
    else if op == COS then f.cos(a)
    else if op == RELU then if a < 0 then 0 else a
    else if op == BITWISE_NOT then Wrap32(-x - 1)
    else if op == SQRT then if a >= 0 then f.sqrt(a) else a
    else if op == ROUND then
      var b := Wrap32(x + 500);
      Wrap32(b - Remainder(Remainder(b, 1000) + 1000, 1000))
    else if a > 0 then 1000 else if a < 0 then -1000 else 0
  }

  function BinaryValue(f: Floats, op: OpCode, a: Int32, b: Int32): Int32 {
    var x: int, y: int := a, b;
    if op == ADD then Wrap32(x + y)
    else if op == SUB then Wrap32(x - y)
    else if op == MUL then Wrap32(Quotient(x * y, 1000))
    else if op == DIV then if b == 0 then 0 else Wrap32(Quotient(1000 * x, y))
    else if op == MOD then if b == 0 then 0 else Wrap32(Remainder(x, y))
    else if op == EQ then Truth(a == b)
    else if op == GT then Truth(a > b)
    else if op == LT then Truth(a < b)
    else if op == MIN then if a < b then a else b
    else if op == MAX then if a > b then a else b
    else if op == BITWISE_OR then Wrap32(EachBit((p, q) => p || q, Unsigned32(a), Unsigned32(b), 32))
    else if op == BITWISE_AND then Wrap32(EachBit((p, q) => p && q, Unsigned32(a), Unsigned32(b), 32))
    else f.atan2(a, b)
  }

  function ClampValue(a: Int32, low: Int32, high: Int32): Int32 {
    var raised := if a < low then low else a;
    if raised > high then high else raised
  }

  const DPAD_TABLE: seq<int> := [8, 6, 2, 8, 0, 7, 1, 0, 4, 5, 3, 4, 8, 6, 2, 8]

  function Bit(b: Int32, weight: nat): nat {
    if b != 0 then weight else 0
  }

  function DpadValue(left: Int32, right: Int32, up: Int32, down: Int32): Int32 {
    var index := Bit(left, 1) + Bit(right, 2) + Bit(up, 4) + Bit(down, 8);
    assert forall i :: 0 <= i < 16 ==> 0 <= DPAD_TABLE[i] <= 8;
    1000 * DPAD_TABLE[index]
  }

  /** What the evaluator computes with. */
  datatype Alu = Alu(
    unary: (OpCode, Int32) -> Int32, binary: (OpCode, Int32, Int32) -> Int32, fp32: Int32 -> Int32,
    deadzone: (Int32, Int32, Int32) -> (Int32, Int32), deadzone2: (Int32, Int32, Int32, Int32) -> (Int32, Int32))

  function AluOf(f: Floats): Alu {
    Alu((op, a) => UnaryValue(f, op, a), (op, a, b) => BinaryValue(f, op, a, b), f.fp32, f.deadzone, f.deadzone2)
  }

  /** Wrapping keeps a number modulo 2^32, and keeps it altogether exactly when it fits. */
  lemma WrapKeeps(x: int)
    ensures (Wrap32(x) - x) % TWO32 == 0
    ensures Wrap32(x) == x <==> -TWO31 <= x < TWO31
  {
    var q := (x + TWO31) / TWO32;
    assert Wrap32(x) - x == -q * TWO32;
  }

  lemma RemainderOfPositive(b: int, m: int)
    requires b >= 0 && m > 0
    ensures Remainder(b, m) == b % m
  {
  }

  lemma RemainderOfNegative(b: int, m: int)
    requires b < 0 && m > 0
    ensures Remainder(b, m) == -(-b % m)
  {
  }

  lemma FlooredRemainder(b: int)
    ensures Remainder(Remainder(b, 1000) + 1000, 1000) == b % 1000
  {
    if b >= 0 {
      RemainderOfPositive(b, 1000);
    } else {
      RemainderOfNegative(b, 1000);
    }
    RemainderOfPositive(Remainder(b, 1000) + 1000, 1000);
  }

  lemma RoundFormula(f: Floats, a: Int32)
    ensures var b: int := Wrap32(a as int + 500); UnaryValue(f, ROUND, a) == Wrap32(b - b % 1000)
  {
    FlooredRemainder(Wrap32(a as int + 500));
  }

  lemma WholeBelow(b: int) returns (c: int)
    ensures c == b - b % 1000 && c % 1000 == 0 && c <= b < c + 1000
    ensures b >= -2147483000 ==> c >= -2147483000
    ensures -TWO31 <= b < -2147483000 ==> c == -2147484000
  {
    c := b - b % 1000;
  }

  /** ROUND gives the nearest whole number, in thousandths, exactly when neither that number nor the half unit added
      on the way leaves the 32-bit range. */
  lemma RoundsToNearest(f: Floats, a: Int32)
    ensures var r: int := AluOf(f).unary(ROUND, a);
            r % 1000 == 0 && r - 500 <= a < r + 500 <==> -2147483500 <= a < TWO31 - 500
  {
    RoundFormula(f, a);
    var b: int := Wrap32(a as int + 500);
    WrapKeeps(a as int + 500);
    var c := WholeBelow(b);
    WrapKeeps(c);
    if c == -2147484000 {
      assert Wrap32(c) == 2147483296;
    }
  }
}
