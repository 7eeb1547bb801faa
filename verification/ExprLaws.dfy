/** What the operations of an expression compute: in terms of states, stack and arithmetic laws alone. Operations are
    written as the numbers that configurations hold. */
module ExprLaws {
  import opened Bytes
  import opened ExprOps
  import opened ExprArithmetic
  import opened ExprEval
  import opened ExprRun

  /** A machine and a stack that an element finds, no slot being remembered. */
  ghost predicate Ready(env: Env, m: Machine, stack: seq<Int32>) {
    EnvOk(env) && MachineOk(m) && |stack| <= 16
  }

  // ---- states ---------------------------------------------------------------------------------------

  /** The element puts v in place of the address, by way of this slot, looked up or remembered. */
  ghost predicate Reads(env: Env, m: Machine, below: seq<Int32>, a: Int32, op: OpCode, v: Int32, slot: nat)
    requires Ready(env, m, below + [a]) && slot < 1024
  {
    forall w, cache :: cache == None || cache == Some(slot) ==>
      Exec(env, m, below + [a], Elem(op, w), cache) == Running(m, below + [v], Some(slot))
  }

  lemma StaysOnStack(n: nat, op: OpCode)
    requires 0 < n <= 16 && Known(op) && ReadsState(op)
    ensures !LeavesStack(n, op)
  {
  }

  lemma OneRead(env: Env, m: Machine, below: seq<Int32>, a: Int32, op: OpCode, slot: nat)
    requires Ready(env, m, below + [a]) && Known(op) && ReadsState(op)
    requires KeyFor(m, op, a) in m.slots && m.slots[KeyFor(m, op, a)] == slot
    ensures Reads(env, m, below, a, op, StateValue(env, m.input, op, Some(slot), a), slot)
  {
    hide Exec, StateValue, LeavesStack;
    var s := below + [a];
    assert s[..|s| - 1] == below && s[|s| - 1] == a;
    StaysOnStack(|s|, op);
    forall w, cache | cache == None || cache == Some(slot)
      ensures Exec(env, m, s, Elem(op, w), cache)
              == Running(m, below + [StateValue(env, m.input, op, Some(slot), a)], Some(slot))
    {
      ExecReads(env, m, s, Elem(op, w), cache);
    }
  }

  /** The unscaled states: of the usage that the address names, at the current port, as it came from the device. In
      order: now, in the frame before, and each of them taken for a floating-point number. */
  lemma RawStates(env: Env, m: Machine, below: seq<Int32>, a: Int32, slot: nat)
    requires Ready(env, m, below + [a])
    requires var key := Key(a as int % 0x1_0000_0000, m.port, true); key in m.slots && m.slots[key] == slot
    ensures Reads(env, m, below, a, 2, Wrap32(1000 * m.input[slot] as int), slot)
    ensures Reads(env, m, below, a, 27, Wrap32(1000 * m.input[slot + 1024] as int), slot)
    ensures Reads(env, m, below, a, 37, env.alu.fp32(m.input[slot]), slot)
    ensures Reads(env, m, below, a, 38, env.alu.fp32(m.input[slot + 1024]), slot)
  {
    hide Reads, Wrap32;
    OneRead(env, m, below, a, 2, slot);
    OneRead(env, m, below, a, 27, slot);
    OneRead(env, m, below, a, 37, slot);
    OneRead(env, m, below, a, 38, slot);
  }

  /** The states as mapped: now and in the frame before, whether they differ from zero then, and the sticky, tap and
      hold states of the usage. */
  lemma MappedStates(env: Env, m: Machine, below: seq<Int32>, a: Int32, slot: nat)
    requires Ready(env, m, below + [a])
    requires var key := Key(a as int % 0x1_0000_0000, m.port, false); key in m.slots && m.slots[key] == slot
    ensures Reads(env, m, below, a, 51, Wrap32(1000 * m.input[slot] as int), slot)
    ensures Reads(env, m, below, a, 52, Wrap32(1000 * m.input[slot + 1024] as int), slot)
    ensures Reads(env, m, below, a, 10, if m.input[slot] == 0 then 0 else 1000, slot)
    ensures Reads(env, m, below, a, 28, if m.input[slot + 1024] == 0 then 0 else 1000, slot)
    ensures Reads(env, m, below, a, 21, env.sticky[slot], slot)
    ensures Reads(env, m, below, a, 22, if env.tapHold[slot].tap then 1000 else 0, slot)
    ensures Reads(env, m, below, a, 23, if env.tapHold[slot].hold then 1000 else 0, slot)
  {
    hide Reads, Wrap32;
    OneRead(env, m, below, a, 51, slot);
    OneRead(env, m, below, a, 52, slot);
    OneRead(env, m, below, a, 10, slot);
    OneRead(env, m, below, a, 28, slot);
    OneRead(env, m, below, a, 21, slot);
    OneRead(env, m, below, a, 22, slot);
    OneRead(env, m, below, a, 23, slot);
  }

  /** A usage looked up for the first time gets the next of the 1024 slots; when there is none left, its state is zero,
      and sticky, tap and hold leave the address where it is. */
  lemma UnknownUsage(env: Env, m: Machine, below: seq<Int32>, a: Int32, e: Elem)
    requires Ready(env, m, below + [a]) && e.op in {2, 10, 21, 22, 23, 27, 28, 37, 38, 51, 52}
    requires Key(a as int % 0x1_0000_0000, m.port, e.op in {2, 27, 37, 38}) !in m.slots
    ensures var key, r := Key(a as int % 0x1_0000_0000, m.port, e.op in {2, 27, 37, 38}),
                          Exec(env, m, below + [a], e, None);
            if m.used < 1024 then
              r == Exec(env, m.(slots := m.slots[key := m.used], used := m.used + 1), below + [a], e, None)
            else r == Running(m, below + [if e.op in {21, 22, 23} then a else 0], None)
  {
    hide Exec, LeavesStack;
    var s, key := below + [a], Key(a as int % 0x1_0000_0000, m.port, e.op in {2, 27, 37, 38});
    assert s[..|s| - 1] == below && s[|s| - 1] == a;
    StaysOnStack(|s|, e.op);
    ExecReads(env, m, s, e, None);
    if m.used < 1024 {
      ExecReads(env, m.(slots := m.slots[key := m.used], used := m.used + 1), s, e, None);
    }
  }

  // ---- numbers, the stack, registers and the port -----------------------------------------------------

  /** The element leaves this stack, and changes the machine only so. */
  ghost predicate Acts(env: Env, m: Machine, stack: seq<Int32>, op: OpCode, m': Machine, after: seq<Int32>)
    requires Ready(env, m, stack)
  {
    forall v, cache :: CacheOk(cache) ==> Exec(env, m, stack, Elem(op, v), cache) == Running(m', after, cache)
  }

  ghost predicate Pushes(env: Env, m: Machine, stack: seq<Int32>, op: OpCode, value: Int32)
    requires Ready(env, m, stack)
  {
    Acts(env, m, stack, op, m, stack + [value])
  }

  lemma OnePush(env: Env, m: Machine, s: seq<Int32>, op: OpCode)
    requires Ready(env, m, s) && |s| < 16 && PushesNumber(op)
    ensures Pushes(env, m, s, op, Number(env, m.port, op))
  {
    hide Number;
    forall v, cache | CacheOk(cache)
      ensures Exec(env, m, s, Elem(op, v), cache) == Running(m, s + [Number(env, m.port, op)], cache)
    {
      ExecActs(env, m, s, Elem(op, v), cache);
      NumberPushed(env, m, op, s);
    }
  }

  /** Literals and usages, whether the mapping runs for auto-repeat, scaling, the layers, the frame number in
      thousandths and in units, both without their sign, and whether anything is plugged in at the current port. */
  lemma Numbers(env: Env, m: Machine, s: seq<Int32>)
    requires Ready(env, m, s) && |s| < 16
    ensures forall v: Uint32, cache {:trigger Exec(env, m, s, Elem(0, v), cache)} :: CacheOk(cache) ==>
              Exec(env, m, s, Elem(0, v), cache)
              == Running(m, s + [if v < 0x8000_0000 then v else v - 0x1_0000_0000], cache)
    ensures forall v: Uint32, cache {:trigger Exec(env, m, s, Elem(1, v), cache)} :: CacheOk(cache) ==>
              Exec(env, m, s, Elem(1, v), cache)
              == Running(m, s + [if v < 0x8000_0000 then v else v - 0x1_0000_0000], cache)
    ensures Pushes(env, m, s, 16, if env.autoRepeat then 1000 else 0)
    ensures Pushes(env, m, s, 19, 1000)
    ensures Pushes(env, m, s, 20, env.layers)
    ensures Pushes(env, m, s, 6, 1000 * env.now % 0x8000_0000)
    ensures Pushes(env, m, s, 48, env.now % 0x8000_0000)
    ensures Pushes(env, m, s, 50, if m.port == 0 || m.port in env.activePorts then 1000 else 0)
  {
    hide Pushes;
    OnePush(env, m, s, 16);
    OnePush(env, m, s, 19);
    OnePush(env, m, s, 20);
    OnePush(env, m, s, 6);
    OnePush(env, m, s, 48);
    OnePush(env, m, s, 50);
  }

  lemma OneUnary(env: Env, m: Machine, below: seq<Int32>, a: Int32, op: OpCode)
    requires Ready(env, m, below + [a]) && Unary(op)
    ensures Acts(env, m, below + [a], op, m, below + [UnaryResult(env, m, op, a)])
  {
    hide UnaryResult;
    var s := below + [a];
    assert s[..|s| - 1] == below && s[|s| - 1] == a;
    forall v, cache | CacheOk(cache)
      ensures Exec(env, m, s, Elem(op, v), cache) == Running(m, below + [UnaryResult(env, m, op, a)], cache)
    {
      ActsOnly(env, m, s, op, v, cache);
      UnaryRewritten(env, m, op, s);
    }
  }

  /** What an element that neither pushes nor reads a state does, when the stack suffices. */
  lemma ActsOnly(env: Env, m: Machine, s: seq<Int32>, op: OpCode, v: Uint32, cache: Option<nat>)
    requires Ready(env, m, s) && CacheOk(cache) && Known(op) && !PushesLiteral(op) && !ReadsState(op)
    requires |s| >= ArityOf(op).takes && |s| + ArityOf(op).gives <= 16 + ArityOf(op).takes
    requires op == 7 ==> s[|s| - 1] != 0
    ensures Exec(env, m, s, Elem(op, v), cache)
         == Running(Effect(env, m, op, s[|s| - ArityOf(op).takes..]), Rewritten(env, m, op, s), cache)
    ensures op != 29 && op != 34 && op != 44 ==> Effect(env, m, op, s[|s| - ArityOf(op).takes..]) == m
  {
    hide Rewritten, LeavesStack;
    RuleIsExact(|s|, op);
    if op == 7 {
      assert s[|s| - 2..][1] == s[|s| - 1];
    }
  }

  lemma OneBinary(env: Env, m: Machine, below: seq<Int32>, a: Int32, b: Int32, op: OpCode)
    requires Ready(env, m, below + [a, b]) && Binary(op) && (op == 7 ==> b != 0)
    ensures Acts(env, m, below + [a, b], op, m, below + [env.alu.binary(op, a, b)])
  {
    var s := below + [a, b];
    assert s[..|s| - 2] == below && s[|s| - 2] == a && s[|s| - 1] == b;
    forall v, cache | CacheOk(cache)
      ensures Exec(env, m, s, Elem(op, v), cache) == Running(m, below + [env.alu.binary(op, a, b)], cache)
    {
      ActsOnly(env, m, s, op, v, cache);
      BinaryRewritten(env, m, op, s);
    }
  }

  /** Operations of one operand replace the top of the stack, and those of two - the deeper one is the first - the two
      top ones. */
  lemma Operands(env: Env, m: Machine, below: seq<Int32>, a: Int32, b: Int32, op: OpCode)
    requires Ready(env, m, below + [a, b])
    ensures op in {9, 11, 13, 14, 17, 26, 31, 33, 45} ==>
              Acts(env, m, below + [a, b], op, m, below + [a] + [env.alu.unary(op, b)])
    ensures op in {3, 4, 5, 8, 24, 25, 32, 39, 40, 42, 46, 49} || (op == 7 && b != 0) ==>
              Acts(env, m, below + [a, b], op, m, below + [env.alu.binary(op, a, b)])
  {
    hide Acts;
    if op in {9, 11, 13, 14, 17, 26, 31, 33, 45} {
      assert below + [a, b] == below + [a] + [b];
      OneUnary(env, m, below + [a], b, op);
    } else if op in {3, 4, 5, 7, 8, 24, 25, 32, 39, 40, 42, 46, 49} && (op == 7 ==> b != 0) {
      OneBinary(env, m, below, a, b, op);
    }
  }

  lemma OneOther(env: Env, m: Machine, s: seq<Int32>, op: OpCode)
    requires Ready(env, m, s) && Known(op) && !PushesLiteral(op) && !ReadsState(op) && op != 7
    requires |s| >= ArityOf(op).takes && |s| + ArityOf(op).gives <= 16 + ArityOf(op).takes
    ensures Acts(env, m, s, op, Effect(env, m, op, s[|s| - ArityOf(op).takes..]), Rewritten(env, m, op, s))
    ensures op != 29 && op != 34 && op != 44 ==> Acts(env, m, s, op, m, Rewritten(env, m, op, s))
  {
    hide Exec, Effect, Rewritten;
    forall v, cache | CacheOk(cache)
      ensures Exec(env, m, s, Elem(op, v), cache)
           == Running(Effect(env, m, op, s[|s| - ArityOf(op).takes..]), Rewritten(env, m, op, s), cache)
      ensures op != 29 && op != 34 && op != 44 ==> Effect(env, m, op, s[|s| - ArityOf(op).takes..]) == m
    {
      ActsOnly(env, m, s, op, v, cache);
    }
  }

  /** DEBUG, the end of a line and printing: what stays on the stack. */
  lemma QuietOperations(env: Env, m: Machine, s: seq<Int32>)
    requires Ready(env, m, s)
    ensures Acts(env, m, s, 15, m, s) && Acts(env, m, s, 36, m, s)
    ensures |s| >= 2 ==> Acts(env, m, s, 47, m, s[..|s| - 2])
  {
    hide Acts, Rewritten, Effect;
    assert s[..|s|] == s;
    OneOther(env, m, s, 15);
    OneOther(env, m, s, 36);
    NothingRewritten(env, m, 15, s);
    NothingRewritten(env, m, 36, s);
    if |s| >= 2 {
      OneOther(env, m, s, 47);
      NothingRewritten(env, m, 47, s);
    }
  }

  /** Duplicating and exchanging. */
  lemma StackOperations(env: Env, m: Machine, below: seq<Int32>, a: Int32, b: Int32)
    requires Ready(env, m, below + [a, b])
    ensures |below| < 14 ==> Acts(env, m, below + [a, b], 12, m, below + [a, b, b])
    ensures Acts(env, m, below + [a, b], 43, m, below + [b, a])
  {
    hide Acts, Rewritten, Effect;
    var s := below + [a, b];
    assert s[..|s| - 2] == below && s[|s| - 2] == a && s[|s| - 1] == b;
    TwoRewritten(env, m, s);
    if |below| < 14 {
      assert s + [b] == below + [a, b, b];
      OneOther(env, m, s, 12);
    }
    OneOther(env, m, s, 43);
  }

  /** The number within the limits that is nearest to x; the upper limit when they are the wrong way round. */
  ghost predicate Limited(v: Int32, x: Int32, low: Int32, high: Int32) {
    && v <= high && v in {x, low, high}
    && (low <= high ==> low <= v && (low <= x <= high ==> v == x) && (x < low ==> v == low) && (high < x ==> v == high))
    && (high < low ==> v == high)
  }

  /** Choosing: any number but zero is true; and limiting. */
  lemma Choices(env: Env, m: Machine, below: seq<Int32>, a: Int32, b: Int32, c: Int32)
    requires Ready(env, m, below + [a, b, c])
    ensures Acts(env, m, below + [a, b, c], 41, m, below + [if a == 0 then c else b])
    ensures exists v {:trigger Limited(v, a, b, c)} ::
              Limited(v, a, b, c) && Acts(env, m, below + [a, b, c], 18, m, below + [v])
  {
    hide Acts, Rewritten, Effect;
    var s := below + [a, b, c];
    assert s[..|s| - 3] == below && s[|s| - 3] == a && s[|s| - 2] == b && s[|s| - 1] == c;
    ThreeRewritten(env, m, s);
    OneOther(env, m, s, 41);
    OneOther(env, m, s, 18);
    assert Limited(ClampValue(a, b, c), a, b, c);
  }

  /** The directions of a d-pad as a hat switch has them, clockwise from up; opposite ones cancel. */
  ghost predicate Points(hat: int, left: bool, right: bool, up: bool, down: bool) {
    var x, y := (if right then 1 else 0) - (if left then 1 else 0), (if up then 1 else 0) - (if down then 1 else 0);
    && 0 <= hat <= 8
    && (hat in {1, 2, 3} <==> x == 1) && (hat in {5, 6, 7} <==> x == -1)
    && (hat in {7, 0, 1} <==> y == 1) && (hat in {3, 4, 5} <==> y == -1)
  }

  lemma DpadPoints(a: Int32, b: Int32, c: Int32, d: Int32)
    ensures exists hat {:trigger Points(hat, a != 0, b != 0, c != 0, d != 0)} ::
              Points(hat, a != 0, b != 0, c != 0, d != 0) && DpadValue(a, b, c, d) == 1000 * hat
  {
    var index := Bit(a, 1) + Bit(b, 2) + Bit(c, 4) + Bit(d, 8);
    assert Points(DPAD_TABLE[index], a != 0, b != 0, c != 0, d != 0);
  }

  /** Left, right, up and down, from the deepest. */
  lemma Directions(env: Env, m: Machine, below: seq<Int32>, a: Int32, b: Int32, c: Int32, d: Int32)
    requires Ready(env, m, below + [a, b, c, d])
    ensures exists hat {:trigger Points(hat, a != 0, b != 0, c != 0, d != 0)} ::
              Points(hat, a != 0, b != 0, c != 0, d != 0)
              && Acts(env, m, below + [a, b, c, d], 35, m, below + [1000 * hat])
  {
    hide Acts, Rewritten, Effect, DpadValue, Points;
    var s := below + [a, b, c, d];
    assert s[..|s| - 4] == below && s[|s| - 4] == a && s[|s| - 3] == b && s[|s| - 2] == c && s[|s| - 1] == d;
    DpadRewritten(env, m, s);
    OneOther(env, m, s, 35);
    DpadPoints(a, b, c, d);
  }

  /** C's division: q times d, and a rest smaller than d on the side of n. */
  ghost predicate IsQuotient(q: int, n: int, d: int) {
    var rest := n - q * d;
    (if d < 0 then d else -d) < rest < (if d < 0 then -d else d) && (n >= 0 ==> rest >= 0) && (n <= 0 ==> rest <= 0)
  }

  lemma DivisionBounds(p: nat, q: nat)
    requires q > 0
    ensures 0 <= p / q * q <= p < p / q * q + q
  {
  }

  lemma RestLaw(quotient: int, n: int, d: int, product: int)
    requires quotient * d == if n < 0 then -product else product
    requires 0 <= product <= (if n < 0 then -n else n) < product + if d < 0 then -d else d
    ensures IsQuotient(quotient, n, d)
  {
  }

  lemma QuotientLaw(n: int, d: int)
    requires d != 0
    ensures IsQuotient(Quotient(n, d), n, d) && Remainder(n, d) == n - Quotient(n, d) * d
  {
    hide IsQuotient;
    var p, q := if n < 0 then -n else n, if d < 0 then -d else d;
    var k := p / q;
    DivisionBounds(p, q);
    SameProduct(k, d, q);
    assert Quotient(n, d) == if (n < 0) == (d < 0) then k else -k;
    RestLaw(Quotient(n, d), n, d, k * q);
  }

  lemma SameProduct(x: int, d: int, q: int)
    requires q == d || q == -d
    ensures x * d == if q == d then x * q else -(x * q)
    ensures -x * d == if q == d then -(x * q) else x * q
  {
  }

  lemma RegisterLaw(n: Int32, i: nat)
    requires i < 32
    ensures RegisterNumber(n) == i <==> 1000 * (i + 1) <= n < 1000 * (i + 2)
  {
    QuotientLaw(n, 1000);
  }

  lemma NoRegisterLaw(n: Int32)
    ensures 0 <= RegisterNumber(n) < 32 <==> 1000 <= n < 33000
  {
    QuotientLaw(n, 1000);
  }

  lemma Stored(env: Env, m: Machine, below: seq<Int32>, value: Int32, n: Int32)
    requires Ready(env, m, below + [value, n])
    ensures Acts(env, m, below + [value, n], 29, StoreValue(m, n, value), below)
  {
    hide Acts, Rewritten, Effect, StoreValue;
    var s := below + [value, n];
    assert s[..|s| - 2] == below && s[|s| - 2] == value && s[|s| - 1] == n;
    OneOther(env, m, s, 29);
    TwoTaken(env, m, 29, s);
  }

  lemma Recalled(env: Env, m: Machine, below: seq<Int32>, value: Int32, n: Int32)
    requires Ready(env, m, below + [value, n])
    ensures Acts(env, m, below + [value, n], 30, m, below + [value, UnaryResult(env, m, 30, n)])
  {
    hide Acts, UnaryResult;
    assert below + [value, n] == below + [value] + [n];
    OneUnary(env, m, below + [value], n, 30);
    assert below + [value] + [UnaryResult(env, m, 30, n)] == below + [value, UnaryResult(env, m, 30, n)];
  }

  predicate NamesRegister(n: Int32, i: int) {
    0 <= i < 32 && 1000 * (i + 1) <= n < 1000 * (i + 2)
  }

  /** Registers are numbered from one, in thousandths: storing leaves the value there and nowhere else, and recalling
      puts it in place of the number. A number without a register stores nothing, and stays when recalled. */
  lemma Registers(env: Env, m: Machine, below: seq<Int32>, value: Int32, n: Int32)
    requires Ready(env, m, below + [value, n])
    ensures forall i :: NamesRegister(n, i) ==>
              && Acts(env, m, below + [value, n], 29, m.(registers := m.registers[i := value]), below)
              && Acts(env, m, below + [value, n], 30, m, below + [value, m.registers[i]])
    ensures !(1000 <= n < 33000) ==>
              && Acts(env, m, below + [value, n], 29, m, below)
              && Acts(env, m, below + [value, n], 30, m, below + [value, n])
  {
    hide Acts, RegisterNumber;
    NoRegisterLaw(n);
    Stored(env, m, below, value, n);
    Recalled(env, m, below, value, n);
    forall i | NamesRegister(n, i)
      ensures Acts(env, m, below + [value, n], 29, m.(registers := m.registers[i := value]), below)
      ensures Acts(env, m, below + [value, n], 30, m, below + [value, m.registers[i]])
    {
      RegisterLaw(n, i);
    }
  }

  /** A port is given in thousandths; its whole part is kept in a byte, and one beyond 15 means any port. */
  lemma PortSet(env: Env, m: Machine, below: seq<Int32>, n: Int32)
    requires Ready(env, m, below + [n])
    ensures exists q {:trigger IsQuotient(q, n, 1000)} :: IsQuotient(q, n, 1000) &&
              Acts(env, m, below + [n], 34, m.(port := if q % 256 <= 15 then q % 256 else 0), below)
  {
    hide Acts, Rewritten, Effect;
    var s := below + [n];
    assert s[..|s| - 1] == below && s[|s| - 1] == n;
    QuotientLaw(n, 1000);
    OneOther(env, m, s, 34);
    OneTaken(env, m, s);
  }

  /** The monitor is told a value, and for which usage, when it is on and the value is another than the last, which is
      zero at first. */
  lemma Monitoring(env: Env, m: Machine, below: seq<Int32>, value: Int32, usage: Int32)
    requires Ready(env, m, below + [value, usage])
    ensures var told := env.monitoring && value != (if usage in m.monitored then m.monitored[usage] else 0);
            Acts(env, m, below + [value, usage], 44,
                 if told then m.(monitored := m.monitored[usage := value], log := m.log + [(usage, value)]) else m,
                 below)
  {
    hide Acts, Rewritten, Effect;
    var s := below + [value, usage];
    assert s[..|s| - 2] == below && s[|s| - 2] == value && s[|s| - 1] == usage;
    OneOther(env, m, s, 44);
    TwoTaken(env, m, 44, s);
  }

  // ---- arithmetic -------------------------------------------------------------------------------------

  lemma Wrapped(x: Int32, z: int)
    requires (z - x) % 0x1_0000_0000 == 0
    ensures Wrap32(z) == x
  {
    var q := (z - x) / 0x1_0000_0000;
    assert z - x == q * 0x1_0000_0000;
    assert (z + TWO31) % TWO32 == x + TWO31;
  }

  lemma BinaryOf(f: Floats, a: Int32, b: Int32)
    ensures var x: int, y: int := a, b;
            var alu := AluOf(f).binary;
            && alu(3, a, b) == Wrap32(x + y) && alu(46, a, b) == Wrap32(x - y)
            && alu(4, a, b) == Wrap32(Quotient(x * y, 1000))
            && alu(42, a, b) == (if b == 0 then 0 else Wrap32(Quotient(1000 * x, y)))
            && alu(7, a, b) == (if b == 0 then 0 else Wrap32(Remainder(x, y)))
  {
  }

  lemma WrapUndone(x: Int32, y: int)
    ensures Wrap32(Wrap32(x + y) - y) == x
  {
    WrapKeeps(x + y);
    hide Wrap32;
    Wrapped(x, Wrap32(x + y) - y);
  }

  /** Adding is adding, modulo 2^32, and subtracting undoes it and is undone by it. */
  lemma SumsAndDifferences(f: Floats, a: Int32, b: Int32)
    ensures var alu := AluOf(f).binary;
            && (alu(3, a, b) - (a as int + b)) % 0x1_0000_0000 == 0
            && alu(3, alu(46, a, b), b) == a && alu(46, alu(3, a, b), b) == a
  {
    hide Wrap32, AluOf;
    var x: int, y: int := a, b;
    WrapKeeps(x + y);
    WrapUndone(a, y);
    WrapUndone(a, -y);
    BinaryOf(f, a, b);
    BinaryOf(f, Wrap32(x - y), b);
    BinaryOf(f, Wrap32(x + y), b);
  }

  /** Products and quotients of thousandths are cut towards zero, and then to 32 bits; by zero gives zero. MOD is the
      rest of that division, on the side of its first operand. */
  lemma ProductsAndQuotients(f: Floats, a: Int32, b: Int32)
    ensures exists q {:trigger IsQuotient(q, a as int * b, 1000)} ::
              IsQuotient(q, a as int * b, 1000) && AluOf(f).binary(4, a, b) == Wrap32(q)
    ensures b != 0 ==> exists q {:trigger IsQuotient(q, 1000 * a as int, b)} ::
              IsQuotient(q, 1000 * a as int, b) && AluOf(f).binary(42, a, b) == Wrap32(q)
    ensures AluOf(f).binary(42, a, 0) == 0
    ensures b != 0 ==> exists q {:trigger IsQuotient(q, a, b)} ::
              IsQuotient(q, a, b) && AluOf(f).binary(7, a, b) == a as int - q * b
  {
    hide Wrap32, AluOf, Quotient, Remainder, IsQuotient;
    var x: int, y: int := a, b;
    BinaryOf(f, a, b);
    BinaryOf(f, a, 0);
    QuotientLaw(x * y, 1000);
    if y != 0 {
      QuotientLaw(1000 * x, y);
      QuotientLaw(x, y);
      RestFits(x, y);
    }
  }

  lemma RestFits(x: int, y: Int32)
    requires y != 0
    ensures Wrap32(Remainder(x, y)) == Remainder(x, y)
  {
    hide Wrap32;
    QuotientLaw(x, y);
    RestIsSmall(Quotient(x, y), x, y);
    WrapKeeps(Remainder(x, y));
  }

  lemma RestIsSmall(q: int, x: int, y: Int32)
    requires IsQuotient(q, x, y)
    ensures -0x8000_0000 <= x - q * y < 0x8000_0000
  {
  }

  /** Comparisons give 1000 or 0; greater and less are mirror images, and with equal they are the three cases. The
      lesser and the greater of two numbers are bounds, and one of the two. */
  lemma Comparisons(f: Floats, a: Int32, b: Int32)
    ensures var alu := AluOf(f).binary;
            && alu(5, a, b) + alu(8, a, b) + alu(49, a, b) == 1000
            && alu(8, a, b) == alu(49, b, a)
            && (alu(5, a, b) == 1000 <==> a == b) && (alu(8, a, b) == 1000 <==> b < a)
            && alu(5, a, b) in {0, 1000} && alu(8, a, b) in {0, 1000}
            && alu(39, a, b) in {a, b} && alu(39, a, b) <= a && alu(39, a, b) <= b
            && alu(40, a, b) in {a, b} && a <= alu(40, a, b) && b <= alu(40, a, b)
  {
  }

  /** Of one operand: not, the absolute value (that of the least number is itself), the positive part and the sign. */
  lemma SignsAndParts(f: Floats, a: Int32)
    ensures var alu := AluOf(f).unary;
            && alu(9, a) == (if a == 0 then 1000 else 0)
            && alu(11, a) == (if a >= 0 || a == -0x8000_0000 then a else -a)
            && (if a >= 0 then alu(17, a) == a else alu(17, a) == 0)
            && (if a > 0 then alu(45, a) == 1000 else if a == 0 then alu(45, a) == 0 else alu(45, a) == -1000)
  {
  }

  /** The floating-point operations get their operands in the order of the stack; the root of a negative number is
      itself. */
  lemma FloatOperands(f: Floats, a: Int32, b: Int32)
    ensures AluOf(f).unary(13, a) == f.sin(a) && AluOf(f).unary(14, a) == f.cos(a)
    ensures AluOf(f).unary(31, a) == (if a < 0 then a else f.sqrt(a)) && AluOf(f).binary(32, a, b) == f.atan2(a, b)
    ensures AluOf(f).fp32 == f.fp32 && AluOf(f).deadzone == f.deadzone && AluOf(f).deadzone2 == f.deadzone2
  {
  }

  // Bits.

  /** Bit i of a number in two's complement. */
  predicate BitOf(x: int, i: nat)
    decreases i
  {
    if i == 0 then x % 2 == 1 else BitOf(x / 2, i - 1)
  }

  function Pow2(n: nat): (p: nat)
    ensures p >= 1
  {
    if n == 0 then 1 else 2 * Pow2(n - 1)
  }

  lemma HalfOf(x: int, z: int)
    ensures (x + 2 * z) / 2 == x / 2 + z && (x + 2 * z) % 2 == x % 2
  {
  }

  /** Bits below n do not see multiples of 2^n. */
  lemma {:induction false} BitsBelow(x: int, q: int, n: nat, i: nat)
    requires i < n
    ensures BitOf(x + q * Pow2(n), i) == BitOf(x, i)
    decreases n
  {
    TwiceProduct(q, Pow2(n - 1));
    HalfOf(x, q * Pow2(n - 1));
    if i > 0 {
      BitsBelow(x / 2, q, n - 1, i - 1);
    }
  }

  lemma TwiceProduct(q: int, p: int)
    ensures q * (2 * p) == 2 * (q * p)
  {
  }

  lemma Pow32()
    ensures Pow2(32) == 0x1_0000_0000
  {
    assert Pow2(8) == 0x100;
    assert Pow2(16) == 0x1_0000;
    assert Pow2(24) == 0x100_0000;
  }

  /** Numbers that are the same modulo 2^32 have the same 32 bits. */
  lemma SameBits(x: int, y: int, i: nat)
    requires (x - y) % 0x1_0000_0000 == 0 && i < 32
    ensures BitOf(x, i) == BitOf(y, i)
  {
    Pow32();
    var q := (x - y) / 0x1_0000_0000;
    assert x == y + q * Pow2(32);
    BitsBelow(y, q, 32, i);
  }

  lemma {:induction false} EachBitOf(op: (bool, bool) -> bool, a: nat, b: nat, n: nat, i: nat)
    requires i < n
    ensures BitOf(EachBit(op, a, b, n), i) == op(BitOf(a, i), BitOf(b, i))
    decreases n
  {
    var low, rest := if op(a % 2 == 1, b % 2 == 1) then 1 else 0, EachBit(op, a / 2, b / 2, n - 1);
    HalfOf(low, rest);
    assert EachBit(op, a, b, n) == low + 2 * rest;
    if i > 0 {
      EachBitOf(op, a / 2, b / 2, n - 1, i - 1);
    }
  }

  lemma BitwiseOf(op: (bool, bool) -> bool, a: Int32, b: Int32, i: nat)
    requires i < 32
    ensures BitOf(Wrap32(EachBit(op, Unsigned32(a), Unsigned32(b), 32)), i) == op(BitOf(a, i), BitOf(b, i))
  {
    hide BitOf, EachBit, Wrap32;
    var x, y := Unsigned32(a), Unsigned32(b);
    EachBitOf(op, x, y, 32, i);
    SameBits(x, a, i);
    SameBits(y, b, i);
    WrapKeeps(EachBit(op, x, y, 32));
    SameBits(Wrap32(EachBit(op, x, y, 32)), EachBit(op, x, y, 32), i);
  }

  lemma {:induction false} ComplementOf(x: int, i: nat)
    ensures BitOf(-x - 1, i) == !BitOf(x, i)
    decreases i
  {
    assert (-x - 1) / 2 == -(x / 2) - 1;
    if i > 0 {
      ComplementOf(x / 2, i - 1);
    }
  }

  /** BITWISE_OR, BITWISE_AND and BITWISE_NOT, bit by bit. */
  lemma Bitwise(f: Floats, a: Int32, b: Int32, i: nat)
    requires i < 32
    ensures BitOf(AluOf(f).binary(24, a, b), i) == (BitOf(a, i) || BitOf(b, i))
    ensures BitOf(AluOf(f).binary(25, a, b), i) == (BitOf(a, i) && BitOf(b, i))
    ensures BitOf(AluOf(f).unary(26, a), i) == !BitOf(a, i)
  {
    hide BitOf, EachBit, Wrap32;
    BitwiseOf((p, q) => p || q, a, b, i);
    BitwiseOf((p, q) => p && q, a, b, i);
    ComplementOf(a, i);
    WrapKeeps(-(a as int) - 1);
  }

  /** The dead zones take the two axes and then their radii, and leave the two axes. */
  lemma Deadzones(env: Env, m: Machine, below: seq<Int32>, x: Int32, y: Int32, r: Int32, outer: Int32)
    requires Ready(env, m, below + [x, y, r, outer])
    ensures var xy := env.alu.deadzone(x, y, r); Acts(env, m, below + [x, y, r], 53, m, below + [xy.0, xy.1])
    ensures var xy := env.alu.deadzone2(x, y, r, outer);
            Acts(env, m, below + [x, y, r, outer], 54, m, below + [xy.0, xy.1])
  {
    hide Acts, Rewritten, Effect;
    var s := below + [x, y, r];
    assert s[..|s| - 3] == below && s[|s| - 3] == x && s[|s| - 2] == y && s[|s| - 1] == r;
    ThreeRewritten(env, m, s);
    OneOther(env, m, s, 53);
    var t := below + [x, y, r, outer];
    assert t[..|t| - 4] == below && t[|t| - 4] == x && t[|t| - 3] == y && t[|t| - 2] == r && t[|t| - 1] == outer;
    Deadzone2Rewritten(env, m, t);
    OneOther(env, m, t, 54);
  }

  // ---- where a result goes ------------------------------------------------------------------------------

  lemma ExecKeepsInput(env: Env, m: Machine, stack: seq<Int32>, e: Elem, cache: Option<nat>)
    requires EnvOk(env) && MachineOk(m) && CacheOk(cache) && |stack| <= 16
    ensures var r := Exec(env, m, stack, e, cache); r.Running? ==> r.m.input == m.input
  {
    hide StateValue, Results, Rewritten, LeavesStack;
  }

  lemma {:induction false} RunKeepsInput(env: Env, m: Machine, es: seq<Elem>, caches: seq<Option<nat>>)
    requires EnvOk(env) && MachineOk(m) && |caches| == |es| && CachesOk(caches)
    ensures var r := Run(env, m, es, caches); r.Going? ==> r.m.input == m.input
  {
    hide Exec;
    if es != [] {
      var n := |es| - 1;
      RunKeepsInput(env, m, es[..n], caches[..n]);
      var before := Run(env, m, es[..n], caches[..n]);
      if before.Going? {
        ExecKeepsInput(env, before.m, before.stack, es[n], caches[n]);
      }
    }
  }

  lemma Shown(m: Machine, i: nat, value: Int32)
    requires MachineOk(m)
    ensures var key, r := Key((0xFFF3_0001 + i) % 0x1_0000_0000, 0, false), WithResult(m, i, value);
            && (key in r.slots ==> r.input == m.input[r.slots[key] := value])
            && (key !in r.slots ==> r.input == m.input)
  {
  }

  /** An expression's turn writes the top of the stack, zero if that is empty or the expression was rejected, to the
      state of its own usage, and changes no other state. */
  lemma ResultShown(env: Env, m: Machine, i: nat, es: seq<Elem>, cache: seq<Option<nat>>)
    requires EnvOk(env) && MachineOk(m) && |cache| == |es| && CachesOk(cache)
    requires EvalOne(env, m, i, es, cache).Going?
    ensures var r := EvalOne(env, m, i, es, cache);
            var key, s := Key((0xFFF3_0001 + i) % 0x1_0000_0000, 0, false), r.stack;
            var value := if Accepted(es) && s != [] then s[|s| - 1] else 0;
            && (key in r.m.slots ==> r.m.input == m.input[r.m.slots[key] := value])
            && (key !in r.m.slots ==> r.m.input == m.input)
  {
    hide Run, WithResult, Depth;
    RunKeepsInput(env, m, es, cache);
    if Accepted(es) {
      var run := Run(env, m, es, cache);
      Shown(run.m, i, Top(run.stack));
    } else {
      Shown(m, i, 0);
    }
  }
}
