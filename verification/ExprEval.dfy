/** What evaluating an expression does, on a stack kept as a list. */
module ExprEval {
  import opened Bytes
  import opened ExprOps
  import opened ExprArithmetic

  const MAX_INPUT_STATES: nat := 1024
  const NREGISTERS: nat := 32
  const NPORTS: nat := 15

  // ---- the outside world -----------------------------------------------------------------

  datatype TapHold = TapHold(tap: bool, hold: bool)

  /** What an evaluation reads and does not change. */
  datatype Env = Env(
    alu: Alu, now: nat, autoRepeat: bool, layers: Byte, activePorts: set<nat>, monitoring: bool,
    sticky: seq<Byte>, tapHold: seq<TapHold>)

  /** The key of `usage_state_ptr`. */
  datatype Key = Key(usage: Uint32, port: nat, raw: bool)

  /** What an evaluation reads and changes. `input` holds the current states and, behind them, the previous ones. */
  datatype Machine = Machine(
    port: nat, slots: map<Key, nat>, used: nat, registers: seq<Int32>, input: seq<Int32>,
    monitored: map<Int32, Int32>, log: seq<(Int32, Int32)>)

  predicate EnvOk(env: Env) {
    |env.sticky| == |env.tapHold| == MAX_INPUT_STATES
  }

  predicate SlotsOk(m: Machine) {
    m.used <= MAX_INPUT_STATES && forall k :: k in m.slots ==> m.slots[k] < MAX_INPUT_STATES
  }

  predicate MachineOk(m: Machine) {
    SlotsOk(m) && |m.registers| == NREGISTERS && |m.input| == 2 * MAX_INPUT_STATES
  }

  // ---- values -------------------------------------------------------------------------------

  function Number(env: Env, port: nat, op: OpCode): Int32 {
    if op == AUTO_REPEAT then Truth(env.autoRepeat)
    else if op == TIME then env.now * 1000 % TWO31
    else if op == SCALING then 1000
    else if op == LAYER_STATE then env.layers
    else if op == TIME_SEC then env.now % TWO31
    else Truth(port == 0 || port in env.activePorts)
  }

  function RegisterNumber(a: Int32): int {
    Quotient(a, 1000) - 1
  }

  function PortOf(a: Int32): nat {
    var port := Quotient(a, 1000) % 256;
    if port > NPORTS then 0 else port
  }

  predicate RawState(op: OpCode) {
    op == INPUT_STATE || op == PREV_INPUT_STATE || op == INPUT_STATE_FP32 || op == PREV_INPUT_STATE_FP32
  }

  function StateValue(env: Env, input: seq<Int32>, op: OpCode, slot: Option<nat>, a: Int32): Int32
    requires EnvOk(env) && |input| == 2 * MAX_INPUT_STATES && (slot.Some? ==> slot.value < MAX_INPUT_STATES)
  {
    if slot.None? then (if op == STICKY_STATE || op == TAP_STATE || op == HOLD_STATE then a else 0)
    else
      var now, before := input[slot.value], input[slot.value + MAX_INPUT_STATES];
      var x: int, y: int := now, before;
      if op == INPUT_STATE || op == INPUT_STATE_SCALED then Wrap32(x * 1000)
      else if op == PREV_INPUT_STATE || op == PREV_INPUT_STATE_SCALED then Wrap32(y * 1000)
      else if op == INPUT_STATE_BINARY then Truth(now != 0)
      else if op == PREV_INPUT_STATE_BINARY then Truth(before != 0)
      else if op == INPUT_STATE_FP32 then env.alu.fp32(now)
      else if op == PREV_INPUT_STATE_FP32 then env.alu.fp32(before)
      else if op == STICKY_STATE then env.sticky[slot.value]
      else if op == TAP_STATE then Truth(env.tapHold[slot.value].tap)
      else Truth(env.tapHold[slot.value].hold)
  }

  // ---- looking a usage's state up ---------------------------------------------------------------

  function LookUp(m: Machine, key: Key): (r: (Machine, Option<nat>))
    requires SlotsOk(m)
    ensures SlotsOk(r.0) && r.0 == m.(slots := r.0.slots, used := r.0.used)
    ensures r.1.Some? ==> r.1.value < MAX_INPUT_STATES && key in r.0.slots && r.0.slots[key] == r.1.value
    ensures forall k :: k in m.slots ==> k in r.0.slots && r.0.slots[k] == m.slots[k]
  {
    if key in m.slots then (m, Some(m.slots[key]))
    else if m.used >= MAX_INPUT_STATES then (m, None)
    else (m.(slots := m.slots[key := m.used], used := m.used + 1), Some(m.used))
  }

  /** A remembered slot is not looked up again. */
  function Find(m: Machine, key: Key, cached: Option<nat>): (r: (Machine, Option<nat>))
    requires SlotsOk(m)
  {
    if cached.Some? then (m, cached) else LookUp(m, key)
  }

  function KeyFor(m: Machine, op: OpCode, a: Int32): Key {
    Key(Unsigned32(a), m.port, RawState(op))
  }

  // ---- one element --------------------------------------------------------------------------------

  /** Stack slots, counted from the top one, that an operation is sure to read or write. */
  function Touches(op: OpCode): seq<int> {
    if PushesLiteral(op) || PushesNumber(op) then [1]
    else if Unary(op) || ReadsState(op) then [0]
    else if Binary(op) || op == SWAP then [-1, 0]
    else if op == DUP then [0, 1]
    else if op == CLAMP || op == IFTE || op == DEADZONE then [-2, -1, 0]
    else if op == DPAD || op == DEADZONE2 then [-3, -2, -1, 0]
    else if op == STORE || op == PRINT_IF || op == PORT then [0]
    else []
  }

  /** How far an operation moves the top of the stack. */
  function Moves(op: OpCode): int {
    if PushesLiteral(op) || PushesNumber(op) || op == DUP then 1
    else if Binary(op) || op == PORT || op == DEADZONE then -1
    else if op == CLAMP || op == IFTE || op == STORE || op == MONITOR || op == PRINT_IF || op == DEADZONE2 then -2
    else if op == DPAD then -3
    else 0
  }

  /** At this depth, an operation reaches outside the stack or drops below its bottom. */
  predicate LeavesStack(depth: nat, op: OpCode) {
    depth + Moves(op) < 0 || exists i :: 0 <= i < |Touches(op)| && !(0 <= depth - 1 + Touches(op)[i] < STACK_SIZE)
  }

  /** The validator's rule for an operation is the exact one. */
  lemma RuleIsExact(depth: nat, op: OpCode)
    requires depth <= STACK_SIZE && Known(op)
    ensures LeavesStack(depth, op) <==> DepthAfter(depth, op).None?
    ensures !LeavesStack(depth, op) ==> DepthAfter(depth, op) == Some(depth + Moves(op))
  {
    var t := Touches(op);
    if |t| > 0 && !(0 <= depth - 1 + t[0] < STACK_SIZE) {
      assert LeavesStack(depth, op);
    }
    if |t| > 1 && !(0 <= depth - 1 + t[1] < STACK_SIZE) {
      assert LeavesStack(depth, op);
    }
  }

  datatype Outcome =
    | Running(m: Machine, stack: seq<Int32>, cache: Option<nat>)
    | OutsideStack
    | UnknownOp
    | DividedByZero

  function StoreValue(m: Machine, number: Int32, value: Int32): Machine
    requires |m.registers| == NREGISTERS
  {
    var i := RegisterNumber(number);
    if 0 <= i < NREGISTERS then m.(registers := m.registers[i := value]) else m
  }

  function MonitorValue(env: Env, m: Machine, usage: Int32, value: Int32): Machine {
    var last := if usage in m.monitored then m.monitored[usage] else 0;
    if env.monitoring && value != last
    then m.(monitored := m.monitored[usage := value], log := m.log + [(usage, value)])
    else m
  }

  /** What an operation does besides computing. */
  function Effect(env: Env, m: Machine, op: OpCode, args: seq<Int32>): (r: Machine)
    requires MachineOk(m) && |args| == ArityOf(op).takes
    ensures MachineOk(r) && r.slots == m.slots && r.used == m.used && (op != PORT ==> r.port == m.port)
  {
    if op == STORE then StoreValue(m, args[1], args[0])
    else if op == MONITOR then MonitorValue(env, m, args[1], args[0])
    else if op == PORT then m.(port := PortOf(args[0]))
    else m
  }

  function UnaryResult(env: Env, m: Machine, op: OpCode, a: Int32): Int32
    requires |m.registers| == NREGISTERS
  {
    if op == RECALL
    then if 0 <= RegisterNumber(a) < NREGISTERS then m.registers[RegisterNumber(a)] else a
    else env.alu.unary(op, a)
  }

  /** What an operation leaves on the stack, from what it takes there. */
  function Results(env: Env, m: Machine, op: OpCode, args: seq<Int32>): (r: seq<Int32>)
    requires MachineOk(m) && |args| == ArityOf(op).takes && !PushesLiteral(op) && !ReadsState(op)
    ensures |r| == ArityOf(op).gives
  {
    if PushesNumber(op) then [Number(env, m.port, op)]
    else if Unary(op) then [UnaryResult(env, m, op, args[0])]
    else if Binary(op) then [env.alu.binary(op, args[0], args[1])]
    else if op == DUP then [args[0], args[0]]
    else if op == CLAMP then [ClampValue(args[0], args[1], args[2])]
    else if op == IFTE then [if args[0] != 0 then args[1] else args[2]]
    else if op == DPAD then [DpadValue(args[0], args[1], args[2], args[3])]
    else if op == SWAP then [args[1], args[0]]
    else if op == DEADZONE then var xy := env.alu.deadzone(args[0], args[1], args[2]); [xy.0, xy.1]
    else if op == DEADZONE2 then var xy := env.alu.deadzone2(args[0], args[1], args[2], args[3]); [xy.0, xy.1]
    else []
  }

  /** The stack after an operation that only computes. */
  function Rewritten(env: Env, m: Machine, op: OpCode, stack: seq<Int32>): seq<Int32>
    requires MachineOk(m) && |stack| >= ArityOf(op).takes && !PushesLiteral(op) && !ReadsState(op)
  {
    var k := |stack| - ArityOf(op).takes;
    stack[..k] + Results(env, m, op, stack[k..])
  }

  lemma NumberPushed(env: Env, m: Machine, op: OpCode, s: seq<Int32>)
    requires MachineOk(m) && PushesNumber(op)
    ensures Rewritten(env, m, op, s) == s + [Number(env, m.port, op)]
  {
    assert s[..|s|] == s;
  }

  lemma UnaryRewritten(env: Env, m: Machine, op: OpCode, s: seq<Int32>)
    requires MachineOk(m) && Unary(op) && |s| >= 1
    ensures var k := |s| - 1; Rewritten(env, m, op, s) == s[..k] + [UnaryResult(env, m, op, s[k])]
  {
    assert s[|s| - 1..][0] == s[|s| - 1];
  }

  lemma BinaryResults(env: Env, m: Machine, op: OpCode, args: seq<Int32>, a: Int32, b: Int32)
    requires MachineOk(m) && Binary(op) && args == [a, b]
    ensures Results(env, m, op, args) == [env.alu.binary(op, a, b)]
  {
    assert args[0] == a && args[1] == b;
  }

  lemma BinaryRewritten(env: Env, m: Machine, op: OpCode, s: seq<Int32>)
    requires MachineOk(m) && Binary(op) && |s| >= 2
    ensures var k := |s| - 2; Rewritten(env, m, op, s) == s[..k] + [env.alu.binary(op, s[k], s[k + 1])]
  {
    hide Results;
    var k := |s| - 2;
    assert s[k..] == [s[k], s[k + 1]];
    BinaryResults(env, m, op, s[k..], s[k], s[k + 1]);
  }

  lemma TwoRewritten(env: Env, m: Machine, s: seq<Int32>)
    requires MachineOk(m)
    ensures |s| >= 1 ==> Rewritten(env, m, DUP, s) == s + [s[|s| - 1]]
    ensures |s| >= 2 ==> var k := |s| - 2; Rewritten(env, m, SWAP, s) == s[..k] + [s[k + 1], s[k]]
  {
    if |s| >= 1 {
      var k := |s| - 1;
      assert s[k..][0] == s[k];
      assert s[..k] + [s[k], s[k]] == s + [s[k]];
    }
    if |s| >= 2 {
      var k := |s| - 2;
      assert s[k..][0] == s[k] && s[k..][1] == s[k + 1];
    }
  }

  lemma ThreeRewritten(env: Env, m: Machine, s: seq<Int32>)
    requires MachineOk(m) && |s| >= 3
    ensures var k := |s| - 3; Rewritten(env, m, CLAMP, s) == s[..k] + [ClampValue(s[k], s[k + 1], s[k + 2])]
    ensures var k := |s| - 3; Rewritten(env, m, IFTE, s) == s[..k] + [if s[k] != 0 then s[k + 1] else s[k + 2]]
    ensures var k := |s| - 3;
            var xy := env.alu.deadzone(s[k], s[k + 1], s[k + 2]);
            Rewritten(env, m, DEADZONE, s) == s[..k] + [xy.0, xy.1]
  {
    var k := |s| - 3;
    assert s[k..][0] == s[k] && s[k..][1] == s[k + 1] && s[k..][2] == s[k + 2];
  }

  lemma DpadResults(env: Env, m: Machine, args: seq<Int32>, a: Int32, b: Int32, c: Int32, d: Int32)
    requires MachineOk(m) && args == [a, b, c, d]
    ensures Results(env, m, DPAD, args) == [DpadValue(a, b, c, d)]
  {
    hide DpadValue;
    assert args[0] == a && args[1] == b && args[2] == c && args[3] == d;
  }

  lemma DpadRewritten(env: Env, m: Machine, s: seq<Int32>)
    requires MachineOk(m) && |s| >= 4
    ensures var k := |s| - 4; Rewritten(env, m, DPAD, s) == s[..k] + [DpadValue(s[k], s[k + 1], s[k + 2], s[k + 3])]
  {
    hide DpadValue, Results;
    var k := |s| - 4;
    assert s[k..] == [s[k], s[k + 1], s[k + 2], s[k + 3]];
    DpadResults(env, m, s[k..], s[k], s[k + 1], s[k + 2], s[k + 3]);
  }

  lemma Deadzone2Rewritten(env: Env, m: Machine, s: seq<Int32>)
    requires MachineOk(m) && |s| >= 4
    ensures var k := |s| - 4;
            var xy := env.alu.deadzone2(s[k], s[k + 1], s[k + 2], s[k + 3]);
            Rewritten(env, m, DEADZONE2, s) == s[..k] + [xy.0, xy.1]
  {
    var k := |s| - 4;
    assert s[k..] == [s[k], s[k + 1], s[k + 2], s[k + 3]];
  }

  /** Operations that leave nothing. */
  lemma NothingRewritten(env: Env, m: Machine, op: OpCode, s: seq<Int32>)
    requires MachineOk(m) && |s| >= ArityOf(op).takes && !PushesLiteral(op) && !ReadsState(op)
    requires ArityOf(op).gives == 0
    ensures Rewritten(env, m, op, s) == s[..|s| - ArityOf(op).takes]
  {
  }

  lemma TwoTaken(env: Env, m: Machine, op: OpCode, s: seq<Int32>)
    requires MachineOk(m) && |s| >= 2 && (op == STORE || op == MONITOR)
    ensures ArityOf(op) == Arity(2, 0)
    ensures var k := |s| - 2;
            && Rewritten(env, m, op, s) == s[..k]
            && Effect(env, m, op, s[k..])
               == if op == STORE then StoreValue(m, s[k + 1], s[k]) else MonitorValue(env, m, s[k + 1], s[k])
  {
    hide Rewritten, StoreValue, MonitorValue;
    NothingRewritten(env, m, op, s);
    assert s[|s| - 2..] == [s[|s| - 2], s[|s| - 1]];
  }

  lemma OneTaken(env: Env, m: Machine, s: seq<Int32>)
    requires MachineOk(m) && |s| >= 1
    ensures ArityOf(PORT) == Arity(1, 0)
    ensures var k := |s| - 1;
            Rewritten(env, m, PORT, s) == s[..k] && Effect(env, m, PORT, s[k..]) == m.(port := PortOf(s[k]))
  {
    hide Rewritten, PortOf;
    NothingRewritten(env, m, PORT, s);
    assert s[|s| - 1..] == [s[|s| - 1]];
  }

  predicate CacheOk(cache: Option<nat>) {
    cache.Some? ==> cache.value < MAX_INPUT_STATES
  }

  /** One element of an expression. */
  function Exec(env: Env, m: Machine, stack: seq<Int32>, e: Elem, cache: Option<nat>): (r: Outcome)
    requires EnvOk(env) && MachineOk(m) && CacheOk(cache) && |stack| <= STACK_SIZE
    ensures r.Running? ==> MachineOk(r.m) && CacheOk(r.cache) && |r.stack| <= STACK_SIZE
  {
    var op, n := e.op, |stack|;
    if !Known(op) then UnknownOp
    else if LeavesStack(n, op) then OutsideStack
    else
      RuleIsExact(n, op);
      var k := n - ArityOf(op).takes;
      var args := stack[k..];
      if op == MOD && args[1] == 0 then DividedByZero
      else if PushesLiteral(op) then Running(m, stack + [Wrap32(e.val)], cache)
      else if ReadsState(op) then
        var (m', slot) := Find(m, KeyFor(m, op, args[0]), cache);
        Running(m', stack[..k] + [StateValue(env, m.input, op, slot, args[0])], slot)
      else Running(Effect(env, m, op, args), Rewritten(env, m, op, stack), cache)
  }

  lemma ExecPushes(env: Env, m: Machine, stack: seq<Int32>, e: Elem, cache: Option<nat>)
    requires EnvOk(env) && MachineOk(m) && CacheOk(cache) && |stack| <= STACK_SIZE
    requires PushesLiteral(e.op) && !LeavesStack(|stack|, e.op)
    ensures Exec(env, m, stack, e, cache) == Running(m, stack + [Wrap32(e.val)], cache)
  {
  }

  lemma ExecReads(env: Env, m: Machine, stack: seq<Int32>, e: Elem, cache: Option<nat>)
    requires EnvOk(env) && MachineOk(m) && CacheOk(cache) && |stack| <= STACK_SIZE
    requires Known(e.op) && ReadsState(e.op) && !LeavesStack(|stack|, e.op)
    ensures |stack| > 0
    ensures var k := |stack| - 1;
            var (m', slot) := Find(m, KeyFor(m, e.op, stack[k]), cache);
            Exec(env, m, stack, e, cache)
            == Running(m', stack[..k] + [StateValue(env, m.input, e.op, slot, stack[k])], slot)
  {
    hide StateValue, Results, Rewritten, Effect;
    RuleIsExact(|stack|, e.op);
    assert stack[|stack| - 1..][0] == stack[|stack| - 1];
  }

  lemma ExecActs(env: Env, m: Machine, stack: seq<Int32>, e: Elem, cache: Option<nat>)
    requires EnvOk(env) && MachineOk(m) && CacheOk(cache) && |stack| <= STACK_SIZE
    requires Known(e.op) && !PushesLiteral(e.op) && !ReadsState(e.op) && !LeavesStack(|stack|, e.op)
    requires !Exec(env, m, stack, e, cache).DividedByZero?
    ensures |stack| >= ArityOf(e.op).takes
    ensures Exec(env, m, stack, e, cache)
         == Running(Effect(env, m, e.op, stack[|stack| - ArityOf(e.op).takes..]), Rewritten(env, m, e.op, stack), cache)
  {
    RuleIsExact(|stack|, e.op);
  }

  lemma NoEffect(env: Env, m: Machine, op: OpCode, args: seq<Int32>)
    requires MachineOk(m) && |args| == ArityOf(op).takes && op != STORE && op != MONITOR && op != PORT
    ensures Effect(env, m, op, args) == m
  {
  }
}
