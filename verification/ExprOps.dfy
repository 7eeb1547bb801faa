/** Expressions of the mapping configuration: their elements, and the validator that runs when a configuration
    is set. */
module ExprOps {
  import opened Bytes

  const STACK_SIZE: nat := 16

  datatype Option<T> = None | Some(value: T)

  /** An operation is an `int8_t`; these have a meaning. */
  type OpCode = int

  const PUSH := 0
  const PUSH_USAGE := 1
  const INPUT_STATE := 2
  const ADD := 3
  const MUL := 4
  const EQ := 5
  const TIME := 6
  const MOD := 7
  const GT := 8
  const NOT := 9
  const INPUT_STATE_BINARY := 10
  const ABS := 11
  const DUP := 12
  const SIN := 13
  const COS := 14
  const DEBUG := 15
  const AUTO_REPEAT := 16
  const RELU := 17
  const CLAMP := 18
  const SCALING := 19
  const LAYER_STATE := 20
  const STICKY_STATE := 21
  const TAP_STATE := 22
  const HOLD_STATE := 23
  const BITWISE_OR := 24
  const BITWISE_AND := 25
  const BITWISE_NOT := 26
  const PREV_INPUT_STATE := 27
  const PREV_INPUT_STATE_BINARY := 28
  const STORE := 29
  const RECALL := 30
  const SQRT := 31
  const ATAN2 := 32
  const ROUND := 33
  const PORT := 34
  const DPAD := 35
  const EOL := 36
  const INPUT_STATE_FP32 := 37
  const PREV_INPUT_STATE_FP32 := 38
  const MIN := 39
  const MAX := 40
  const IFTE := 41
  const DIV := 42
  const SWAP := 43
  const MONITOR := 44
  const SIGN := 45
  const SUB := 46
  const PRINT_IF := 47
  const TIME_SEC := 48
  const LT := 49
  const PLUGGED_IN := 50
  const INPUT_STATE_SCALED := 51
  const PREV_INPUT_STATE_SCALED := 52
  const DEADZONE := 53
  const DEADZONE2 := 54

  datatype Elem = Elem(op: OpCode, val: Uint32)

  predicate PushesLiteral(op: OpCode) {
    op == PUSH || op == PUSH_USAGE
  }

  predicate PushesNumber(op: OpCode) {
    op == AUTO_REPEAT || op == TIME || op == SCALING || op == LAYER_STATE || op == TIME_SEC || op == PLUGGED_IN
  }

  /** Operations that look a usage's state up. */
  predicate ReadsState(op: OpCode) {
    || op == INPUT_STATE || op == INPUT_STATE_BINARY || op == PREV_INPUT_STATE || op == PREV_INPUT_STATE_BINARY
    || op == INPUT_STATE_FP32 || op == PREV_INPUT_STATE_FP32 || op == INPUT_STATE_SCALED
    || op == PREV_INPUT_STATE_SCALED || op == STICKY_STATE || op == TAP_STATE || op == HOLD_STATE
  }

  predicate Unary(op: OpCode) {
    || op == NOT || op == ABS || op == SIN || op == COS || op == RELU || op == BITWISE_NOT || op == RECALL
    || op == SQRT || op == ROUND || op == SIGN
  }

  predicate Binary(op: OpCode) {
    || op == ADD || op == MUL || op == EQ || op == GT || op == MOD || op == BITWISE_OR || op == BITWISE_AND
    || op == ATAN2 || op == MIN || op == MAX || op == DIV || op == SUB || op == LT
  }

  predicate Known(op: OpCode) {
    0 <= op <= DEADZONE2
  }

  /** How many values an operation takes off the stack and how many it leaves there. */
  datatype Arity = Arity(takes: nat, gives: nat)

  function ArityOf(op: OpCode): Arity {
    if PushesLiteral(op) || PushesNumber(op) then Arity(0, 1)
    else if Unary(op) || ReadsState(op) then Arity(1, 1)
    else if Binary(op) then Arity(2, 1)
    else if op == DUP then Arity(1, 2)
    else if op == CLAMP || op == IFTE then Arity(3, 1)
    else if op == STORE || op == MONITOR || op == PRINT_IF then Arity(2, 0)
    else if op == PORT then Arity(1, 0)
    else if op == DPAD then Arity(4, 1)
    else if op == SWAP then Arity(2, 2)
    else if op == DEADZONE then Arity(3, 2)
    else if op == DEADZONE2 then Arity(4, 2)
    else Arity(0, 0)
  }

  /** The depth after an operation, if it is known and stays on the stack. */
  function DepthAfter(depth: nat, op: OpCode): (d: Option<nat>)
    ensures d.Some? && depth <= STACK_SIZE ==> d.value <= STACK_SIZE
  {
    var arity := ArityOf(op);
    if !Known(op) || depth < arity.takes || (arity.gives > arity.takes && depth >= STACK_SIZE) then None
    else Some(depth - arity.takes + arity.gives)
  }

  /** The depth an expression leaves, if it runs from an empty stack without leaving the stack. */
  function Depth(es: seq<Elem>): (d: Option<nat>)
    ensures d.Some? ==> d.value <= STACK_SIZE
  {
    if es == [] then Some(0) else
      match Depth(es[..|es| - 1])
      case None => None
      case Some(d) => DepthAfter(d, es[|es| - 1].op)
  }

  lemma {:induction false} DepthOfPrefix(es: seq<Elem>, n: nat)
    requires n <= |es| && Depth(es).Some?
    ensures Depth(es[..n]).Some?
    decreases |es|
  {
    if n < |es| {
      DepthOfPrefix(es[..|es| - 1], n);
      assert es[..|es| - 1][..n] == es[..n];
    } else {
      assert es[..n] == es;
    }
  }

  /** One element's turn in the validator. */
  method CheckOp(op: OpCode, depth: nat) returns (ok: bool, onStack: int)
    requires depth <= STACK_SIZE
    ensures DepthAfter(depth, op) == if ok && onStack >= 0 then Some(onStack) else None
    ensures ok ==> onStack >= 0
  {
    ok, onStack := true, depth;
    if op == DEBUG || op == EOL {
    } else if PushesLiteral(op) || PushesNumber(op) {
      if onStack >= STACK_SIZE { ok := false; }
      onStack := onStack + 1;
    } else if Unary(op) || ReadsState(op) {
      if onStack < 1 { ok := false; }
    } else if op == DUP {
      if onStack < 1 || onStack >= STACK_SIZE { ok := false; }
      onStack := onStack + 1;
    } else if Binary(op) {
      if onStack < 2 { ok := false; }
      onStack := onStack - 1;
    } else if op == CLAMP || op == IFTE {
      if onStack < 3 { ok := false; }
      onStack := onStack - 2;
    } else if op == STORE || op == MONITOR || op == PRINT_IF {
      if onStack < 2 { ok := false; }
      onStack := onStack - 2;
    } else if op == PORT {
      if onStack < 1 { ok := false; }
      onStack := onStack - 1;
    } else if op == DPAD {
      if onStack < 4 { ok := false; }
      onStack := onStack - 3;
    } else if op == SWAP {
      if onStack < 2 { ok := false; }
    } else if op == DEADZONE {
      if onStack < 3 { ok := false; }
      onStack := onStack - 1;
    } else if op == DEADZONE2 {
      if onStack < 4 { ok := false; }
      onStack := onStack - 2;
    } else {
      ok := false;
    }
  }

  /** `is_expr_valid`: accepts exactly the expressions of known operations that stay on the stack. */
  method IsExprValid(es: seq<Elem>) returns (valid: bool)
    ensures valid <==> Depth(es).Some?
  {
    var onStack: int := 0;
    for i := 0 to |es|
      invariant Depth(es[..i]) == Some(onStack)
    {
      assert es[..i + 1][..i] == es[..i];
      var ok;
      ok, onStack := CheckOp(es[i].op, onStack);
      if !ok {
        if Depth(es).Some? {
          DepthOfPrefix(es, i + 1);
        }
        return false;
      }
    }
    assert es[..|es|] == es;
    return true;
  }
}
