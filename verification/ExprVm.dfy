/** The evaluator in place: a sixteen-slot stack, the index of its top, and a slot pointer kept in each element. */
module ExprVm {
  import opened Bytes
  import opened ExprOps
  import opened ExprArithmetic
  import opened ExprEval
  import opened ExprRun

  class Vm {
    const stack: array<Int32>
    var m: Machine

    ghost predicate Valid()
      reads this
    {
      stack.Length == STACK_SIZE && MachineOk(m)
    }

    constructor (machine: Machine)
      requires MachineOk(machine)
      ensures Valid() && m == machine && fresh(stack)
    {
      stack := new Int32[STACK_SIZE](_ => 0);
      m := machine;
    }

    /** The values on the stack when its top is at `ptr`. */
    ghost function On(ptr: int): seq<Int32>
      requires stack.Length == STACK_SIZE && -1 <= ptr < STACK_SIZE
      reads stack
    {
      stack[..ptr + 1]
    }

    method Push(value: Int32, top: int) returns (ptr: int)
      requires Valid() && -1 <= top < STACK_SIZE - 1
      modifies stack
      ensures ptr == top + 1 && On(ptr) == old(On(top)) + [value]
    {
      ptr := top + 1;
      stack[ptr] := value;
    }

    /** Operations that replace the top of the stack. */
    method Compute1(env: Env, op: OpCode, ptr: int)
      requires Valid() && Unary(op) && 0 <= ptr < STACK_SIZE
      modifies stack
      ensures On(ptr) == Rewritten(env, m, op, old(On(ptr)))
    {
      UnaryRewritten(env, m, op, On(ptr));
      stack[ptr] := UnaryResult(env, m, op, stack[ptr]);
    }

    /** Operations that replace the two top values by one. */
    method Compute2(env: Env, op: OpCode, top: int) returns (ptr: int)
      requires Valid() && Binary(op) && 1 <= top < STACK_SIZE
      modifies stack
      ensures ptr == top - 1 && On(ptr) == Rewritten(env, m, op, old(On(top)))
    {
      BinaryRewritten(env, m, op, On(top));
      ptr := top - 1;
      stack[ptr] := env.alu.binary(op, stack[ptr], stack[top]);
    }

    method Clamp(env: Env, top: int) returns (ptr: int)
      requires Valid() && 2 <= top < STACK_SIZE
      modifies stack
      ensures ptr == top - 2 && On(ptr) == Rewritten(env, m, CLAMP, old(On(top)))
    {
      ThreeRewritten(env, m, On(top));
      ptr := top - 2;
      if stack[ptr] < stack[top - 1] {
        stack[ptr] := stack[top - 1];
      }
      if stack[ptr] > stack[top] {
        stack[ptr] := stack[top];
      }
    }

    method IfThenElse(env: Env, top: int) returns (ptr: int)
      requires Valid() && 2 <= top < STACK_SIZE
      modifies stack
      ensures ptr == top - 2 && On(ptr) == Rewritten(env, m, IFTE, old(On(top)))
    {
      ThreeRewritten(env, m, On(top));
      ptr := top - 2;
      stack[ptr] := if stack[ptr] != 0 then stack[top - 1] else stack[top];
    }

    method Dup(env: Env, top: int) returns (ptr: int)
      requires Valid() && 0 <= top < STACK_SIZE - 1
      modifies stack
      ensures ptr == top + 1 && On(ptr) == Rewritten(env, m, DUP, old(On(top)))
    {
      TwoRewritten(env, m, On(top));
      stack[top + 1] := stack[top];
      ptr := top + 1;
    }

    method Swap(env: Env, ptr: int)
      requires Valid() && 1 <= ptr < STACK_SIZE
      modifies stack
      ensures On(ptr) == Rewritten(env, m, SWAP, old(On(ptr)))
    {
      TwoRewritten(env, m, On(ptr));
      var tmp := stack[ptr - 1];
      stack[ptr - 1] := stack[ptr];
      stack[ptr] := tmp;
    }

    method Dpad(env: Env, top: int) returns (ptr: int)
      requires Valid() && 3 <= top < STACK_SIZE
      modifies stack
      ensures ptr == top - 3 && On(ptr) == Rewritten(env, m, DPAD, old(On(top)))
    {
      DpadRewritten(env, m, On(top));
      ptr := top - 3;
      stack[ptr] := DpadValue(stack[ptr], stack[top - 2], stack[top - 1], stack[top]);
    }

    method Deadzone(env: Env, top: int) returns (ptr: int)
      requires Valid() && 2 <= top < STACK_SIZE
      modifies stack
      ensures ptr == top - 1 && On(ptr) == Rewritten(env, m, DEADZONE, old(On(top)))
    {
      ThreeRewritten(env, m, On(top));
      var xy := env.alu.deadzone(stack[top - 2], stack[top - 1], stack[top]);
      stack[top - 2] := xy.0;
      stack[top - 1] := xy.1;
      ptr := top - 1;
    }

    method Deadzone2(env: Env, top: int) returns (ptr: int)
      requires Valid() && 3 <= top < STACK_SIZE
      modifies stack
      ensures ptr == top - 2 && On(ptr) == Rewritten(env, m, DEADZONE2, old(On(top)))
    {
      Deadzone2Rewritten(env, m, On(top));
      var xy := env.alu.deadzone2(stack[top - 3], stack[top - 2], stack[top - 1], stack[top]);
      stack[top - 3] := xy.0;
      stack[top - 2] := xy.1;
      ptr := top - 2;
    }

    /** The element's slot, looked up unless it is remembered. */
    method FindSlot(key: Key, cached: Option<nat>) returns (slot: Option<nat>)
      requires Valid()
      modifies this`m
      ensures Valid() && (m, slot) == Find(old(m), key, cached)
    {
      if cached.Some? {
        return cached;
      }
      if key in m.slots {
        slot := Some(m.slots[key]);
      } else if m.used >= MAX_INPUT_STATES {
        slot := None;
      } else {
        slot := Some(m.used);
        m := m.(slots := m.slots[key := m.used], used := m.used + 1);
      }
    }

    method ReadState(env: Env, op: OpCode, ptr: int, cached: Option<nat>) returns (slot: Option<nat>)
      requires Valid() && EnvOk(env) && ReadsState(op) && 0 <= ptr < STACK_SIZE && CacheOk(cached)
      modifies this`m, stack
      ensures Valid()
      ensures var before := old(On(ptr));
              && (m, slot) == Find(old(m), KeyFor(old(m), op, before[ptr]), cached) && CacheOk(slot)
              && On(ptr) == before[..ptr] + [StateValue(env, m.input, op, slot, before[ptr])]
    {
      slot := FindSlot(KeyFor(m, op, stack[ptr]), cached);
      stack[ptr] := StateValue(env, m.input, op, slot, stack[ptr]);
    }

    /** Operations that compute and nothing else. */
    method Compute(env: Env, op: OpCode, top: int) returns (ptr: int)
      requires Valid() && -1 <= top < STACK_SIZE && Known(op) && !LeavesStack(top + 1, op)
      requires !PushesLiteral(op) && !ReadsState(op) && op != STORE && op != MONITOR && op != PORT
      modifies stack
      ensures -1 <= ptr < STACK_SIZE && top + 1 >= ArityOf(op).takes && On(ptr) == Rewritten(env, m, op, old(On(top)))
    {
      hide Rewritten, Results, DpadValue, Number;
      RuleIsExact(top + 1, op);
      ptr := top;
      if PushesNumber(op) {
        NumberPushed(env, m, op, On(top));
        ptr := Push(Number(env, m.port, op), top);
      } else if Unary(op) {
        Compute1(env, op, top);
      } else if Binary(op) {
        ptr := Compute2(env, op, top);
      } else if op == DUP {
        ptr := Dup(env, top);
      } else if op == CLAMP {
        ptr := Clamp(env, top);
      } else if op == IFTE {
        ptr := IfThenElse(env, top);
      } else if op == DPAD {
        ptr := Dpad(env, top);
      } else if op == SWAP {
        Swap(env, top);
      } else if op == DEADZONE {
        ptr := Deadzone(env, top);
      } else if op == DEADZONE2 {
        ptr := Deadzone2(env, top);
      } else {
        NothingRewritten(env, m, op, On(top));
        if op == PRINT_IF {
          ptr := top - 2;
        }
      }
    }

    /** Operations that act on registers, the monitor and the port. */
    method Act(env: Env, op: OpCode, top: int) returns (ptr: int)
      requires Valid() && -1 <= top < STACK_SIZE && !LeavesStack(top + 1, op)
      requires op == STORE || op == MONITOR || op == PORT
      modifies this`m
      ensures Valid() && -1 <= ptr < STACK_SIZE && top + 1 >= ArityOf(op).takes
      ensures var s := On(top);
              && m == Effect(env, old(m), op, s[|s| - ArityOf(op).takes..])
              && On(ptr) == Rewritten(env, old(m), op, s)
    {
      hide Rewritten, Results, MonitorValue, Effect, PortOf, ArityOf;
      RuleIsExact(top + 1, op);
      assert top >= if op == PORT then 0 else 1;
      if op != PORT {
        TwoTaken(env, m, op, On(top));
      } else {
        OneTaken(env, m, On(top));
      }
      if op == STORE {
        ptr := top - 2;
        var regNumber := Quotient(stack[top], 1000) - 1;
        if 0 <= regNumber < NREGISTERS {
          m := m.(registers := m.registers[regNumber := stack[top - 1]]);
        }
      } else if op == MONITOR {
        ptr := top - 2;
        m := MonitorValue(env, m, stack[top], stack[top - 1]);
      } else {
        ptr := top - 1;
        m := m.(port := PortOf(stack[top]));
      }
    }

    /** Elements that look a state up. */
    method StepRead(env: Env, e: Elem, ptr: int, cached: Option<nat>) returns (slot: Option<nat>)
      requires Valid() && EnvOk(env) && CacheOk(cached) && -1 <= ptr < STACK_SIZE
      requires Known(e.op) && ReadsState(e.op) && !LeavesStack(ptr + 1, e.op)
      modifies this`m, stack
      ensures Valid() && Exec(env, old(m), old(On(ptr)), e, cached) == Running(m, On(ptr), slot)
    {
      ExecReads(env, m, On(ptr), e, cached);
      slot := ReadState(env, e.op, ptr, cached);
    }

    /** Elements that only compute. */
    method StepCompute(env: Env, e: Elem, top: int, cached: Option<nat>) returns (ptr: int)
      requires Valid() && EnvOk(env) && CacheOk(cached) && -1 <= top < STACK_SIZE && Known(e.op)
               && !LeavesStack(top + 1, e.op)
      requires !PushesLiteral(e.op) && !ReadsState(e.op) && e.op != STORE && e.op != MONITOR && e.op != PORT
      requires !Exec(env, m, On(top), e, cached).DividedByZero?
      modifies stack
      ensures -1 <= ptr < STACK_SIZE && Exec(env, m, old(On(top)), e, cached) == Running(m, On(ptr), cached)
    {
      ExecActs(env, m, On(top), e, cached);
      NoEffect(env, m, e.op, On(top)[top + 1 - ArityOf(e.op).takes..]);
      ptr := Compute(env, e.op, top);
    }

    /** Elements that act on registers, the monitor and the port. */
    method StepAct(env: Env, e: Elem, top: int, cached: Option<nat>) returns (ptr: int)
      requires Valid() && EnvOk(env) && CacheOk(cached) && -1 <= top < STACK_SIZE && !LeavesStack(top + 1, e.op)
      requires e.op == STORE || e.op == MONITOR || e.op == PORT
      modifies this`m
      ensures Valid() && -1 <= ptr < STACK_SIZE && Exec(env, old(m), On(top), e, cached) == Running(m, On(ptr), cached)
    {
      hide Effect, Rewritten;
      ExecActs(env, m, On(top), e, cached);
      ptr := Act(env, e.op, top);
    }

    /** One element of an accepted expression. */
    method Step(env: Env, e: Elem, top: int, cached: Option<nat>) returns (ptr: int, cache: Option<nat>)
      requires Valid() && EnvOk(env) && CacheOk(cached) && -1 <= top < STACK_SIZE
      requires Known(e.op) && !LeavesStack(top + 1, e.op) && !Exec(env, m, On(top), e, cached).DividedByZero?
      modifies this`m, stack
      ensures Valid() && -1 <= ptr < STACK_SIZE
      ensures Exec(env, old(m), old(On(top)), e, cached) == Running(m, On(ptr), cache)
    {
      ptr, cache := top, cached;
      if PushesLiteral(e.op) {
        ExecPushes(env, m, On(top), e, cached);
        ptr := Push(Wrap32(e.val), top);
      } else if ReadsState(e.op) {
        cache := StepRead(env, e, top, cached);
      } else if e.op == STORE || e.op == MONITOR || e.op == PORT {
        ptr := StepAct(env, e, top, cached);
      } else {
        ptr := StepCompute(env, e, top, cached);
      }
    }

    lemma StepFits(env: Env, start: Machine, es: seq<Elem>, caches: seq<Option<nat>>, i: nat, p: Progress)
      requires EnvOk(env) && MachineOk(start) && |caches| == |es| && CachesOk(caches) && i < |es|
      requires Accepted(es) && !Run(env, start, es, caches).Divided?
      requires p == Run(env, start, es[..i], caches[..i])
      ensures p.Going? ==> Known(es[i].op) && !LeavesStack(|p.stack|, es[i].op)
                           && !Exec(env, p.m, p.stack, es[i], caches[i]).DividedByZero?
      ensures Run(env, start, es[..i + 1], caches[..i + 1]) == Advance(env, p, es[i], caches[i])
    {
      assert es[..i + 1][..i] == es[..i] && caches[..i + 1][..i] == caches[..i];
      NotDivided(env, start, es, caches, i + 1);
      DepthOfPrefix(es, i + 1);
      ValidatorIsExact(env, start, es[..i], caches[..i]);
      if p.Going? && Known(es[i].op) {
        RuleIsExact(|p.stack|, es[i].op);
      }
    }

    /** A run that meets no division by zero meets none on the way. */
    lemma {:induction false} NotDivided(env: Env, start: Machine, es: seq<Elem>, caches: seq<Option<nat>>, n: nat)
      requires EnvOk(env) && MachineOk(start) && |caches| == |es| && CachesOk(caches) && n <= |es|
      requires !Run(env, start, es, caches).Divided?
      ensures !Run(env, start, es[..n], caches[..n]).Divided?
      decreases |es|
    {
      if n < |es| {
        var k := |es| - 1;
        NotDivided(env, start, es[..k], caches[..k], n);
        assert es[..k][..n] == es[..n] && caches[..k][..n] == caches[..n];
      } else {
        assert es[..n] == es && caches[..n] == caches;
      }
    }

    /** All elements of an accepted expression. */
    method RunAll(env: Env, es: seq<Elem>, caches: array<Option<nat>>) returns (ptr: int)
      requires Valid() && EnvOk(env) && caches.Length == |es| && CachesOk(caches[..])
      requires Accepted(es) && !Run(env, m, es, caches[..]).Divided?
      modifies this`m, stack, caches
      ensures Valid() && -1 <= ptr < STACK_SIZE
      ensures Run(env, old(m), es, old(caches[..])) == Going(m, On(ptr), caches[..])
    {
      hide Run, Exec, Accepted, LeavesStack, Known;
      ptr := -1;
      ghost var start, kept := m, caches[..];
      ghost var p := Run(env, start, es[..0], kept[..0]);
      RunOfNone(env, start);
      assert es[..0] == [] && kept[..0] == [];
      for i := 0 to |es|
        invariant Valid() && -1 <= ptr < STACK_SIZE
        invariant caches[i..] == kept[i..]
        invariant p == Run(env, start, es[..i], kept[..i]) && p == Going(m, On(ptr), caches[..i])
      {
        StepFits(env, start, es, kept, i, p);
        assert caches[i] == caches[i..][0] == kept[i];
        p := Advance(env, p, es[i], kept[i]);
        ghost var before, rest := caches[..i], caches[i + 1..];
        assert rest == caches[i..][1..] == kept[i + 1..];
        var cache;
        ptr, cache := Step(env, es[i], ptr, caches[i]);
        caches[i] := cache;
        assert caches[..i + 1] == before + [cache] && caches[i + 1..] == rest;
      }
      assert es[..|es|] == es && kept[..|es|] == kept && caches[..|es|] == caches[..];
    }

    /** `eval_expr`: a rejected expression gives zero; an accepted one runs to its end, within the sixteen slots, and
        gives what it leaves on top. */
    method EvalExpr(env: Env, es: seq<Elem>, caches: array<Option<nat>>) returns (result: Int32)
      requires Valid() && EnvOk(env) && caches.Length == |es| && CachesOk(caches[..])
      requires !Run(env, m, es, caches[..]).Divided?
      modifies this`m, stack, caches
      ensures Valid()
      ensures !Accepted(es) ==> result == 0 && m == old(m) && caches[..] == old(caches[..])
      ensures Accepted(es) ==>
                var r := Run(env, old(m), es, old(caches[..]));
                r.Going? && m == r.m && caches[..] == r.caches && result == Top(r.stack)
    {
      hide Run, Exec;
      var valid := IsExprValid(es);
      if !valid {
        return 0;
      }
      var ptr := RunAll(env, es, caches);
      if ptr >= 0 {
        return stack[ptr];
      }
      return 0;
    }
  }
}
