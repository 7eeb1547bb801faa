/** Whole expressions and whole frames: the validator is exact, and remembered state slots never go stale. */
module ExprRun {
  import opened Bytes
  import opened ExprOps
  import opened ExprArithmetic
  import opened ExprEval

  datatype Progress =
    | Going(m: Machine, stack: seq<Int32>, caches: seq<Option<nat>>)
    | Faulted
    | Divided

  ghost predicate CachesOk(caches: seq<Option<nat>>) {
    forall i :: 0 <= i < |caches| ==> CacheOk(caches[i])
  }

  /** One more element of an expression. */
  function Advance(env: Env, p: Progress, e: Elem, cache: Option<nat>): (r: Progress)
    requires EnvOk(env) && CacheOk(cache)
    requires p.Going? ==> MachineOk(p.m) && |p.stack| <= STACK_SIZE && CachesOk(p.caches)
    ensures r.Going? ==> p.Going? && MachineOk(r.m) && |r.stack| <= STACK_SIZE && CachesOk(r.caches)
    ensures r.Going? ==> |r.caches| == |p.caches| + 1
  {
    if !p.Going? then p else
      match Exec(env, p.m, p.stack, e, cache)
      case Running(m, stack, c) => Going(m, stack, p.caches + [c])
      case DividedByZero => Divided
      case OutsideStack => Faulted
      case UnknownOp => Faulted
  }

  /** An expression from an empty stack; each element has its own remembered slot. */
  function Run(env: Env, m: Machine, es: seq<Elem>, caches: seq<Option<nat>>): (r: Progress)
    requires EnvOk(env) && MachineOk(m) && |caches| == |es| && CachesOk(caches)
    ensures r.Going? ==> MachineOk(r.m) && |r.stack| <= STACK_SIZE && |r.caches| == |es| && CachesOk(r.caches)
  {
    if es == [] then Going(m, [], []) else
      var n := |es| - 1;
      Advance(env, Run(env, m, es[..n], caches[..n]), es[n], caches[n])
  }

  lemma RunOfNone(env: Env, m: Machine)
    requires EnvOk(env) && MachineOk(m)
    ensures Run(env, m, [], []) == Going(m, [], [])
  {
  }

  function Top(stack: seq<Int32>): Int32 {
    if stack == [] then 0 else stack[|stack| - 1]
  }

  // ---- the validator is exact -------------------------------------------------------------------

  lemma ExecDepth(env: Env, m: Machine, stack: seq<Int32>, e: Elem, cache: Option<nat>)
    requires EnvOk(env) && MachineOk(m) && CacheOk(cache) && |stack| <= STACK_SIZE
    ensures var r := Exec(env, m, stack, e, cache);
            if DepthAfter(|stack|, e.op).None? then r.OutsideStack? || r.UnknownOp?
            else r.DividedByZero? || (r.Running? && |r.stack| == DepthAfter(|stack|, e.op).value)
  {
    if Known(e.op) {
      RuleIsExact(|stack|, e.op);
    }
  }

  /** Unless it divides by zero first, an expression runs to its end exactly when the validator accepts it, whatever
      it reads; and then its depth is the one the validator counted, at its end and so after every element. */
  lemma {:induction false} ValidatorIsExact(env: Env, m: Machine, es: seq<Elem>, caches: seq<Option<nat>>)
    requires EnvOk(env) && MachineOk(m) && |caches| == |es| && CachesOk(caches)
    ensures var r := Run(env, m, es, caches);
            && (Depth(es).Some? ==> !r.Faulted? && (r.Going? ==> |r.stack| == Depth(es).value))
            && (Depth(es).None? ==> !r.Going?)
  {
    if es != [] {
      var n := |es| - 1;
      ValidatorIsExact(env, m, es[..n], caches[..n]);
      var before := Run(env, m, es[..n], caches[..n]);
      if before.Going? {
        ExecDepth(env, before.m, before.stack, es[n], caches[n]);
      }
    }
  }

  // ---- static addresses ------------------------------------------------------------------------------

  /** Every operation that looks a state up, and every PORT, takes what the element before it pushed. */
  predicate Static(es: seq<Elem>) {
    forall i {:trigger es[i]} :: 0 <= i < |es| && (ReadsState(es[i].op) || es[i].op == PORT) ==>
      i > 0 && PushesLiteral(es[i - 1].op)
  }

  function Literal(e: Elem): Int32 {
    Wrap32(e.val)
  }

  /** The port register after such an expression. */
  function StaticPort(es: seq<Elem>, port: nat): nat {
    if es == [] then port
    else if es[|es| - 1].op == PORT && |es| > 1 then PortOf(Literal(es[|es| - 2]))
    else StaticPort(es[..|es| - 1], port)
  }

  /** The key that a state operation of such an expression looks up. */
  function StaticKey(es: seq<Elem>, port: nat, i: nat): Key
    requires 0 < i < |es|
  {
    Key(Unsigned32(Literal(es[i - 1])), StaticPort(es[..i], port), RawState(es[i].op))
  }

  /** Every remembered slot is the one its element's key has. */
  ghost predicate Fresh(slots: map<Key, nat>, es: seq<Elem>, port: nat, caches: seq<Option<nat>>)
    requires |caches| == |es|
  {
    forall i :: 0 <= i < |es| && caches[i].Some? ==>
      && i > 0 && ReadsState(es[i].op)
      && StaticKey(es, port, i) in slots && slots[StaticKey(es, port, i)] == caches[i].value
  }

  /** More slots may be given out; none is taken back. */
  ghost predicate Grows(before: map<Key, nat>, after: map<Key, nat>) {
    forall k :: k in before ==> k in after && after[k] == before[k]
  }

  function Nothing(n: nat): (r: seq<Option<nat>>)
    ensures |r| == n && CachesOk(r)
  {
    seq(n, _ => None)
  }

  lemma StaticPrefix(es: seq<Elem>, n: nat)
    requires n <= |es| && Static(es)
    ensures Static(es[..n])
  {
    forall i | 0 <= i < n && (ReadsState(es[..n][i].op) || es[..n][i].op == PORT)
      ensures i > 0 && PushesLiteral(es[..n][i - 1].op)
    {
      assert es[..n][i] == es[i];
    }
  }

  lemma FreshPrefix(slots: map<Key, nat>, es: seq<Elem>, port: nat, caches: seq<Option<nat>>, n: nat)
    requires |caches| == |es| && n <= |es| && Fresh(slots, es, port, caches)
    ensures Fresh(slots, es[..n], port, caches[..n])
  {
    forall i | 0 <= i < n && caches[..n][i].Some?
      ensures && i > 0 && ReadsState(es[..n][i].op)
              && StaticKey(es[..n], port, i) in slots && slots[StaticKey(es[..n], port, i)] == caches[..n][i].value
    {
      assert es[..n][..i] == es[..i];
    }
  }

  lemma FreshGrows(before: map<Key, nat>, after: map<Key, nat>, es: seq<Elem>, port: nat, caches: seq<Option<nat>>)
    requires |caches| == |es| && Fresh(before, es, port, caches) && Grows(before, after)
    ensures Fresh(after, es, port, caches)
  {
  }

  lemma FreshSnoc(slots: map<Key, nat>, es: seq<Elem>, port: nat, caches: seq<Option<nat>>, c: Option<nat>)
    requires |es| > 0 && |caches| == |es| - 1 && Fresh(slots, es[..|es| - 1], port, caches)
    requires var n := |es| - 1;
             c.Some? ==> n > 0 && ReadsState(es[n].op) && StaticKey(es, port, n) in slots
                         && slots[StaticKey(es, port, n)] == c.value
    ensures Fresh(slots, es, port, caches + [c])
  {
    var n := |es| - 1;
    forall i | 0 <= i < |es| && (caches + [c])[i].Some?
      ensures && i > 0 && ReadsState(es[i].op)
              && StaticKey(es, port, i) in slots && slots[StaticKey(es, port, i)] == (caches + [c])[i].value
    {
      if i < n {
        assert es[..n][..i] == es[..i];
        assert es[..n][i] == es[i];
      }
    }
  }

  /** What an element does to the port register, to literals on the stack, and to the slots. */
  lemma ExecStatic(env: Env, m: Machine, stack: seq<Int32>, e: Elem, cache: Option<nat>)
    requires EnvOk(env) && MachineOk(m) && CacheOk(cache) && |stack| <= STACK_SIZE
    ensures var r := Exec(env, m, stack, e, cache);
            r.Running? ==>
              && Grows(m.slots, r.m.slots)
              && (if e.op == PORT then stack != [] && r.m.port == PortOf(stack[|stack| - 1]) else r.m.port == m.port)
              && (PushesLiteral(e.op) ==> r.stack == stack + [Literal(e)])
  {
    hide Rewritten, Results, StateValue;
  }

  /** What a going expression has on top after a literal, and in its port register. */
  lemma {:induction false} StaticState(env: Env, m: Machine, es: seq<Elem>, caches: seq<Option<nat>>)
    requires EnvOk(env) && MachineOk(m) && |caches| == |es| && CachesOk(caches) && Static(es)
    ensures var r := Run(env, m, es, caches);
            r.Going? ==>
              && r.m.port == StaticPort(es, m.port)
              && (es != [] && PushesLiteral(es[|es| - 1].op) ==>
                    r.stack != [] && r.stack[|r.stack| - 1] == Literal(es[|es| - 1]))
              && Grows(m.slots, r.m.slots)
  {
    hide Exec;
    if es != [] {
      var n := |es| - 1;
      StaticPrefix(es, n);
      StaticState(env, m, es[..n], caches[..n]);
      var before := Run(env, m, es[..n], caches[..n]);
      if before.Going? {
        assert es[n].op == PORT ==> n > 0 && PushesLiteral(es[n - 1].op);
        ExecStatic(env, before.m, before.stack, es[n], caches[n]);
      }
    }
  }

  // ---- remembered slots are the ones a fresh look-up would find -------------------------------------

  /** The key an element of a going static expression looks up is its static one. */
  lemma RuntimeKeyIsStatic(env: Env, m: Machine, es: seq<Elem>, caches: seq<Option<nat>>)
    requires EnvOk(env) && MachineOk(m) && Static(es) && es != [] && |caches| == |es| - 1 && CachesOk(caches)
    requires ReadsState(es[|es| - 1].op)
    ensures |es| > 1
    ensures var n := |es| - 1;
            var r := Run(env, m, es[..n], caches);
            r.Going? ==> r.stack != [] && KeyFor(r.m, es[n].op, r.stack[|r.stack| - 1]) == StaticKey(es, m.port, n)
  {
    var n := |es| - 1;
    assert es[n] == es[|es| - 1];
    StaticPrefix(es, n);
    StaticState(env, m, es[..n], caches);
    assert es[..n][n - 1] == es[n - 1];
  }

  /** A slot that a fresh look-up would find may as well be remembered. */
  lemma ExecAgrees(env: Env, m: Machine, stack: seq<Int32>, e: Elem, cache: Option<nat>)
    requires EnvOk(env) && MachineOk(m) && CacheOk(cache) && |stack| <= STACK_SIZE
    requires cache.Some? ==> ReadsState(e.op)
    requires cache.Some? && stack != [] ==>
               var key := KeyFor(m, e.op, stack[|stack| - 1]); key in m.slots && m.slots[key] == cache.value
    ensures var r, d := Exec(env, m, stack, e, cache), Exec(env, m, stack, e, None);
            && (r.Running? <==> d.Running?) && (r.DividedByZero? <==> d.DividedByZero?)
            && (r.Running? ==> r.m == d.m && r.stack == d.stack && Grows(m.slots, r.m.slots))
            && (r.Running? && r.cache.Some? ==>
                  && ReadsState(e.op) && stack != []
                  && var key := KeyFor(m, e.op, stack[|stack| - 1]);
                     key in r.m.slots && r.m.slots[key] == r.cache.value)
  {
    if Known(e.op) && ReadsState(e.op) {
      if !LeavesStack(|stack|, e.op) {
        ExecReads(env, m, stack, e, cache);
        ExecReads(env, m, stack, e, None);
      }
    }
  }

  /** One more element of a static expression. */
  lemma AdvanceAgrees(env: Env, p: Progress, q: Progress, es: seq<Elem>, port: nat, cache: Option<nat>)
    requires EnvOk(env) && CacheOk(cache) && p.Going? && q.Going? && p.m == q.m && p.stack == q.stack
    requires MachineOk(p.m) && |p.stack| <= STACK_SIZE && CachesOk(p.caches) && CachesOk(q.caches)
    requires |es| == |p.caches| + 1 && Fresh(p.m.slots, es[..|es| - 1], port, p.caches)
    requires var n := |es| - 1;
             ReadsState(es[n].op) ==>
               n > 0 && p.stack != [] && KeyFor(p.m, es[n].op, Top(p.stack)) == StaticKey(es, port, n)
    requires var n := |es| - 1;
             cache.Some? ==> n > 0 && ReadsState(es[n].op)
                             && StaticKey(es, port, n) in p.m.slots && p.m.slots[StaticKey(es, port, n)] == cache.value
    ensures var e := es[|es| - 1];
            var r, d := Advance(env, p, e, cache), Advance(env, q, e, None);
            && (r.Going? <==> d.Going?) && (r.Divided? <==> d.Divided?)
            && (r.Going? ==> r.m == d.m && r.stack == d.stack && Fresh(r.m.slots, es, port, r.caches))
  {
    var e := es[|es| - 1];
    ExecAgrees(env, p.m, p.stack, e, cache);
    var after := Exec(env, p.m, p.stack, e, cache);
    if after.Running? {
      FreshGrows(p.m.slots, after.m.slots, es[..|es| - 1], port, p.caches);
      FreshSnoc(after.m.slots, es, port, p.caches, after.cache);
    }
  }

  /** An expression run with fresh remembered slots does what it does when it looks everything up, and leaves the
      slots it remembers fresh. */
  lemma {:induction false} RunAgrees(env: Env, m: Machine, es: seq<Elem>, caches: seq<Option<nat>>)
    requires EnvOk(env) && MachineOk(m) && |caches| == |es| && CachesOk(caches) && Static(es)
    requires Fresh(m.slots, es, m.port, caches)
    ensures var r, d := Run(env, m, es, caches), Run(env, m, es, Nothing(|es|));
            && (r.Going? <==> d.Going?) && (r.Divided? <==> d.Divided?)
            && (r.Going? ==> r.m == d.m && r.stack == d.stack && Fresh(r.m.slots, es, m.port, r.caches))
  {
    hide Exec;
    if es != [] {
      var n := |es| - 1;
      StaticPrefix(es, n);
      FreshPrefix(m.slots, es, m.port, caches, n);
      RunAgrees(env, m, es[..n], caches[..n]);
      assert Nothing(|es|)[..n] == Nothing(n) && Nothing(|es|)[n] == None;
      var p, q := Run(env, m, es[..n], caches[..n]), Run(env, m, es[..n], Nothing(n));
      if p.Going? {
        StaticState(env, m, es[..n], caches[..n]);
        if ReadsState(es[n].op) {
          RuntimeKeyIsStatic(env, m, es, caches[..n]);
        }
        AdvanceAgrees(env, p, q, es, m.port, caches[n]);
      }
    }
  }

  // ---- frames and reconfigurations ------------------------------------------------------------------------

  const EXPR_USAGE_PAGE: nat := 0xFFF30000

  /** An expression the validator accepted. */
  predicate Accepted(es: seq<Elem>) {
    Depth(es).Some?
  }

  /** The mapping's expressions and their remembered slots, an evaluation having met no division by zero. */
  datatype Frame = Done(m: Machine, caches: seq<seq<Option<nat>>>) | Stuck

  /** The value of expression number i, written to its usage's state, if that has a slot. */
  function WithResult(m: Machine, i: nat, value: Int32): (r: Machine)
    requires MachineOk(m)
    ensures MachineOk(r) && r.slots == m.slots && r.port == m.port
  {
    var key := Key((EXPR_USAGE_PAGE + i + 1) % TWO32, 0, false);
    if key in m.slots then m.(input := m.input[m.slots[key] := value]) else m
  }

  ghost predicate Matches(exprs: seq<seq<Elem>>, caches: seq<seq<Option<nat>>>) {
    |caches| == |exprs| && forall n :: 0 <= n < |exprs| ==> |caches[n]| == |exprs[n]| && CachesOk(caches[n])
  }

  /** One expression's turn; rejected ones are skipped and give zero. */
  function EvalOne(env: Env, m: Machine, i: nat, es: seq<Elem>, cache: seq<Option<nat>>): (r: Progress)
    requires EnvOk(env) && MachineOk(m) && |cache| == |es| && CachesOk(cache)
    ensures r.Going? ==> MachineOk(r.m) && |r.caches| == |es| && CachesOk(r.caches)
  {
    if !Accepted(es) then Going(WithResult(m, i, 0), [], cache)
    else
      match Run(env, m, es, cache)
      case Going(m', stack, cache') => Going(WithResult(m', i, Top(stack)), stack, cache')
      case Faulted => Faulted
      case Divided => Divided
  }

  /** All expressions in turn, the port register starting at zero. */
  function EvalAll(env: Env, m: Machine, exprs: seq<seq<Elem>>, caches: seq<seq<Option<nat>>>): (r: Frame)
    requires EnvOk(env) && MachineOk(m) && Matches(exprs, caches)
    ensures r.Done? ==> MachineOk(r.m) && Matches(exprs, r.caches)
  {
    if exprs == [] then Done(m.(port := 0), []) else
      var n := |exprs| - 1;
      match EvalAll(env, m, exprs[..n], caches[..n])
      case Stuck => Stuck
      case Done(m', done) =>
        match EvalOne(env, m', n, exprs[n], caches[n])
        case Going(m'', _, cache) => Done(m'', done + [cache])
        case Faulted => Stuck
        case Divided => Stuck
  }

  /** The port register before expression number |exprs|. */
  function PortBefore(exprs: seq<seq<Elem>>): nat {
    if exprs == [] then 0 else
      var n := |exprs| - 1;
      if Accepted(exprs[n]) then StaticPort(exprs[n], PortBefore(exprs[..n])) else PortBefore(exprs[..n])
  }

  ghost predicate AllStatic(exprs: seq<seq<Elem>>) {
    forall n :: 0 <= n < |exprs| && Accepted(exprs[n]) ==> Static(exprs[n])
  }

  ghost predicate AllFresh(slots: map<Key, nat>, exprs: seq<seq<Elem>>, caches: seq<seq<Option<nat>>>)
    requires Matches(exprs, caches)
  {
    forall n :: 0 <= n < |exprs| && Accepted(exprs[n]) ==> Fresh(slots, exprs[n], PortBefore(exprs[..n]), caches[n])
  }

  function AllNothing(exprs: seq<seq<Elem>>): (r: seq<seq<Option<nat>>>)
    ensures Matches(exprs, r)
  {
    seq(|exprs|, n requires 0 <= n < |exprs| => Nothing(|exprs[n]|))
  }

  lemma AllFreshPrefix(slots: map<Key, nat>, exprs: seq<seq<Elem>>, caches: seq<seq<Option<nat>>>, k: nat)
    requires Matches(exprs, caches) && k <= |exprs| && AllFresh(slots, exprs, caches)
    ensures Matches(exprs[..k], caches[..k]) && AllFresh(slots, exprs[..k], caches[..k])
  {
    forall n | 0 <= n < k && Accepted(exprs[..k][n])
      ensures Fresh(slots, exprs[..k][n], PortBefore(exprs[..k][..n]), caches[..k][n])
    {
      assert exprs[..k][..n] == exprs[..n];
    }
  }

  lemma AllFreshGrows(before: map<Key, nat>, after: map<Key, nat>, exprs: seq<seq<Elem>>, caches: seq<seq<Option<nat>>>)
    requires Matches(exprs, caches) && AllFresh(before, exprs, caches) && Grows(before, after)
    ensures AllFresh(after, exprs, caches)
  {
    forall n | 0 <= n < |exprs| && Accepted(exprs[n])
      ensures Fresh(after, exprs[n], PortBefore(exprs[..n]), caches[n])
    {
      FreshGrows(before, after, exprs[n], PortBefore(exprs[..n]), caches[n]);
    }
  }

  lemma AllFreshSnoc(slots: map<Key, nat>, exprs: seq<seq<Elem>>, caches: seq<seq<Option<nat>>>,
                     cache: seq<Option<nat>>)
    requires exprs != [] && Matches(exprs[..|exprs| - 1], caches) && AllFresh(slots, exprs[..|exprs| - 1], caches)
    requires var n := |exprs| - 1;
             && |cache| == |exprs[n]| && CachesOk(cache)
             && (Accepted(exprs[n]) ==> Fresh(slots, exprs[n], PortBefore(exprs[..n]), cache))
    ensures Matches(exprs, caches + [cache]) && AllFresh(slots, exprs, caches + [cache])
  {
    var k := |exprs| - 1;
    forall n | 0 <= n < |exprs|
      ensures var c := (caches + [cache])[n];
              && |c| == |exprs[n]| && CachesOk(c)
              && (Accepted(exprs[n]) ==> Fresh(slots, exprs[n], PortBefore(exprs[..n]), c))
    {
      if n < k {
        assert exprs[..k][n] == exprs[n] && exprs[..k][..n] == exprs[..n];
      }
    }
  }

  /** One expression's turn agrees, as its run does. */
  lemma EvalOneAgrees(env: Env, m: Machine, i: nat, es: seq<Elem>, cache: seq<Option<nat>>)
    requires EnvOk(env) && MachineOk(m) && |cache| == |es| && CachesOk(cache)
    requires Accepted(es) ==> Static(es) && Fresh(m.slots, es, m.port, cache)
    ensures var r, d := EvalOne(env, m, i, es, cache), EvalOne(env, m, i, es, Nothing(|es|));
            && (r.Going? <==> d.Going?)
            && (r.Going? ==>
                  && r.m == d.m && Grows(m.slots, r.m.slots)
                  && r.m.port == (if Accepted(es) then StaticPort(es, m.port) else m.port)
                  && (Accepted(es) ==> Fresh(r.m.slots, es, m.port, r.caches)))
  {
    if Accepted(es) {
      RunAgrees(env, m, es, cache);
      StaticState(env, m, es, cache);
    }
  }

  /** A frame agrees, and leaves the remembered slots fresh. */
  lemma {:induction false} EvalAllAgrees(env: Env, m: Machine, exprs: seq<seq<Elem>>, caches: seq<seq<Option<nat>>>)
    requires EnvOk(env) && MachineOk(m) && Matches(exprs, caches) && AllStatic(exprs)
    requires AllFresh(m.slots, exprs, caches)
    ensures var r, d := EvalAll(env, m, exprs, caches), EvalAll(env, m, exprs, AllNothing(exprs));
            && (r.Done? <==> d.Done?)
            && (r.Done? ==>
                  && r.m == d.m && Grows(m.slots, r.m.slots) && r.m.port == PortBefore(exprs)
                  && AllFresh(r.m.slots, exprs, r.caches))
  {
    hide Fresh, EvalOne;
    if exprs != [] {
      var n := |exprs| - 1;
      AllFreshPrefix(m.slots, exprs, caches, n);
      assert AllStatic(exprs[..n]) by {
        assert forall k :: 0 <= k < n ==> exprs[..n][k] == exprs[k];
      }
      EvalAllAgrees(env, m, exprs[..n], caches[..n]);
      assert AllNothing(exprs)[..n] == AllNothing(exprs[..n]);
      var before := EvalAll(env, m, exprs[..n], caches[..n]);
      if before.Done? {
        if Accepted(exprs[n]) {
          FreshGrows(m.slots, before.m.slots, exprs[n], PortBefore(exprs[..n]), caches[n]);
        }
        EvalOneAgrees(env, before.m, n, exprs[n], caches[n]);
        var after := EvalOne(env, before.m, n, exprs[n], caches[n]);
        if after.Going? {
          AllFreshGrows(before.m.slots, after.m.slots, exprs[..n], before.caches);
          AllFreshSnoc(after.m.slots, exprs, before.caches, after.caches);
        }
      }
    }
  }
}
