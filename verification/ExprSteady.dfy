/** Remembered state slots once more: an address need not be a literal. It is enough that an element, whatever
    computes its address, looks the same usage up in every frame. */
module ExprSteady {
  import opened Bytes
  import opened ExprOps
  import opened ExprArithmetic
  import opened ExprEval
  import opened ExprRun
  import opened ExprCache

  // ---- one expression -------------------------------------------------------------------------------

  /** Every remembered slot is its element's key's. */
  ghost predicate Keeps(slots: map<Key, nat>, es: seq<Elem>, caches: seq<Option<nat>>, keys: seq<Key>) {
    && |caches| == |keys| == |es|
    && forall i :: 0 <= i < |es| && caches[i].Some? ==>
         ReadsState(es[i].op) && keys[i] in slots && slots[keys[i]] == caches[i].value
  }

  /** Every state operation that is reached looks its element's key up. */
  ghost predicate Keyed(env: Env, m: Machine, es: seq<Elem>, caches: seq<Option<nat>>, keys: seq<Key>)
    requires EnvOk(env) && MachineOk(m) && |caches| == |keys| == |es| && CachesOk(caches)
  {
    es == [] ||
    var n := |es| - 1;
    var p := Run(env, m, es[..n], caches[..n]);
    && Keyed(env, m, es[..n], caches[..n], keys[..n])
    && (p.Going? && ReadsState(es[n].op) && p.stack != [] ==> KeyFor(p.m, es[n].op, Top(p.stack)) == keys[n])
  }

  lemma KeepsPrefix(slots: map<Key, nat>, es: seq<Elem>, caches: seq<Option<nat>>, keys: seq<Key>, n: nat)
    requires Keeps(slots, es, caches, keys) && n <= |es|
    ensures Keeps(slots, es[..n], caches[..n], keys[..n])
  {
  }

  lemma KeepsGrows(before: map<Key, nat>, after: map<Key, nat>, es: seq<Elem>, caches: seq<Option<nat>>, keys: seq<Key>)
    requires Keeps(before, es, caches, keys) && Grows(before, after)
    ensures Keeps(after, es, caches, keys)
  {
  }

  lemma KeepsSnoc(slots: map<Key, nat>, es: seq<Elem>, caches: seq<Option<nat>>, keys: seq<Key>, c: Option<nat>)
    requires |es| == |keys| > 0 && Keeps(slots, es[..|es| - 1], caches, keys[..|es| - 1])
    requires c.Some? ==> var n := |es| - 1; ReadsState(es[n].op) && keys[n] in slots && slots[keys[n]] == c.value
    ensures Keeps(slots, es, caches + [c], keys)
  {
    var n := |es| - 1;
    forall i | 0 <= i < n && caches[i].Some?
      ensures ReadsState(es[i].op) && keys[i] in slots && slots[keys[i]] == caches[i].value
    {
      assert es[..n][i] == es[i] && keys[..n][i] == keys[i];
    }
  }

  lemma AdvanceKeyed(env: Env, p: Progress, q: Progress, es: seq<Elem>, keys: seq<Key>, cache: Option<nat>)
    requires EnvOk(env) && CacheOk(cache) && p.Going? && q.Going? && p.m == q.m && p.stack == q.stack
    requires MachineOk(p.m) && |p.stack| <= STACK_SIZE && CachesOk(p.caches) && CachesOk(q.caches)
    requires |es| == |keys| == |p.caches| + 1 && Keeps(p.m.slots, es[..|es| - 1], p.caches, keys[..|es| - 1])
    requires var n := |es| - 1;
             && (ReadsState(es[n].op) && p.stack != [] ==> KeyFor(p.m, es[n].op, Top(p.stack)) == keys[n])
             && (cache.Some? ==> ReadsState(es[n].op) && keys[n] in p.m.slots && p.m.slots[keys[n]] == cache.value)
    ensures var e := es[|es| - 1];
            var r, d := Advance(env, p, e, cache), Advance(env, q, e, None);
            && (r.Going? <==> d.Going?)
            && (r.Going? ==> r.m == d.m && r.stack == d.stack && Grows(p.m.slots, r.m.slots)
                             && Keeps(r.m.slots, es, r.caches, keys))
  {
    hide Exec, Keeps;
    var e := es[|es| - 1];
    ExecAgrees(env, p.m, p.stack, e, cache);
    var after := Exec(env, p.m, p.stack, e, cache);
    if after.Running? {
      KeepsGrows(p.m.slots, after.m.slots, es[..|es| - 1], p.caches, keys[..|es| - 1]);
      KeepsSnoc(after.m.slots, es, p.caches, keys, after.cache);
    }
  }

  /** An expression whose elements look their keys up does with memory what it does without. */
  lemma {:induction false} KeyedRunAgrees(env: Env, m: Machine, es: seq<Elem>, caches: seq<Option<nat>>, keys: seq<Key>)
    requires EnvOk(env) && MachineOk(m) && |caches| == |keys| == |es| && CachesOk(caches)
    requires Keeps(m.slots, es, caches, keys) && Keyed(env, m, es, caches, keys)
    ensures var r, d := Run(env, m, es, caches), Run(env, m, es, Nothing(|es|));
            && (r.Going? <==> d.Going?)
            && (r.Going? ==> r.m == d.m && r.stack == d.stack && Grows(m.slots, r.m.slots)
                             && Keeps(r.m.slots, es, r.caches, keys))
  {
    hide Exec, Advance;
    if es != [] {
      var n := |es| - 1;
      KeepsPrefix(m.slots, es, caches, keys, n);
      KeyedRunAgrees(env, m, es[..n], caches[..n], keys[..n]);
      assert Nothing(|es|)[..n] == Nothing(n) && Nothing(|es|)[n] == None;
      var p, q := Run(env, m, es[..n], caches[..n]), Run(env, m, es[..n], Nothing(n));
      if p.Going? {
        AdvanceKeyed(env, p, q, es, keys, caches[n]);
      } else {
        Stopped(env, p, es[n], caches[n]);
        Stopped(env, q, es[n], None);
      }
    }
  }

  lemma Stopped(env: Env, p: Progress, e: Elem, cache: Option<nat>)
    requires EnvOk(env) && CacheOk(cache) && !p.Going?
    ensures !Advance(env, p, e, cache).Going?
  {
  }

  /** Literal addresses are such: their keys are the ones the text tells. */
  lemma {:induction false} StaticIsKeyed(env: Env, m: Machine, es: seq<Elem>, caches: seq<Option<nat>>, keys: seq<Key>)
    requires EnvOk(env) && MachineOk(m) && |caches| == |keys| == |es| && CachesOk(caches) && Static(es)
    requires forall i :: 0 < i < |es| ==> keys[i] == StaticKey(es, m.port, i)
    ensures Keyed(env, m, es, caches, keys)
  {
    hide Run;
    if es != [] {
      var n := |es| - 1;
      StaticPrefix(es, n);
      forall i | 0 < i < n
        ensures keys[..n][i] == StaticKey(es[..n], m.port, i)
      {
        assert es[..n][..i] == es[..i];
      }
      StaticIsKeyed(env, m, es[..n], caches[..n], keys[..n]);
      if ReadsState(es[n].op) {
        RuntimeKeyIsStatic(env, m, es, caches[..n]);
      }
    }
  }

  // ---- all expressions of a frame ---------------------------------------------------------------------

  ghost predicate AllKeep(slots: map<Key, nat>, exprs: seq<seq<Elem>>, caches: seq<seq<Option<nat>>>,
                          keys: seq<seq<Key>>) {
    |caches| == |keys| == |exprs| && forall n :: 0 <= n < |exprs| ==> Keeps(slots, exprs[n], caches[n], keys[n])
  }

  ghost predicate AllKeyed(env: Env, m: Machine, exprs: seq<seq<Elem>>, caches: seq<seq<Option<nat>>>,
                           keys: seq<seq<Key>>)
    requires EnvOk(env) && MachineOk(m) && Matches(exprs, caches)
  {
    |keys| == |exprs| &&
    (exprs == [] ||
     var n := |exprs| - 1;
     var before := EvalAll(env, m, exprs[..n], caches[..n]);
     && AllKeyed(env, m, exprs[..n], caches[..n], keys[..n])
     && |keys[n]| == |exprs[n]|
     && (before.Done? && Accepted(exprs[n]) ==> Keyed(env, before.m, exprs[n], caches[n], keys[n])))
  }

  lemma AllKeepGrows(before: map<Key, nat>, after: map<Key, nat>, exprs: seq<seq<Elem>>,
                     caches: seq<seq<Option<nat>>>, keys: seq<seq<Key>>)
    requires AllKeep(before, exprs, caches, keys) && Grows(before, after)
    ensures AllKeep(after, exprs, caches, keys)
  {
    forall n | 0 <= n < |exprs|
      ensures Keeps(after, exprs[n], caches[n], keys[n])
    {
      KeepsGrows(before, after, exprs[n], caches[n], keys[n]);
    }
  }

  lemma AllKeepSnoc(slots: map<Key, nat>, exprs: seq<seq<Elem>>, caches: seq<seq<Option<nat>>>, keys: seq<seq<Key>>,
                    cache: seq<Option<nat>>)
    requires |exprs| == |keys| > 0
    requires var n := |exprs| - 1;
             AllKeep(slots, exprs[..n], caches, keys[..n]) && Keeps(slots, exprs[n], cache, keys[n])
    ensures AllKeep(slots, exprs, caches + [cache], keys)
  {
    hide Keeps;
    var k := |exprs| - 1;
    forall n | 0 <= n < k
      ensures Keeps(slots, exprs[n], caches[n], keys[n])
    {
      assert exprs[..k][n] == exprs[n] && keys[..k][n] == keys[n];
    }
  }

  lemma AllKeepParts(slots: map<Key, nat>, exprs: seq<seq<Elem>>, caches: seq<seq<Option<nat>>>, keys: seq<seq<Key>>)
    requires exprs != [] && AllKeep(slots, exprs, caches, keys)
    ensures var n := |exprs| - 1;
            AllKeep(slots, exprs[..n], caches[..n], keys[..n]) && Keeps(slots, exprs[n], caches[n], keys[n])
  {
    hide Keeps;
  }

  lemma KeyedOneAgrees(env: Env, m: Machine, i: nat, es: seq<Elem>, cache: seq<Option<nat>>, keys: seq<Key>)
    requires EnvOk(env) && MachineOk(m) && |cache| == |keys| == |es| && CachesOk(cache)
    requires Keeps(m.slots, es, cache, keys) && (Accepted(es) ==> Keyed(env, m, es, cache, keys))
    ensures var r, d := EvalOne(env, m, i, es, cache), EvalOne(env, m, i, es, Nothing(|es|));
            && (r.Going? <==> d.Going?)
            && (r.Going? ==> r.m == d.m && Grows(m.slots, r.m.slots) && Keeps(r.m.slots, es, r.caches, keys))
  {
    hide Run, Keyed;
    if Accepted(es) {
      KeyedRunAgrees(env, m, es, cache, keys);
    }
  }

  lemma {:induction false} KeyedFrameAgrees(env: Env, m: Machine, exprs: seq<seq<Elem>>, caches: seq<seq<Option<nat>>>,
                                            keys: seq<seq<Key>>)
    requires EnvOk(env) && MachineOk(m) && Matches(exprs, caches)
    requires AllKeep(m.slots, exprs, caches, keys) && AllKeyed(env, m, exprs, caches, keys)
    ensures var r, d := EvalAll(env, m, exprs, caches), EvalAll(env, m, exprs, AllNothing(exprs));
            && (r.Done? <==> d.Done?)
            && (r.Done? ==> r.m == d.m && Grows(m.slots, r.m.slots) && AllKeep(r.m.slots, exprs, r.caches, keys))
  {
    if exprs == [] {
    } else {
      hide Keeps, Keyed, EvalOne, AllKeep;
      var n := |exprs| - 1;
      AllKeepParts(m.slots, exprs, caches, keys);
      KeyedFrameAgrees(env, m, exprs[..n], caches[..n], keys[..n]);
      assert AllNothing(exprs)[..n] == AllNothing(exprs[..n]);
      var before := EvalAll(env, m, exprs[..n], caches[..n]);
      if before.Done? {
        KeepsGrows(m.slots, before.m.slots, exprs[n], caches[n], keys[n]);
        KeyedOneAgrees(env, before.m, n, exprs[n], caches[n], keys[n]);
        var after := EvalOne(env, before.m, n, exprs[n], caches[n]);
        if after.Going? {
          AllKeepGrows(before.m.slots, after.m.slots, exprs[..n], before.caches, keys[..n]);
          AllKeepSnoc(after.m.slots, exprs, before.caches, keys, after.caches);
        }
      }
    }
  }

  // ---- runs -----------------------------------------------------------------------------------------------

  /** The keys of the elements, after so many events of a run. */
  type Plan = nat -> seq<seq<Key>>

  ghost predicate SameShape(exprs: seq<seq<Elem>>, keys: seq<seq<Key>>) {
    |keys| == |exprs| && forall n :: 0 <= n < |exprs| ==> |keys[n]| == |exprs[n]|
  }

  /** What the event must keep to: in a frame, every state operation that is reached looks its element's key up, and
      keys change with a configuration only. */
  ghost predicate StepSteady(s: Engine, e: Event, keys: seq<seq<Key>>, next: seq<seq<Key>>)
    requires EngineOk(s)
  {
    var happens := !s.stuck && Possible(s, e);
    && (happens && e.Mapping? ==> AllKeyed(e.env, s.m, s.exprs, s.caches, keys))
    && (if happens && e.Configure? then SameShape(e.exprs, next) else next == keys)
  }

  ghost predicate Steady(start: Engine, es: seq<Event>, plan: Plan)
    requires EngineOk(start)
  {
    if es == [] then SameShape(start.exprs, plan(0)) else
      var n := |es| - 1;
      Steady(start, es[..n], plan) && StepSteady(After(start, es[..n], true), es[n], plan(n), plan(n + 1))
  }

  ghost predicate Alike(s: Engine, t: Engine, keys: seq<seq<Key>>)
    requires EngineOk(s) && EngineOk(t)
  {
    s.m == t.m && s.exprs == t.exprs && s.stuck == t.stuck && AllKeep(s.m.slots, s.exprs, s.caches, keys)
  }

  lemma NothingKeeps(slots: map<Key, nat>, exprs: seq<seq<Elem>>, keys: seq<seq<Key>>)
    requires SameShape(exprs, keys)
    ensures AllKeep(slots, exprs, AllNothing(exprs), keys)
  {
  }

  lemma StepAlike(s: Engine, t: Engine, e: Event, keys: seq<seq<Key>>, next: seq<seq<Key>>)
    requires EngineOk(s) && EngineOk(t) && Alike(s, t, keys) && !s.stuck && Possible(s, e)
    requires StepSteady(s, e, keys, next)
    ensures Possible(t, e) && Alike(Step(s, e, true), Step(t, e, false), next)
  {
    hide AllKeyed, AllKeep, EvalAll;
    match e
    case Mapping(env) => KeyedFrameAgrees(env, s.m, s.exprs, s.caches, keys);
    case Between(m) => AllKeepGrows(s.m.slots, m.slots, s.exprs, s.caches, keys);
    case Configure(exprs, m) => NothingKeeps(m.slots, exprs, next);
  }

  /** Over any run in which every element goes on looking the same key up until the next configuration, whatever
      computes its address, remembering slots changes nothing. */
  lemma {:induction false} SteadyIsTransparent(start: Engine, es: seq<Event>, plan: Plan)
    requires EngineOk(start) && start.caches == AllNothing(start.exprs) && Steady(start, es, plan)
    ensures Alike(After(start, es, true), After(start, es, false), plan(|es|))
  {
    hide StepSteady, AllKeep, Step;
    if es == [] {
      NothingKeeps(start.m.slots, start.exprs, plan(0));
    } else {
      var n := |es| - 1;
      SteadyIsTransparent(start, es[..n], plan);
      var s, t := After(start, es[..n], true), After(start, es[..n], false);
      if !s.stuck && Possible(s, es[n]) {
        StepAlike(s, t, es[n], plan(n), plan(n + 1));
      } else {
        KeysStay(s, es[n], plan(n), plan(n + 1));
        assert Possible(s, es[n]) <==> Possible(t, es[n]);
      }
    }
  }

  lemma KeysStay(s: Engine, e: Event, keys: seq<seq<Key>>, next: seq<seq<Key>>)
    requires EngineOk(s) && StepSteady(s, e, keys, next) && (s.stuck || !Possible(s, e))
    ensures next == keys
  {
  }
}
