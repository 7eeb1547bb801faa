/** Runs of the mapping engine, with and without remembered state slots. */
module ExprCache {
  import opened Bytes
  import opened ExprOps
  import opened ExprArithmetic
  import opened ExprEval
  import opened ExprRun

  /** A frame evaluates all expressions; between frames inputs change and slots may be given out; a new
      configuration replaces expressions and slots, and forgets what was remembered. */
  datatype Event =
    | Mapping(env: Env)
    | Between(m: Machine)
    | Configure(exprs: seq<seq<Elem>>, m: Machine)

  datatype Engine = Engine(m: Machine, exprs: seq<seq<Elem>>, caches: seq<seq<Option<nat>>>, stuck: bool)

  ghost predicate EngineOk(s: Engine) {
    MachineOk(s.m) && Matches(s.exprs, s.caches)
  }

  ghost predicate Possible(s: Engine, e: Event) {
    match e
    case Mapping(env) => EnvOk(env)
    case Between(m) => MachineOk(m) && Grows(s.m.slots, m.slots)
    case Configure(_, m) => MachineOk(m)
  }

  /** One event; without memory, every look-up is made afresh. */
  function Step(s: Engine, e: Event, remembering: bool): (r: Engine)
    requires EngineOk(s) && Possible(s, e)
    ensures EngineOk(r)
  {
    match e
    case Mapping(env) =>
      (match EvalAll(env, s.m, s.exprs, if remembering then s.caches else AllNothing(s.exprs))
       case Stuck => s.(stuck := true)
       case Done(m, caches) => s.(m := m, caches := caches))
    case Between(m) => s.(m := m)
    case Configure(exprs, m) => Engine(m, exprs, AllNothing(exprs), false)
  }

  /** A run from a configuration; it stops for good at a division by zero, and impossible events do nothing. */
  ghost function After(start: Engine, es: seq<Event>, remembering: bool): (r: Engine)
    requires EngineOk(start)
    ensures EngineOk(r)
  {
    if es == [] then start else
      var s, e := After(start, es[..|es| - 1], remembering), es[|es| - 1];
      if !s.stuck && Possible(s, e) then Step(s, e, remembering) else s
  }

  ghost predicate Transparent(s: Engine, t: Engine)
    requires EngineOk(s) && EngineOk(t)
  {
    && s.m == t.m && s.exprs == t.exprs && s.stuck == t.stuck
    && AllStatic(s.exprs) && AllFresh(s.m.slots, s.exprs, s.caches)
  }

  lemma StepTransparent(s: Engine, t: Engine, e: Event)
    requires EngineOk(s) && EngineOk(t) && Transparent(s, t) && Possible(s, e)
    requires e.Configure? ==> AllStatic(e.exprs)
    ensures Possible(t, e) && Transparent(Step(s, e, true), Step(t, e, false))
  {
    match e
    case Mapping(env) => EvalAllAgrees(env, s.m, s.exprs, s.caches);
    case Between(m) => AllFreshGrows(s.m.slots, m.slots, s.exprs, s.caches);
    case Configure(exprs, m) =>
  }

  /** Whenever all addresses are literals, remembering state slots changes nothing: over any run of frames, input
      changes and reconfigurations, every expression gives what fresh look-ups give, and whatever is remembered is
      what a fresh look-up would find. */
  lemma {:induction false} RememberingIsTransparent(start: Engine, es: seq<Event>)
    requires EngineOk(start) && AllStatic(start.exprs) && start.caches == AllNothing(start.exprs)
    requires forall e :: e in es && e.Configure? ==> AllStatic(e.exprs)
    ensures Transparent(After(start, es, true), After(start, es, false))
  {
    if es != [] {
      var n := |es| - 1;
      RememberingIsTransparent(start, es[..n]);
      var s, t := After(start, es[..n], true), After(start, es[..n], false);
      if !s.stuck && Possible(s, es[n]) {
        StepTransparent(s, t, es[n]);
      }
    }
  }

  // ---- an address that is not a literal ------------------------------------------------------------

  /** The state of usage 0 or 1000, as auto-repeat goes. */
  predicate AutoRepeatedState(es: seq<Elem>) {
    |es| == 2 && es[0].op == AUTO_REPEAT && es[1].op == INPUT_STATE_SCALED
  }

  lemma RunSnoc(env: Env, m: Machine, es: seq<Elem>, caches: seq<Option<nat>>, e: Elem, c: Option<nat>)
    requires EnvOk(env) && MachineOk(m) && |caches| == |es| && CachesOk(caches) && CacheOk(c)
    ensures Run(env, m, es + [e], caches + [c]) == Advance(env, Run(env, m, es, caches), e, c)
  {
    assert (es + [e])[..|es|] == es && (caches + [c])[..|es|] == caches;
  }

  function StateAt(input: seq<Int32>, slot: nat): Int32
    requires slot < |input|
  {
    var x: int := input[slot];
    Wrap32(x * 1000)
  }

  /** Reading a state, on an address that is on the stack. */
  lemma ReadAt(env: Env, m: Machine, address: Int32, e: Elem, c: Option<nat>, slot: nat)
    requires EnvOk(env) && MachineOk(m) && CacheOk(c) && e.op == INPUT_STATE_SCALED && slot < MAX_INPUT_STATES
    requires Find(m, KeyFor(m, e.op, address), c) == (m, Some(slot))
    ensures Exec(env, m, [address], e, c) == Running(m, [StateAt(m.input, slot)], Some(slot))
  {
    RuleIsExact(1, e.op);
    ExecReads(env, m, [address], e, c);
    assert [address][..0] + [StateAt(m.input, slot)] == [StateAt(m.input, slot)];
  }

  lemma PushAutoRepeat(env: Env, m: Machine, e: Elem)
    requires EnvOk(env) && MachineOk(m) && e.op == AUTO_REPEAT
    ensures Advance(env, Going(m, [], []), e, None) == Going(m, [Truth(env.autoRepeat)], [None])
  {
    RuleIsExact(0, e.op);
    var empty: seq<Int32> := [];
    assert empty[..0] + [Truth(env.autoRepeat)] == [Truth(env.autoRepeat)];
  }

  lemma RunOfTwo(env: Env, m: Machine, es: seq<Elem>, c: Option<nat>)
    requires EnvOk(env) && MachineOk(m) && CacheOk(c) && |es| == 2
    ensures Run(env, m, es, [None, c]) == Advance(env, Advance(env, Going(m, [], []), es[0], None), es[1], c)
  {
    hide Run, Advance;
    var none: seq<Option<nat>> := [];
    RunOfNone(env, m);
    RunSnoc(env, m, [], none, es[0], None);
    assert [] + [es[0]] == [es[0]] && none + [None] == [None];
    RunSnoc(env, m, [es[0]], [None], es[1], c);
    assert [es[0]] + [es[1]] == es && [None] + [c] == [None, c];
  }

  /** Literal addresses are needed. Such an expression is accepted all the same (below), and it reads usage 0 or 1000,
      as auto-repeat goes, when it looks the usage up; but once it has remembered a slot it reads that one, whatever
      auto-repeat says. */
  lemma OtherAddressesGoStale(env: Env, m: Machine, es: seq<Elem>, c: Option<nat>)
    requires EnvOk(env) && MachineOk(m) && m.port == 0 && CacheOk(c) && AutoRepeatedState(es)
    requires Key(0, 0, false) in m.slots && Key(1000, 0, false) in m.slots
    ensures var slot := if c.Some? then c.value else m.slots[Key(Truth(env.autoRepeat), 0, false)];
            Run(env, m, es, [None, c]) == Going(m, [StateAt(m.input, slot)], [None, Some(slot)])
  {
    RunOfTwo(env, m, es, c);
    PushAutoRepeat(env, m, es[0]);
    ReadAt(env, m, Truth(env.autoRepeat), es[1], c,
           if c.Some? then c.value else m.slots[Key(Truth(env.autoRepeat), 0, false)]);
  }

  lemma DepthSnoc(es: seq<Elem>, e: Elem)
    requires Depth(es).Some?
    ensures Depth(es + [e]) == DepthAfter(Depth(es).value, e.op)
  {
    assert (es + [e])[..|es|] == es;
  }

  /** The validator looks at depths only. */
  lemma AutoRepeatedStateIsAccepted(es: seq<Elem>)
    requires AutoRepeatedState(es)
    ensures Accepted(es) && !Static(es)
  {
    DepthSnoc([], es[0]);
    assert [] + [es[0]] == [es[0]];
    DepthSnoc([es[0]], es[1]);
    assert [es[0]] + [es[1]] == es;
    assert ReadsState(es[1].op) && !PushesLiteral(es[0].op);
  }

  /** A frame over that expression alone. */
  lemma FrameOfOne(env: Env, m: Machine, es: seq<Elem>, c: Option<nat>)
    requires EnvOk(env) && MachineOk(m) && CacheOk(c) && AutoRepeatedState(es)
    requires Key(0, 0, false) in m.slots && Key(1000, 0, false) in m.slots
    ensures var slot := if c.Some? then c.value else m.slots[Key(Truth(env.autoRepeat), 0, false)];
            EvalAll(env, m, [es], [[None, c]])
            == Done(WithResult(m.(port := 0), 0, StateAt(m.input, slot)), [[None, Some(slot)]])
  {
    hide Run;
    OtherAddressesGoStale(env, m.(port := 0), es, c);
    AutoRepeatedStateIsAccepted(es);
    var none: seq<seq<Option<nat>>> := [];
    assert [es][..0] == [] && [[None, c]][..0] == none;
    assert EvalAll(env, m, [], none) == Done(m.(port := 0), none);
    assert none + [[None, if c.Some? then c else Some(m.slots[Key(Truth(env.autoRepeat), 0, false)])]]
        == [[None, if c.Some? then c else Some(m.slots[Key(Truth(env.autoRepeat), 0, false)])]];
  }

  lemma AfterTwo(start: Engine, e: Event, f: Event, remembering: bool)
    requires EngineOk(start) && !start.stuck && Possible(start, e)
    requires var s := Step(start, e, remembering); !s.stuck && Possible(s, f)
    ensures After(start, [e, f], remembering) == Step(Step(start, e, remembering), f, remembering)
  {
    hide Step;
    assert [e, f][..1] == [e] && [e][..0] == [];
    assert After(start, [e], remembering) == Step(start, e, remembering);
  }

  lemma NothingForOne(es: seq<Elem>)
    requires |es| == 2
    ensures AllNothing([es]) == [[None, None]]
  {
    assert AllNothing([es])[0] == [None, None];
  }

  /** The result shows at its slot and nowhere else. */
  lemma ResultWritten(m: Machine, value: Int32)
    requires MachineOk(m) && Key(EXPR_USAGE_PAGE + 1, 0, false) in m.slots
    ensures var r, at := WithResult(m, 0, value), m.slots[Key(EXPR_USAGE_PAGE + 1, 0, false)];
            && r == m.(input := r.input) && r.input[at] == value
            && forall i :: 0 <= i < |m.input| && i != at ==> r.input[i] == m.input[i]
  {
  }

  /** Two frames, auto-repeat off and then on, over an accepted expression with such an address: with memory it goes on
      giving the state of usage 0, without it gives that of usage 1000. */
  lemma MemoryShows(off: Env, on: Env, m: Machine, es: seq<Elem>)
    requires EnvOk(off) && EnvOk(on) && MachineOk(m) && AutoRepeatedState(es) && !off.autoRepeat && on.autoRepeat
    requires Key(0, 0, false) in m.slots && Key(1000, 0, false) in m.slots
             && Key(EXPR_USAGE_PAGE + 1, 0, false) in m.slots
    requires var x, y := m.slots[Key(0, 0, false)], m.slots[Key(1000, 0, false)];
             var out := m.slots[Key(EXPR_USAGE_PAGE + 1, 0, false)];
             out != x && out != y && StateAt(m.input, x) != StateAt(m.input, y)
    ensures var start, frames := Engine(m, [es], AllNothing([es]), false), [Mapping(off), Mapping(on)];
            EngineOk(start) && After(start, frames, true).m != After(start, frames, false).m
  {
    hide After, EvalAll, WithResult;
    var x, y := m.slots[Key(0, 0, false)], m.slots[Key(1000, 0, false)];
    var start := Engine(m, [es], AllNothing([es]), false);
    NothingForOne(es);
    var between := WithResult(m.(port := 0), 0, StateAt(m.input, x));
    FrameOfOne(off, m, es, None);
    ResultWritten(m.(port := 0), StateAt(m.input, x));
    FrameOfOne(on, between, es, None);
    FrameOfOne(on, between, es, Some(x));
    ResultWritten(between.(port := 0), StateAt(m.input, x));
    ResultWritten(between.(port := 0), StateAt(m.input, y));
    assert Step(Step(start, Mapping(off), true), Mapping(on), true).m
        == WithResult(between.(port := 0), 0, StateAt(m.input, x));
    assert Step(Step(start, Mapping(off), false), Mapping(on), false).m
        == WithResult(between.(port := 0), 0, StateAt(m.input, y));
    AfterTwo(start, Mapping(off), Mapping(on), true);
    AfterTwo(start, Mapping(off), Mapping(on), false);
  }
}
