/** The NumLock wrapper filter of `remapper.cc`: some receivers surround every keypad action with two
    short NumLock taps, which must not reach the PC, while the user's own NumLock presses must. */
module NumLockFilter {

  const EDGE_US: nat := 20000

  datatype Stage =
    | Idle
    | FirstDown
    | WaitKeypad
    | KeypadActive
    | WaitTrailingDown
    | TrailingDown
    | PassthroughDown

  datatype Filter = Filter(
    stage: Stage,
    pending: seq<bool>,
    previousNumLock: bool,
    previousKeypad: bool,
    outputNumLock: bool,
    deadline: nat)

  const INITIAL: Filter := Filter(Idle, [], false, false, false, 0)

  // ---- the transitions ---------------------------------------------------------

  /** The level the PC will see once everything queued has been put out. */
  function LastState(f: Filter): bool {
    Last(f.outputNumLock, f.pending)
  }

  function QueueState(f: Filter, state: bool): Filter {
    if LastState(f) != state then f.(pending := f.pending + [state]) else f
  }

  function QueueAll(f: Filter, states: seq<bool>): (g: Filter)
    ensures g == f.(pending := g.pending)
  {
    if states == [] then f else QueueState(QueueAll(f, states[..|states| - 1]), states[|states| - 1])
  }

  const TAP: seq<bool> := [true, false]
  const TAP_AND_DOWN: seq<bool> := [true, false, true]

  lemma QueueAllOfTwo(f: Filter)
    ensures QueueAll(f, TAP) == QueueState(QueueState(f, true), false)
    ensures QueueAll(f, TAP_AND_DOWN) == QueueState(QueueAll(f, TAP), true)
  {
    assert TAP[..1] == [true] && [true][..0] == [] && TAP_AND_DOWN[..2] == TAP;
    assert QueueAll(f, [true]) == QueueState(f, true);
  }

  function Enter(f: Filter, stage: Stage, deadline: nat): Filter {
    f.(stage := stage, deadline := deadline)
  }

  function Advance(f: Filter, now: nat): Filter {
    if f.deadline == 0 || now < f.deadline then f
    else
      match f.stage
      case FirstDown => Enter(QueueState(f, true), PassthroughDown, 0)
      case WaitKeypad | WaitTrailingDown => Enter(QueueAll(f, TAP), Idle, 0)
      case TrailingDown => Enter(QueueAll(f, TAP_AND_DOWN), PassthroughDown, 0)
      case _ => f.(deadline := 0)
  }

  function React(f: Filter, numLock: bool, keypad: bool, now: nat): Filter {
    var numLockDown, numLockUp := numLock && !f.previousNumLock, !numLock && f.previousNumLock;
    var keypadDown, keypadUp := keypad && !f.previousKeypad, !keypad && f.previousKeypad;
    match f.stage
    case Idle =>
      if numLockDown then Enter(f, FirstDown, now + EDGE_US) else f
    case FirstDown =>
      if numLockUp then
        if keypad then Enter(f, KeypadActive, 0) else Enter(f, WaitKeypad, now + EDGE_US)
      else if keypadDown then Enter(QueueState(f, true), PassthroughDown, 0)
      else f
    case WaitKeypad =>
      if keypadDown then Enter(f, KeypadActive, 0)
      else if numLockDown then Enter(QueueAll(f, TAP_AND_DOWN), PassthroughDown, 0)
      else f
    case KeypadActive =>
      if numLockDown then QueueAll(f, TAP_AND_DOWN).(stage := PassthroughDown)
      else if keypadUp then Enter(f, WaitTrailingDown, now + EDGE_US)
      else f
    case WaitTrailingDown =>
      if numLockDown then Enter(f, TrailingDown, now + EDGE_US)
      else if keypadDown then Enter(f, KeypadActive, 0)
      else f
    case TrailingDown =>
      if numLockUp then Enter(f, Idle, 0) else f
    case PassthroughDown =>
      if numLockUp then QueueState(f, false).(stage := Idle) else f
  }

  /** `observe_num_lock_sync_state`: the levels of both inputs at one moment. */
  function Observe(f: Filter, numLock: bool, keypad: bool, now: nat): Filter {
    React(Advance(f, now), numLock, keypad, now).(previousNumLock := numLock, previousKeypad := keypad)
  }

  /** The filter's part of a mapping frame: at most one queued level is put out. */
  function Frame(f: Filter, now: nat): Filter {
    var g := Advance(f, now);
    if g.pending == [] then g else g.(outputNumLock := g.pending[0], pending := g.pending[1..])
  }

  // ---- the filter as it is kept ------------------------------------------------

  class SyncFilter {
    var stage: Stage
    var pending: seq<bool>
    var previousNumLock: bool
    var previousKeypad: bool
    var outputNumLock: bool
    var deadline: nat

    ghost function State(): Filter
      reads this
    {
      Filter(stage, pending, previousNumLock, previousKeypad, outputNumLock, deadline)
    }

    constructor ()
      ensures State() == INITIAL
    {
      stage, pending, previousNumLock, previousKeypad, outputNumLock, deadline := Idle, [], false, false, false, 0;
    }

    method QueueNumLockState(state: bool)
      modifies this`pending
      ensures State() == QueueState(old(State()), state)
    {
      var lastState := if pending == [] then outputNumLock else pending[|pending| - 1];
      if lastState != state {
        pending := pending + [state];
      }
    }

    method ReplayFirstTap()
      modifies this`pending
      ensures State() == QueueAll(old(State()), TAP)
    {
      QueueAllOfTwo(State());
      QueueNumLockState(true);
      QueueNumLockState(false);
    }

    /** Replay the withheld tap, then let the key that is down now through. */
    method PassThrough()
      modifies this`pending
      ensures State() == QueueAll(old(State()), TAP_AND_DOWN)
    {
      QueueAllOfTwo(State());
      ReplayFirstTap();
      QueueNumLockState(true);
    }

    method AdvanceTimeout(now: nat)
      modifies this
      ensures State() == Advance(old(State()), now)
    {
      if deadline == 0 || now < deadline {
        return;
      }
      match stage {
        case FirstDown =>
          QueueNumLockState(true);
          stage := PassthroughDown;
        case WaitKeypad | WaitTrailingDown =>
          ReplayFirstTap();
          stage := Idle;
        case TrailingDown =>
          PassThrough();
          stage := PassthroughDown;
        case _ =>
      }
      deadline := 0;
    }

    method ObserveState(numLock: bool, keypad: bool, now: nat)
      modifies this
      ensures State() == Observe(old(State()), numLock, keypad, now)
    {
      hide QueueAll, QueueState, Advance;
      AdvanceTimeout(now);
      var numLockDown := numLock && !previousNumLock;
      var numLockUp := !numLock && previousNumLock;
      var keypadDown := keypad && !previousKeypad;
      var keypadUp := !keypad && previousKeypad;
      match stage {
        case Idle =>
          if numLockDown {
            stage, deadline := FirstDown, now + EDGE_US;
          }
        case FirstDown =>
          if numLockUp {
            stage := if keypad then KeypadActive else WaitKeypad;
            deadline := if keypad then 0 else now + EDGE_US;
          } else if keypadDown {
            QueueNumLockState(true);
            stage, deadline := PassthroughDown, 0;
          }
        case WaitKeypad =>
          if keypadDown {
            stage, deadline := KeypadActive, 0;
          } else if numLockDown {
            PassThrough();
            stage, deadline := PassthroughDown, 0;
          }
        case KeypadActive =>
          if numLockDown {
            PassThrough();
            stage := PassthroughDown;
          } else if keypadUp {
            stage, deadline := WaitTrailingDown, now + EDGE_US;
          }
        case WaitTrailingDown =>
          if numLockDown {
            stage, deadline := TrailingDown, now + EDGE_US;
          } else if keypadDown {
            stage, deadline := KeypadActive, 0;
          }
        case TrailingDown =>
          if numLockUp {
            stage, deadline := Idle, 0;
          }
        case PassthroughDown =>
          if numLockUp {
            QueueNumLockState(false);
            stage := Idle;
          }
      }
      previousNumLock, previousKeypad := numLock, keypad;
    }

    /** One filter's turn in `apply_filtered_num_lock_states`. */
    method ApplyFiltered(now: nat)
      modifies this
      ensures State() == Frame(old(State()), now)
    {
      AdvanceTimeout(now);
      if pending != [] {
        outputNumLock := pending[0];
        pending := pending[1..];
      }
    }
  }

  // ---- what every reachable state satisfies ------------------------------------

  predicate Timed(s: Stage) {
    s.FirstDown? || s.WaitKeypad? || s.WaitTrailingDown? || s.TrailingDown?
  }

  function Last(output: bool, s: seq<bool>): bool {
    if s == [] then output else s[|s| - 1]
  }

  /** The queued levels strictly alternate, starting from the level put out last. */
  ghost predicate Alternates(output: bool, s: seq<bool>) {
    s == [] || (s[|s| - 1] != Last(output, s[..|s| - 1]) && Alternates(output, s[..|s| - 1]))
  }

  ghost predicate Inv(f: Filter) {
    && Alternates(f.outputNumLock, f.pending)
    && (LastState(f) <==> f.stage.PassthroughDown?)
    && (f.stage.FirstDown? || f.stage.TrailingDown? || f.stage.PassthroughDown? ==> f.previousNumLock)
    && (f.stage.KeypadActive? ==> f.previousKeypad)
    && (f.deadline != 0 <==> Timed(f.stage))
  }

  /** NumLock presses among queued levels. */
  function Presses(s: seq<bool>): nat {
    if s == [] then 0 else Presses(s[..|s| - 1]) + (if s[|s| - 1] then 1 else 0)
  }

  /** Presses a stage holds back until it knows what they were. */
  function Withheld(s: Stage): nat {
    match s
    case Idle | PassthroughDown => 0
    case TrailingDown => 2
    case _ => 1
  }

  lemma PushKeeps(output: bool, s: seq<bool>, state: bool)
    requires Alternates(output, s) && Last(output, s) != state
    ensures Alternates(output, s + [state]) && Last(output, s + [state]) == state
    ensures Presses(s + [state]) == Presses(s) + Count(state)
  {
    assert (s + [state])[..|s|] == s;
  }

  /** Appending up to three levels, each only if it changes the last one. */
  lemma QueueKeeps(f: Filter, state: bool)
    requires Alternates(f.outputNumLock, f.pending)
    ensures var g := QueueState(f, state);
            && Alternates(g.outputNumLock, g.pending) && LastState(g) == state
            && Presses(g.pending) == Presses(f.pending) + Count(state && !LastState(f))
            && g == f.(pending := g.pending)
  {
    if LastState(f) != state {
      PushKeeps(f.outputNumLock, f.pending, state);
    }
  }

  lemma ReplayKeeps(f: Filter)
    requires Alternates(f.outputNumLock, f.pending) && !LastState(f)
    ensures var g := QueueAll(f, TAP);
            && Alternates(g.outputNumLock, g.pending) && !LastState(g)
            && Presses(g.pending) == Presses(f.pending) + 1
            && g == f.(pending := g.pending)
  {
    QueueAllOfTwo(f);
    QueueKeeps(f, true);
    QueueKeeps(QueueState(f, true), false);
  }

  lemma ReplayThenDownKeeps(f: Filter)
    requires Alternates(f.outputNumLock, f.pending) && !LastState(f)
    ensures var g := QueueAll(f, TAP_AND_DOWN);
            && Alternates(g.outputNumLock, g.pending) && LastState(g)
            && Presses(g.pending) == Presses(f.pending) + 2
            && g == f.(pending := g.pending)
  {
    QueueAllOfTwo(f);
    ReplayKeeps(f);
    QueueKeeps(QueueAll(f, TAP), true);
  }

  lemma AdvanceKeeps(f: Filter, now: nat)
    requires Inv(f)
    ensures var g := Advance(f, now);
            && Inv(g)
            && Held(g) == Held(f)
            && (Timed(g.stage) ==> now < g.deadline && g == f)
            && (g.stage.KeypadActive? ==> g == f)
            && g.outputNumLock == f.outputNumLock
            && g.previousNumLock == f.previousNumLock && g.previousKeypad == f.previousKeypad
  {
    if f.deadline != 0 && f.deadline <= now {
      match f.stage
      case FirstDown => QueueKeeps(f, true);
      case TrailingDown => ReplayThenDownKeeps(f);
      case _ => ReplayKeeps(f);
    }
  }

  // ---- what one observation does to the books ----------------------------------

  predicate IsPress(f: Filter, numLock: bool) {
    numLock && !f.previousNumLock
  }

  /** The closing tap of a complete wrapper has just been released. */
  predicate CompletesWrapper(f: Filter, numLock: bool, now: nat) {
    Advance(f, now).stage.TrailingDown? && !numLock && f.previousNumLock
  }

  /** Both keys seen going down at once while one press is already withheld: the branch that looks at
      the keypad only, and forgets the press. */
  predicate ForgetsPress(f: Filter, numLock: bool, keypad: bool, now: nat) {
    Advance(f, now).stage.WaitKeypad? && numLock && !f.previousNumLock && keypad && !f.previousKeypad
  }

  function Count(b: bool): nat {
    if b then 1 else 0
  }

  /** Presses the filter accounts for: queued, and still withheld. */
  function Held(f: Filter): nat {
    Presses(f.pending) + Withheld(f.stage)
  }

  /** The state `React` leads to, with the levels it has now seen. */
  function Reacted(f: Filter, numLock: bool, keypad: bool, now: nat): Filter {
    React(f, numLock, keypad, now).(previousNumLock := numLock, previousKeypad := keypad)
  }

  ghost predicate Accounted(f: Filter, numLock: bool, keypad: bool, now: nat) {
    var g := Reacted(f, numLock, keypad, now);
    && Inv(g)
    && g.outputNumLock == f.outputNumLock
    && (Timed(g.stage) ==> g.deadline == f.deadline || g.deadline == now + EDGE_US)
    && Held(f) + Count(IsPress(f, numLock))
       == Held(g) + 2 * Count(f.stage.TrailingDown? && !numLock && f.previousNumLock)
          + Count(f.stage.WaitKeypad? && numLock && !f.previousNumLock && keypad && !f.previousKeypad)
  }

  lemma ReactWaitingForKeypad(f: Filter, numLock: bool, keypad: bool, now: nat)
    requires Inv(f) && f.stage.WaitKeypad?
    ensures Accounted(f, numLock, keypad, now)
  {
    hide QueueAll, Presses, Alternates;
    ReplayThenDownKeeps(f);
  }

  lemma ReactWithKeypadActive(f: Filter, numLock: bool, keypad: bool, now: nat)
    requires Inv(f) && f.stage.KeypadActive?
    ensures Accounted(f, numLock, keypad, now)
  {
    hide QueueAll, Presses, Alternates;
    ReplayThenDownKeeps(f);
  }

  lemma ReactFirstDown(f: Filter, numLock: bool, keypad: bool, now: nat)
    requires Inv(f) && f.stage.FirstDown?
    ensures Accounted(f, numLock, keypad, now)
  {
    QueueKeeps(f, true);
  }

  lemma ReactPassingThrough(f: Filter, numLock: bool, keypad: bool, now: nat)
    requires Inv(f) && f.stage.PassthroughDown?
    ensures Accounted(f, numLock, keypad, now)
  {
    QueueKeeps(f, false);
  }

  lemma ReactKeeps(f: Filter, numLock: bool, keypad: bool, now: nat)
    requires Inv(f)
    ensures Accounted(f, numLock, keypad, now)
  {
    match f.stage
    case WaitKeypad => ReactWaitingForKeypad(f, numLock, keypad, now);
    case KeypadActive => ReactWithKeypadActive(f, numLock, keypad, now);
    case FirstDown => ReactFirstDown(f, numLock, keypad, now);
    case PassthroughDown => ReactPassingThrough(f, numLock, keypad, now);
    case _ =>
  }

  /** One observation keeps every press on the books, queued or withheld or discarded with its wrapper,
      exactly when it does not show both keys going down while a press is already withheld. */
  lemma ObservationConserves(f: Filter, numLock: bool, keypad: bool, now: nat)
    requires Inv(f)
    ensures var g := Observe(f, numLock, keypad, now);
            && Inv(g)
            && g.outputNumLock == f.outputNumLock
            && Held(f) + Count(IsPress(f, numLock))
               == Held(g) + 2 * Count(CompletesWrapper(f, numLock, now)) + Count(ForgetsPress(f, numLock, keypad, now))
            && (Held(f) + Count(IsPress(f, numLock)) == Held(g) + 2 * Count(CompletesWrapper(f, numLock, now))
                <==> !ForgetsPress(f, numLock, keypad, now))
            && (Timed(g.stage) ==> g.deadline == f.deadline || g.deadline == now + EDGE_US)
  {
    AdvanceKeeps(f, now);
    ReactKeeps(Advance(f, now), numLock, keypad, now);
  }

  // ---- one mapping frame -------------------------------------------------------

  lemma {:induction false} PopKeeps(output: bool, s: seq<bool>)
    requires Alternates(output, s) && s != []
    ensures s[0] != output && Alternates(s[0], s[1..])
    ensures Last(s[0], s[1..]) == Last(output, s)
    ensures Presses(s) == Count(s[0]) + Presses(s[1..])
  {
    var n := |s| - 1;
    if n > 0 {
      PopKeeps(output, s[..n]);
      assert s[1..][..n - 1] == s[..n][1..];
    }
  }

  /** A frame moves at most one level from the queue to the output, and lets nothing stay withheld past
      its deadline. */
  lemma FrameConserves(f: Filter, now: nat)
    requires Inv(f)
    ensures var g := Frame(f, now);
            && Inv(g)
            && Held(f) == Held(g) + Count(!f.outputNumLock && g.outputNumLock)
            && (Timed(g.stage) ==> now < g.deadline == f.deadline)
            && (Withheld(g.stage) > 0 ==> Timed(g.stage) || (g.stage.KeypadActive? && g.previousKeypad))
  {
    AdvanceKeeps(f, now);
    var h := Advance(f, now);
    if h.pending != [] {
      PopKeeps(h.outputNumLock, h.pending);
    }
  }

  // ---- whole runs --------------------------------------------------------------

  datatype Event =
    | Observation(numLock: bool, keypad: bool, now: nat)
    | MappingFrame(now: nat)

  /** The filter with the books on its run: physical presses, presses put out to the PC, complete
      wrappers discarded, presses forgotten, and the time of the latest observation. */
  datatype World = World(f: Filter, presses: nat, emitted: nat, wrappers: nat, forgotten: nat, latest: nat)

  function Step(w: World, e: Event): World {
    match e
    case Observation(numLock, keypad, now) =>
      World(Observe(w.f, numLock, keypad, now),
            w.presses + Count(IsPress(w.f, numLock)),
            w.emitted,
            w.wrappers + Count(CompletesWrapper(w.f, numLock, now)),
            w.forgotten + Count(ForgetsPress(w.f, numLock, keypad, now)),
            if w.latest < now then now else w.latest)
    case MappingFrame(now) =>
      var g := Frame(w.f, now);
      w.(f := g, emitted := w.emitted + Count(!w.f.outputNumLock && g.outputNumLock))
  }

  function Run(es: seq<Event>): World {
    if es == [] then World(INITIAL, 0, 0, 0, 0, 0) else Step(Run(es[..|es| - 1]), es[|es| - 1])
  }

  /** The books balance: each physical press was put out, or is queued, withheld, one of a discarded
      wrapper's two, or forgotten. */
  ghost predicate Balanced(w: World) {
    && Inv(w.f)
    && w.presses == w.emitted + Held(w.f) + 2 * w.wrappers + w.forgotten
    && (Timed(w.f.stage) ==> w.f.deadline <= w.latest + EDGE_US)
  }

  lemma ObservationBalances(w: World, e: Event)
    requires Balanced(w) && e.Observation?
    ensures Balanced(Step(w, e))
  {
    ObservationConserves(w.f, e.numLock, e.keypad, e.now);
  }

  lemma FrameBalances(w: World, e: Event)
    requires Balanced(w) && e.MappingFrame?
    ensures Balanced(Step(w, e))
  {
    FrameConserves(w.f, e.now);
  }

  lemma {:induction false} RunBalances(es: seq<Event>)
    ensures Balanced(Run(es))
  {
    if es != [] {
      RunBalances(es[..|es| - 1]);
      var w, e := Run(es[..|es| - 1]), es[|es| - 1];
      if e.Observation? {
        ObservationBalances(w, e);
      } else {
        FrameBalances(w, e);
      }
    }
  }

  /** The levels the last observation showed. */
  function Levels(es: seq<Event>): (bool, bool) {
    if es == [] then (false, false)
    else
      match es[|es| - 1]
      case Observation(numLock, keypad, _) => (numLock, keypad)
      case MappingFrame(_) => Levels(es[..|es| - 1])
  }

  /** No single observation shows NumLock and keypad both newly down. */
  predicate NeverRaisesBoth(es: seq<Event>) {
    es == [] ||
    (NeverRaisesBoth(es[..|es| - 1]) &&
     match es[|es| - 1]
     case Observation(numLock, keypad, _) =>
       var (n, k) := Levels(es[..|es| - 1]);
       !(numLock && !n && keypad && !k)
     case MappingFrame(_) => true)
  }

  lemma {:induction false} NothingForgotten(es: seq<Event>)
    requires NeverRaisesBoth(es)
    ensures var w := Run(es); w.forgotten == 0 && (w.f.previousNumLock, w.f.previousKeypad) == Levels(es)
  {
    if es != [] {
      NothingForgotten(es[..|es| - 1]);
      var w := Run(es[..|es| - 1]);
      AdvanceLevels(w.f, es[|es| - 1].now);
    }
  }

  lemma AdvanceLevels(f: Filter, now: nat)
    ensures Advance(f, now).previousNumLock == f.previousNumLock && Advance(f, now).previousKeypad == f.previousKeypad
  {
  }

  /** Presses put out, queued and withheld, and two for each complete wrapper, add up to the physical
      presses, so the PC's toggle parity follows the user's. */
  ghost predicate TapsConserved(w: World) {
    var shown := w.emitted + Presses(w.f.pending) + Withheld(w.f.stage);
    shown + 2 * w.wrappers == w.presses && shown % 2 == w.presses % 2
  }

  /** The books close without a loss exactly when nothing was forgotten. */
  lemma BalanceConserves(w: World)
    requires Balanced(w)
    ensures w.forgotten == 0 <==> w.emitted + Held(w.f) + 2 * w.wrappers == w.presses
    ensures w.forgotten == 0 ==> TapsConserved(w)
  {
    if w.forgotten == 0 {
      SameParity(w.presses, w.emitted + Held(w.f), w.wrappers);
    }
  }

  lemma SameParity(x: nat, y: nat, z: nat)
    requires x == y + 2 * z
    ensures x % 2 == y % 2
  {
  }

  /** Tap conservation over every timed run. */
  lemma TapConservation(es: seq<Event>)
    requires NeverRaisesBoth(es)
    ensures TapsConserved(Run(es))
  {
    RunBalances(es);
    NothingForgotten(es);
    BalanceConserves(Run(es));
  }

  const WITHHOLDING: Filter := Filter(WaitKeypad, [], false, false, false, 2 + EDGE_US)

  lemma WithheldOnce()
    ensures Observe(Observe(INITIAL, true, false, 1), false, false, 2) == WITHHOLDING
  {
    assert Observe(INITIAL, true, false, 1) == Filter(FirstDown, [], true, false, false, 1 + EDGE_US);
  }

  /** Without that proviso the parity can go wrong: of two presses, the second seen together with the keypad,
      the filter keeps one, emits none and completes no wrapper. */
  lemma SimultaneousEdgesLosePress()
    ensures var f := Observe(Observe(INITIAL, true, false, 1), false, false, 2);
            var g := Observe(f, true, true, 3);
            IsPress(INITIAL, true) && IsPress(f, true) && Held(g) == 1 && !g.outputNumLock && g.stage.KeypadActive?
  {
    WithheldOnce();
    assert Observe(WITHHOLDING, true, true, 3) == Filter(KeypadActive, [], true, true, false, 0);
  }

  /** NumLock never sticks: the last level on its way to the PC is "down" exactly in the pass-through
      stage, and then the key is physically down; the queue strictly alternates; a deadline is set
      exactly in the four timed stages. */
  lemma NeverSticks(es: seq<Event>)
    ensures var f := Run(es).f;
            && (LastState(f) <==> f.stage.PassthroughDown?)
            && (LastState(f) ==> f.previousNumLock)
            && Alternates(f.outputNumLock, f.pending)
            && (f.deadline != 0 <==> Timed(f.stage))
  {
    RunBalances(es);
  }

  /** A press is withheld at a frame only while the keypad is physically held, or within 20 ms of the
      latest observation. */
  lemma WithholdingIsBounded(es: seq<Event>, now: nat)
    ensures var w := Run(es + [MappingFrame(now)]);
            Withheld(w.f.stage) > 0 ==>
              (w.f.stage.KeypadActive? && w.f.previousKeypad) || now < w.f.deadline <= w.latest + EDGE_US
  {
    assert (es + [MappingFrame(now)])[..|es|] == es;
    RunBalances(es);
    FrameConserves(Run(es).f, now);
  }

  function Frames(f: Filter, now: nat, n: nat): Filter
    decreases n
  {
    if n == 0 then f else Frames(Frame(f, now), now, n - 1)
  }

  /** Left alone until the queue has drained, the PC's NumLock is down exactly if the key was passed through. */
  lemma {:induction false} OutputCatchesUp(f: Filter, now: nat)
    requires Inv(f) && (f.deadline == 0 || now < f.deadline)
    ensures var g := Frames(f, now, |f.pending|);
            g.pending == [] && g.stage == f.stage && (g.outputNumLock <==> f.stage.PassthroughDown?)
    decreases |f.pending|
  {
    if f.pending != [] {
      FrameConserves(f, now);
      OutputCatchesUp(Frame(f, now), now);
    }
  }
}
