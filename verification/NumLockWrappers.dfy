/** What the NumLock filter removes and what it lets through, in terms of the levels observed and their times alone. */
module NumLockWrappers {
  import opened NumLockFilter

  /** The levels put out by one event: the changes the PC sees. */
  function Shown(f: Filter, g: Filter): seq<bool> {
    if g.outputNumLock != f.outputNumLock then [g.outputNumLock] else []
  }

  function Handle(f: Filter, e: Event): Filter {
    match e
    case Observation(numLock, keypad, now) => Observe(f, numLock, keypad, now)
    case MappingFrame(now) => Frame(f, now)
  }

  /** Everything the PC is told in a run, and in the frames after it. */
  function Told(f: Filter, es: seq<Event>): seq<bool>
    decreases es
  {
    if es == [] then f.pending
    else
      var g := Handle(f, es[0]);
      Shown(f, g) + Told(g, es[1..])
  }

  function After(f: Filter, es: seq<Event>): Filter
    decreases es
  {
    if es == [] then f else After(Handle(f, es[0]), es[1..])
  }

  // ---- a run as the observer sees it ---------------------------------------------------------------

  /** The taps of a wrapper so far - the opening one, then the closing one -, whether the last one is still held,
      whether the keypad was down since the opening tap, when the last of these keys was released or NumLock pressed,
      and the levels now. */
  datatype Seen = Seen(taps: nat, held: bool, used: bool, since: nat, numLock: bool, keypad: bool)

  /** A press that comes with the keypad's first one after the opening tap is taken for the keypad's. */
  predicate Disguised(s: Seen, e: Event)
    requires e.Observation?
  {
    s.taps == 1 && !s.used && e.keypad
  }

  predicate StartsTap(s: Seen, e: Event)
    requires e.Observation?
  {
    !s.held && e.numLock && !s.numLock && !Disguised(s, e)
  }

  function Next(s: Seen, e: Event): Seen {
    match e
    case MappingFrame(_) => s
    case Observation(numLock, keypad, now) =>
      var next :=
        if s.held then
          if numLock then s
          else s.(taps := if s.taps == 1 then 1 else 0, held := false, used := keypad, since := now)
        else if StartsTap(s, e) then s.(taps := s.taps + 1, held := true, since := now)
        else s.(used := s.used || keypad, since := if s.keypad && !keypad then now else s.since);
      next.(numLock := numLock, keypad := keypad)
  }

  /** A tap is held, or a wrapper is open with the keypad up. */
  predicate Waiting(s: Seen) {
    s.held || (s.taps == 1 && !s.keypad)
  }

  /** The event keeps to the form of a wrapper: no wait of 20 ms or more, no keypad press within the opening tap, and
      no closing press before the keypad was down or while it is. */
  predicate Fits(s: Seen, e: Event) {
    && (Waiting(s) ==> e.now < s.since + 20000)
    && (e.Observation? ==>
          && !(s.held && s.taps == 1 && e.numLock && e.keypad && !s.keypad)
          && (StartsTap(s, e) && s.taps == 1 ==> s.used && !s.keypad))
  }

  predicate KeepsForm(s: Seen, es: seq<Event>)
    decreases es
  {
    es == [] || (Fits(s, es[0]) && KeepsForm(Next(s, es[0]), es[1..]))
  }

  function See(s: Seen, es: seq<Event>): Seen
    decreases es
  {
    if es == [] then s else See(Next(s, es[0]), es[1..])
  }

  function Rest(numLock: bool, keypad: bool): Seen {
    Seen(0, false, false, 0, numLock, keypad)
  }

  // ---- the filter follows it ------------------------------------------------------------------------

  ghost predicate Follows(f: Filter, s: Seen) {
    && Inv(f) && f.previousNumLock == s.numLock && f.previousKeypad == s.keypad
    && (Waiting(s) ==> f.deadline == s.since + 20000)
    && match f.stage
       case Idle => s.taps == 0 && !s.held
       case FirstDown => s.taps == 1 && s.held
       case WaitKeypad => s.taps == 1 && !s.held && !s.used && !s.keypad
       case KeypadActive => s.taps == 1 && !s.held && s.used && s.keypad
       case WaitTrailingDown => s.taps == 1 && !s.held && s.used && !s.keypad
       case TrailingDown => s.taps == 2 && s.held
       case PassthroughDown => false
  }

  lemma FitsIsSilent(f: Filter, s: Seen, e: Event)
    requires Follows(f, s) && Fits(s, e)
    ensures var g := Handle(f, e); Follows(g, Next(s, e)) && Shown(f, g) + g.pending == f.pending
  {
    hide Observe, Frame;
    if e.MappingFrame? {
      FittingFrame(f, s, e);
    } else {
      FittingObservation(f, s, e);
    }
  }

  lemma FittingFrame(f: Filter, s: Seen, e: Event)
    requires Follows(f, s) && Fits(s, e) && e.MappingFrame?
    ensures var g := Handle(f, e); Follows(g, s) && Shown(f, g) + g.pending == f.pending
  {
    hide QueueAll, QueueState, Alternates, Presses;
    FrameShows(f, e.now);
    FrameConserves(f, e.now);
  }

  lemma FittingObservation(f: Filter, s: Seen, e: Event)
    requires Follows(f, s) && Fits(s, e) && e.Observation?
    ensures var g := Handle(f, e);
            Follows(g, Next(s, e)) && g.pending == f.pending && g.outputNumLock == f.outputNumLock
  {
    hide QueueAll, QueueState, Alternates, Presses;
    ObservationConserves(f, e.numLock, e.keypad, e.now);
  }

  /** A frame puts out the oldest level, and nothing is added before its time. */
  lemma FrameShows(f: Filter, now: nat)
    requires Inv(f)
    ensures var g := Frame(f, now); Shown(f, g) + g.pending == Advance(f, now).pending
  {
    AdvanceKeeps(f, now);
    var h := Advance(f, now);
    if h.pending != [] {
      PopKeeps(h.outputNumLock, h.pending);
    }
  }

  /** The levels of the taps withheld. */
  function Withholds(s: Seen): seq<bool> {
    (if s.taps == 2 || (s.taps == 1 && !s.held) then [true, false] else []) + (if s.held then [true] else [])
  }

  /** What an event that breaks the form makes the filter tell. */
  function Replay(s: Seen, e: Event): seq<bool> {
    if Waiting(s) && s.since + 20000 <= e.now then
      Withholds(s) + if e.Observation? && s.held && !e.numLock then [false] else []
    else Withholds(s) + if s.held then [] else [true]
  }

  lemma ReplayTold(f: Filter)
    requires !LastState(f)
    ensures QueueState(f, true).pending == f.pending + [true]
    ensures QueueAll(f, TAP).pending == f.pending + [true, false]
    ensures QueueAll(f, TAP_AND_DOWN).pending == f.pending + [true, false, true]
  {
    hide QueueAll;
    QueueAllOfTwo(f);
    var tapped := f.(pending := f.pending + [true, false]);
    assert f.pending + [true] + [false] == tapped.pending;
    assert QueueState(QueueState(f, true), false) == tapped;
    assert tapped.pending + [true] == f.pending + [true, false, true];
  }

  /** A wait of 20 ms ends in telling what was withheld. */
  lemma LateIsTold(f: Filter, s: Seen, now: nat)
    requires Follows(f, s) && Waiting(s) && s.since + 20000 <= now
    ensures var h := Advance(f, now);
            && h.pending == f.pending + Withholds(s) && Inv(h)
            && h.stage == (if s.held then PassthroughDown else Idle)
            && h.previousNumLock == s.numLock && h.previousKeypad == s.keypad && h.outputNumLock == f.outputNumLock
  {
    hide QueueAll, QueueState;
    ReplayTold(f);
    AdvanceKeeps(f, now);
  }

  /** A key that was let through is told to be down until it is released. */
  lemma PassedThroughUntilReleased(f: Filter, e: Event)
    requires Inv(f) && LastState(f)
    ensures var g := Handle(f, e);
            && Shown(f, g) + g.pending == f.pending + (if e.Observation? && !e.numLock then [false] else [])
            && (if e.Observation? && !e.numLock then Follows(g, Rest(false, e.keypad)) else Inv(g) && LastState(g))
  {
    hide Observe, Frame;
    if e.MappingFrame? {
      PassingFrame(f, e.now);
    } else {
      PassingObservation(f, e);
    }
  }

  lemma PassingFrame(f: Filter, now: nat)
    requires Inv(f) && LastState(f)
    ensures var g := Frame(f, now); Shown(f, g) + g.pending == f.pending && Inv(g) && LastState(g)
  {
    hide Alternates, Presses;
    FrameShows(f, now);
    FrameConserves(f, now);
  }

  lemma PassingObservation(f: Filter, e: Event)
    requires Inv(f) && LastState(f) && e.Observation?
    ensures var g := Handle(f, e);
            && g.outputNumLock == f.outputNumLock && g.pending == f.pending + (if e.numLock then [] else [false])
            && (if e.numLock then Inv(g) && LastState(g) else Follows(g, Rest(false, e.keypad)))
  {
    hide QueueAll, Alternates, Presses;
    assert Advance(f, e.now) == f;
    ObservationConserves(f, e.numLock, e.keypad, e.now);
  }

  lemma RestIsQuiet(f: Filter, e: Event)
    requires Inv(f) && f.stage.Idle? && e.Observation?
    ensures var g := Handle(f, e);
            g.pending == f.pending && g.outputNumLock == f.outputNumLock
            && Follows(g, Next(Rest(f.previousNumLock, f.previousKeypad), e))
  {
    FitsIsSilent(f, Rest(f.previousNumLock, f.previousKeypad), e);
  }

  lemma LateFrame(f: Filter, s: Seen, e: Event)
    requires Follows(f, s) && Waiting(s) && s.since + 20000 <= e.now && e.MappingFrame?
    ensures Broken(f, s, e)
  {
    hide Advance, Frame, Alternates, Presses;
    LateIsTold(f, s, e.now);
    FrameShows(f, e.now);
    FrameConserves(f, e.now);
    FrameKeepsStage(f, e.now);
    LastOfWithheld(f, s);
  }

  lemma FrameKeepsStage(f: Filter, now: nat)
    ensures var g, h := Frame(f, now), Advance(f, now);
            g.stage == h.stage && g.deadline == h.deadline
            && g.previousNumLock == h.previousNumLock && g.previousKeypad == h.previousKeypad
  {
    hide Advance;
  }

  lemma LastOfWithheld(f: Filter, s: Seen)
    requires Follows(f, s) && Waiting(s)
    ensures Withholds(s) != [] && (Withholds(s)[|Withholds(s)| - 1] <==> s.held)
  {
    hide Inv;
  }

  lemma LateObservation(f: Filter, s: Seen, e: Event)
    requires Follows(f, s) && Waiting(s) && s.since + 20000 <= e.now && e.Observation?
    ensures Broken(f, s, e)
  {
    hide Advance, Observe, Alternates, Presses;
    LateIsTold(f, s, e.now);
    LastOfWithheld(f, s);
    var h := Advance(f, e.now);
    ObservedLate(f, e.numLock, e.keypad, e.now);
    hide Follows;
    if s.held {
      PassedThroughUntilReleased(h, e);
      LateHeld(f, h, s, e);
    } else {
      RestIsQuiet(h, e);
    }
  }

  lemma LateHeld(f: Filter, h: Filter, s: Seen, e: Event)
    requires e.Observation? && s.held && Waiting(s) && s.since + 20000 <= e.now && Withholds(s) != []
    requires h.pending == f.pending + Withholds(s) && h.outputNumLock == f.outputNumLock
    requires var g, last := Handle(f, e), if e.numLock then [] else [false];
             && Inv(g) && g.outputNumLock == f.outputNumLock && Handle(h, e) == g
             && Shown(h, g) + g.pending == h.pending + last
             && (if e.numLock then LastState(g) else Follows(g, Rest(false, e.keypad)))
    ensures Broken(f, s, e)
  {
    hide Handle, Alternates, Presses;
  }

  lemma ObservedLate(f: Filter, numLock: bool, keypad: bool, now: nat)
    requires Inv(f)
    ensures Observe(f, numLock, keypad, now) == Observe(Advance(f, now), numLock, keypad, now)
    ensures Observe(f, numLock, keypad, now).outputNumLock == f.outputNumLock
  {
    hide QueueAll, QueueState, React;
    AdvanceKeeps(f, now);
    ObservationConserves(f, numLock, keypad, now);
  }

  lemma BreakTimely(f: Filter, s: Seen, e: Event)
    requires Follows(f, s) && !Fits(s, e) && !(Waiting(s) && s.since + 20000 <= e.now)
    ensures Broken(f, s, e)
  {
    hide QueueAll, QueueState, Alternates, Presses;
    ReplayTold(f);
    ObservationConserves(f, e.numLock, e.keypad, e.now);
  }

  ghost predicate Broken(f: Filter, s: Seen, e: Event) {
    var g := Handle(f, e);
    && Replay(s, e) != []
    && Shown(f, g) + g.pending == f.pending + Replay(s, e)
    && (LastState(g) <==> Replay(s, e)[|Replay(s, e)| - 1])
    && (!LastState(g) ==> Follows(g, Next(Rest(s.numLock, s.keypad), e)))
    && Inv(g)
  }

  /** The taps withheld are told at once when the form is broken; a NumLock still down is told to be down. */
  lemma BreakIsTold(f: Filter, s: Seen, e: Event)
    requires Follows(f, s) && !Fits(s, e)
    ensures Broken(f, s, e)
  {
    if Waiting(s) && s.since + 20000 <= e.now {
      if e.MappingFrame? {
        LateFrame(f, s, e);
      } else {
        LateObservation(f, s, e);
      }
    } else {
      BreakTimely(f, s, e);
    }
  }

  // ---- whole runs ----------------------------------------------------------------------------------

  ghost predicate Extends(s: seq<bool>, t: seq<bool>) {
    |s| <= |t| && t[..|s|] == s
  }

  /** Nothing told is taken back. */
  lemma HandleTells(f: Filter, e: Event)
    requires Inv(f)
    ensures var g := Handle(f, e); Inv(g) && Extends(f.pending, Shown(f, g) + g.pending)
  {
    hide Observe, Frame, Alternates, Presses;
    if e.MappingFrame? {
      FrameShows(f, e.now);
      FrameConserves(f, e.now);
      AdvanceTells(f, e.now);
    } else {
      ObservationConserves(f, e.numLock, e.keypad, e.now);
      ObservationTells(f, e);
    }
  }

  lemma QueueTells(f: Filter, states: seq<bool>)
    ensures Extends(f.pending, QueueAll(f, states).pending)
  {
  }

  lemma AdvanceTells(f: Filter, now: nat)
    ensures Extends(f.pending, Advance(f, now).pending)
  {
    hide QueueAll;
    QueueTells(f, TAP);
    QueueTells(f, TAP_AND_DOWN);
  }

  lemma ObservationTells(f: Filter, e: Event)
    requires e.Observation?
    ensures Extends(f.pending, Handle(f, e).pending)
  {
    hide QueueAll, Advance;
    AdvanceTells(f, e.now);
    QueueTells(Advance(f, e.now), TAP_AND_DOWN);
  }

  lemma {:induction false} RunTells(f: Filter, es: seq<Event>)
    requires Inv(f)
    ensures Extends(f.pending, Told(f, es))
    decreases es
  {
    if es != [] {
      hide Handle, Inv, Shown;
      var g := Handle(f, es[0]);
      HandleTells(f, es[0]);
      RunTells(g, es[1..]);
      ExtendsBoth(f.pending, Shown(f, g), g.pending, Told(g, es[1..]));
    }
  }

  lemma ExtendsBoth(a: seq<bool>, b: seq<bool>, c: seq<bool>, d: seq<bool>)
    requires Extends(a, b + c) && Extends(c, d)
    ensures Extends(a, b + d)
    ensures b + c != a ==> b + d != a
  {
    assert (b + d)[..|b + c|] == b + c;
  }

  lemma {:induction false} SilentFrom(f: Filter, s: Seen, es: seq<Event>)
    requires Follows(f, s)
    ensures Told(f, es) == f.pending <==> KeepsForm(s, es)
    ensures KeepsForm(s, es) ==> Follows(After(f, es), See(s, es))
    decreases es
  {
    if es != [] {
      hide Handle, Follows, Shown, Next, Fits, Replay;
      var g := Handle(f, es[0]);
      FollowsInv(f, s);
      HandleTells(f, es[0]);
      if Fits(s, es[0]) {
        FitsIsSilent(f, s, es[0]);
        SilentFrom(g, Next(s, es[0]), es[1..]);
        SamePrefix(f.pending, Shown(f, g), g.pending, Told(g, es[1..]));
      } else {
        BreakTells(f, s, es[0]);
        RunTells(g, es[1..]);
        ExtendsBoth(f.pending, Shown(f, g), g.pending, Told(g, es[1..]));
      }
    }
  }

  lemma FollowsInv(f: Filter, s: Seen)
    requires Follows(f, s)
    ensures Inv(f)
  {
  }

  lemma BreakTells(f: Filter, s: Seen, e: Event)
    requires Follows(f, s) && !Fits(s, e)
    ensures Shown(f, Handle(f, e)) + Handle(f, e).pending != f.pending
  {
    hide Handle, Shown, Follows;
    BreakIsTold(f, s, e);
  }

  lemma SamePrefix(a: seq<bool>, b: seq<bool>, c: seq<bool>, d: seq<bool>)
    requires b + c == a
    ensures b + d == a <==> c == d
  {
    if b + d == a {
      assert (b + d)[|b|..] == d && (b + c)[|b|..] == c;
    }
  }

  /** From rest, a run tells the PC nothing - and every tap in it is withheld or removed - exactly when the levels
      observed keep the form of wrappers, one after another. */
  lemma SilentExactly(f: Filter, es: seq<Event>)
    requires Inv(f) && f.stage.Idle?
    ensures var start := Rest(f.previousNumLock, f.previousKeypad);
            && (Told(f, es) == f.pending <==> KeepsForm(start, es))
            && (KeepsForm(start, es) ==> Withheld(After(f, es).stage) == See(start, es).taps)
  {
    SilentFrom(f, Rest(f.previousNumLock, f.previousKeypad), es);
  }

  // ---- one wrapper -----------------------------------------------------------------------------------

  /** Mapping frames, and observations that show these levels again, all before a time. */
  ghost predicate NoChange(es: seq<Event>, numLock: bool, keypad: bool, before: nat) {
    forall i :: 0 <= i < |es| ==>
      es[i].now < before && (es[i].Observation? ==> es[i].numLock == numLock && es[i].keypad == keypad)
  }

  /** Mapping frames, and observations that show these levels again, at any time. */
  ghost predicate NoChangeEver(es: seq<Event>, numLock: bool, keypad: bool) {
    forall i :: 0 <= i < |es| ==> es[i].Observation? ==> es[i].numLock == numLock && es[i].keypad == keypad
  }

  /** Seeing the same levels again changes nothing. */
  predicate Steady(s: Seen) {
    (s.held ==> s.numLock) && (s.keypad && !s.held ==> s.used)
  }

  ghost predicate Repeats(s: Seen, es: seq<Event>) {
    if Waiting(s) then NoChange(es, s.numLock, s.keypad, s.since + 20000) else NoChangeEver(es, s.numLock, s.keypad)
  }

  lemma {:induction false} RepeatsFit(s: Seen, es: seq<Event>)
    requires Steady(s) && Repeats(s, es)
    ensures KeepsForm(s, es) && See(s, es) == s
    decreases es
  {
    if es != [] {
      assert Next(s, es[0]) == s;
      RepeatsFit(s, es[1..]);
    }
  }

  lemma {:induction false} KeepsFormAppend(s: Seen, es: seq<Event>, fs: seq<Event>)
    ensures KeepsForm(s, es + fs) <==> KeepsForm(s, es) && KeepsForm(See(s, es), fs)
    ensures See(s, es + fs) == See(See(s, es), fs)
    decreases es
  {
    hide Fits, Next;
    if es == [] {
      assert es + fs == fs;
    } else {
      KeepsFormAppend(Next(s, es[0]), es[1..], fs);
      assert (es + fs)[1..] == es[1..] + fs;
    }
  }

  /** A run that has kept the form, one more event, and repetitions of what it showed. */
  lemma Leg(start: Seen, es: seq<Event>, e: Event, again: seq<Event>)
    requires KeepsForm(start, es) && Fits(See(start, es), e)
    requires var next := Next(See(start, es), e); Steady(next) && Repeats(next, again)
    ensures KeepsForm(start, es + [e] + again)
    ensures See(start, es + [e] + again) == Next(See(start, es), e)
  {
    hide Fits, Next, Repeats, Steady;
    var s := See(start, es);
    KeepsFormAppend(start, es, [e]);
    assert [e][1..] == [];
    assert KeepsForm(s, [e]) && See(s, [e]) == Next(s, e);
    RepeatsFit(Next(s, e), again);
    KeepsFormAppend(start, es + [e], again);
  }

  /** A receiver's wrapper: a NumLock tap, the keypad, and another NumLock tap. */
  function Wrapper(t: seq<nat>, again: seq<seq<Event>>): seq<Event>
    requires |t| == 6 && |again| == 5
  {
    [] + [Observation(true, false, t[0])] + again[0] + [Observation(false, false, t[1])] + again[1]
    + [Observation(false, true, t[2])] + again[2] + [Observation(false, false, t[3])] + again[3]
    + [Observation(true, false, t[4])] + again[4] + [Observation(false, false, t[5])] + []
  }

  /** A wrapper with taps shorter than 20 ms and less than that around the keypad, which may be held for any time, is
      removed: nothing is told, and the filter is at rest again. Mapping frames and repeated levels may come at any
      moment of it. */
  lemma WrapperIsRemoved(f: Filter, t: seq<nat>, again: seq<seq<Event>>)
    requires Inv(f) && f.stage.Idle? && !f.previousNumLock && !f.previousKeypad
    requires |t| == 6 && |again| == 5
    requires t[1] < t[0] + 20000 && t[2] < t[1] + 20000 && t[4] < t[3] + 20000 && t[5] < t[4] + 20000
    requires NoChange(again[0], true, false, t[0] + 20000) && NoChange(again[1], false, false, t[1] + 20000)
    requires NoChangeEver(again[2], false, true)
    requires NoChange(again[3], false, false, t[3] + 20000) && NoChange(again[4], true, false, t[4] + 20000)
    ensures Told(f, Wrapper(t, again)) == f.pending
    ensures var g := After(f, Wrapper(t, again)); Inv(g) && g.stage.Idle? && !g.previousNumLock && !g.previousKeypad
  {
    var s := Rest(false, false);
    Leg(s, [], Observation(true, false, t[0]), again[0]);
    var w1 := [] + [Observation(true, false, t[0])] + again[0];
    Leg(s, w1, Observation(false, false, t[1]), again[1]);
    var w2 := w1 + [Observation(false, false, t[1])] + again[1];
    Leg(s, w2, Observation(false, true, t[2]), again[2]);
    var w3 := w2 + [Observation(false, true, t[2])] + again[2];
    Leg(s, w3, Observation(false, false, t[3]), again[3]);
    var w4 := w3 + [Observation(false, false, t[3])] + again[3];
    Leg(s, w4, Observation(true, false, t[4]), again[4]);
    var w5 := w4 + [Observation(true, false, t[4])] + again[4];
    Leg(s, w5, Observation(false, false, t[5]), []);
    SilentFrom(f, s, Wrapper(t, again));
  }
}
