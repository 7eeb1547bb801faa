/** Which interfaces are armed, on the host board: in terms of its table, the transfers under way and the events alone.
    */
module HidArming {
  import opened HidInputs

  predicate Tabled(b: Board, i: Iface) {
    exists k :: 0 <= k < |b.slots| && b.slots[k].active && b.slots[k].iface == i
  }

  /** The interface's slot holds a report. */
  predicate Holds(b: Board, i: Iface) {
    exists k :: 0 <= k < |b.slots| && b.slots[k].active && b.slots[k].iface == i && b.slots[k].pending
  }

  /** Some slot holds a report. */
  predicate SomeHeld(b: Board) {
    exists k :: 0 <= k < |b.slots| && b.slots[k].active && b.slots[k].pending
  }

  // ---- arming passes -----------------------------------------------------------------------------------

  /** After an arming pass an interface is armed exactly if it was before, or it is in the table, none of its reports is
      held, and the USB stack agrees. The pass changes nothing else. */
  lemma ArmPassExactly(b: Board, agreeing: set<Iface>, i: Iface)
    requires Valid(b)
    ensures var r := Step(b, ArmPass(agreeing));
            && (i in r.armed <==> i in b.armed || (Tabled(b, i) && !Holds(b, i) && i in agreeing))
            && r == b.(armed := r.armed)
  {
    if Tabled(b, i) && !Holds(b, i) {
      var k :| 0 <= k < |b.slots| && b.slots[k].active && b.slots[k].iface == i;
      assert b.slots[k] in b.slots && !b.slots[k].pending;
    }
    if i in ArmReady(b, agreeing).armed && i !in b.armed {
      var s :| s in b.slots && s.active && !s.pending && s.iface in agreeing && s.iface == i;
      var k :| 0 <= k < |b.slots| && b.slots[k] == s;
      assert Tabled(b, i);
    }
  }

  // ---- callbacks ------------------------------------------------------------------------------------------

  lemma FindTabled(b: Board, i: Iface)
    requires Valid(b)
    ensures Tabled(b, i) <==> Find(b.slots, i) < 24
  {
    var k := Find(b.slots, i);
    if k < 24 {
      assert Owns(b.slots[k], i);
    }
  }

  /** A report too long for a slot is dropped, whoever sent it: only its interface's transfer has ended, and the
      interface is armed again if it is in the table and the stack agrees. */
  lemma LongCallback(b: Board, i: Iface, data: Report, answer: Answer)
    requires Valid(b) && i in b.armed && |data| > 64
    ensures var r := Step(b, Callback(i, data, answer));
            r == b.(armed := if Tabled(b, i) && answer.agrees then b.armed else b.armed - {i})
  {
    FindTabled(b, i);
    var at := Find(b.slots, i);
    if at < 24 {
      CallbackFindsSlotFree(b, i, at);
      assert b.armed - {i} + {i} == b.armed;
    }
  }

  /** So is the report of an interface for which the table has no place, and that one is not armed again. */
  lemma HomelessCallback(b: Board, i: Iface, data: Report, answer: Answer)
    requires Valid(b) && i in b.armed && |data| <= 64
    requires !Tabled(b, i) && forall k :: 0 <= k < |b.slots| ==> b.slots[k].active
    ensures Step(b, Callback(i, data, answer)) == b.(armed := b.armed - {i})
  {
    FindTabled(b, i);
    assert FindFreeFrom(b.slots, 0) == 24;
  }

  /** Where an interface's report goes: its slot, or the first free one. */
  ghost predicate PlaceFor(b: Board, i: Iface, k: nat) {
    k < |b.slots| &&
    if Tabled(b, i) then b.slots[k].active && b.slots[k].iface == i
    else !b.slots[k].active && forall j :: 0 <= j < k ==> b.slots[j].active
  }

  lemma EntersPlace(b: Board, i: Iface, k: nat)
    requires Valid(b) && PlaceFor(b, i, k)
    ensures Enter(b, i).1 == k && Enter(b, i).0.slots[k].iface == i && i in Enter(b, i).0.books
    ensures Enter(b, i).0.slots == if Tabled(b, i) then b.slots else b.slots[k := Slot(true, i, false, [])]
    ensures Enter(b, i).0 == b.(slots := Enter(b, i).0.slots, books := Enter(b, i).0.books)
  {
    FindTabled(b, i);
    EnterKeepsValid(b, i);
  }

  lemma FindHere(b: Board, k: nat)
    requires Valid(b) && k < 24 && b.slots[k].active
    ensures Find(b.slots, b.slots[k].iface) == k
  {
    assert Owns(b.slots[k], b.slots[k].iface);
  }

  lemma HeldAfterEntering(b: Board, i: Iface, k: nat)
    requires Valid(b) && PlaceFor(b, i, k)
    ensures HasPending(Enter(b, i).0.slots) <==> SomeHeld(b)
  {
    hide Enter;
    EntersPlace(b, i, k);
    var slots := Enter(b, i).0.slots;
    if SomeHeld(b) {
      var j :| 0 <= j < |b.slots| && b.slots[j].active && b.slots[j].pending;
      assert Waiting(slots[j]);
    }
    if HasPending(slots) {
      var j :| 0 <= j < |slots| && Waiting(slots[j]);
      assert b.slots[j].active && b.slots[j].pending;
    }
  }

  lemma DeliverExactly(b: Board, i: Iface, k: nat, data: Report, answer: Answer)
    requires Valid(b) && i !in b.armed && |data| <= 64 && PlaceFor(b, i, k)
    requires forall j :: 0 <= j < 24 && b.slots[j].active && b.slots[j].iface == i ==> !b.slots[j].pending
    ensures var e, sent := Enter(b, i).0, !SomeHeld(b) && answer.uartTakes;
            && e.slots[k].iface in e.books
            && var r := Deliver(e, k, data, answer.uartTakes);
               && Valid(r) && Placed(b, r, i, k, data, sent) && r.armed == b.armed
  {
    hide Enter, Accepted;
    EntersPlace(b, i, k);
    HeldAfterEntering(b, i, k);
    EnterKeepsValid(b, i);
    var e := Enter(b, i).0;
    if !SomeHeld(b) && answer.uartTakes {
      PassKeepsValid(e, k, data);
    } else {
      HoldKeepsValid(e, k, data);
    }
  }

  /** The report is sent or held: the interface has slot k, which tells which; nothing else of the table has changed. */
  ghost predicate Placed(b: Board, r: Board, i: Iface, k: nat, data: Report, sent: bool) {
    && |r.slots| == |b.slots| && k < |b.slots| && r.cursor == b.cursor
    && (forall j :: 0 <= j < |b.slots| && j != k ==> r.slots[j] == b.slots[j])
    && r.slots[k].active && r.slots[k].iface == i && r.slots[k].pending == !sent
    && (!sent ==> r.slots[k].data == data && r.uart == b.uart)
    && (sent ==> r.uart == b.uart + [Packet(k, i, data)])
  }

  /** Any other callback enters its interface in the table, if need be, and its report is sent exactly when no report is
      held and the UART takes it, and else held. Of all transfers it touches its own: armed again exactly when the
      report was sent and the stack agrees. */
  lemma CallbackExactly(b: Board, i: Iface, data: Report, answer: Answer, k: nat)
    requires Valid(b) && i in b.armed && |data| <= 64 && PlaceFor(b, i, k)
    ensures var r, sent := Step(b, Callback(i, data, answer)), !SomeHeld(b) && answer.uartTakes;
            && Placed(b, r, i, k, data, sent)
            && r.armed == if sent && answer.agrees then b.armed else b.armed - {i}
  {
    hide Enter, Deliver, Placed;
    var done := b.(armed := b.armed - {i});
    DisarmKeepsValid(b, i);
    assert SlotsFree(b, i) by {
      OwnSlotFree(b, i);
    }
    SameTable(b, done, i, k);
    DeliverExactly(done, i, k, data, answer);
    EntersPlace(done, i, k);
    var r := Deliver(Enter(done, i).0, k, data, answer.uartTakes);
    PlacedSlot(done, r, i, k, data, !SomeHeld(b) && answer.uartTakes);
    FindHere(r, k);
    SamePlaced(b, r, i, k, data, !SomeHeld(b) && answer.uartTakes, answer.agrees);
  }

  ghost predicate SlotsFree(b: Board, i: Iface) {
    forall j :: 0 <= j < |b.slots| && b.slots[j].active && b.slots[j].iface == i ==> !b.slots[j].pending
  }

  lemma OwnSlotFree(b: Board, i: Iface)
    requires Valid(b) && i in b.armed
    ensures SlotsFree(b, i)
  {
    forall j | 0 <= j < |b.slots| && b.slots[j].active && b.slots[j].iface == i
      ensures !b.slots[j].pending
    {
      CallbackFindsSlotFree(b, i, j);
    }
  }

  lemma SameTable(b: Board, done: Board, i: Iface, k: nat)
    requires done.slots == b.slots
    ensures PlaceFor(b, i, k) <==> PlaceFor(done, i, k)
    ensures SomeHeld(b) <==> SomeHeld(done)
  {
  }

  lemma PlacedSlot(b: Board, r: Board, i: Iface, k: nat, data: Report, sent: bool)
    requires Placed(b, r, i, k, data, sent)
    ensures k < |r.slots| && r.slots[k].active && r.slots[k].iface == i && r.slots[k].pending == !sent
  {
  }

  lemma SamePlaced(b: Board, r: Board, i: Iface, k: nat, data: Report, sent: bool, agrees: bool)
    requires i in b.armed && Placed(b.(armed := b.armed - {i}), r, i, k, data, sent) && r.armed == b.armed - {i}
    ensures Placed(b, r, i, k, data, sent) && Placed(b, Arm(r, i, agrees), i, k, data, sent)
    ensures Arm(r, i, agrees).armed == if agrees then b.armed else b.armed - {i}
  {
  }

  // ---- flushes ------------------------------------------------------------------------------------------------

  /** Visit c of a flush sent what its slot held. */
  predicate Went(b: Board, last: Board, start: nat, c: nat)
    requires |b.slots| == |last.slots| == 24
  {
    var k := (start + c) % 24;
    b.slots[k].active && b.slots[k].pending && !(last.slots[k].active && last.slots[k].pending)
  }

  /** A visit from number `count` on sent a report of i's, and the stack agreed then. */
  ghost predicate SentAndAgreed(b: Board, last: Board, start: nat, count: nat, answers: seq<Answer>, i: Iface)
    requires |b.slots| == |last.slots| == 24 == |answers|
  {
    exists c ::
      count <= c < 24 && Went(b, last, start, c) && answers[c].agrees && b.slots[(start + c) % 24].iface == i
  }

  lemma {:induction false} FlushFromArms(b: Board, start: nat, count: nat, answers: seq<Answer>, i: Iface)
    requires |b.slots| == 24 == |answers| && start < 24 && count <= 24
    ensures var last := FlushFrom(b, start, count, answers);
            i in last.armed <==> i in b.armed || SentAndAgreed(b, last, start, count, answers, i)
    decreases 24 - count
  {
    hide Visit;
    if count < 24 {
      var k := Visit(start, count);
      VisitIs(start, count);
      var last := FlushFrom(b, start, count, answers);
      if !Waiting(b.slots[k]) {
        FlushFromArms(b, start, count + 1, answers, i);
        NextVisit(b, b, last, start, count, answers, i);
      } else if |b.slots[k].data| > EPIN_SIZE || !answers[count].uartTakes {
        assert last.slots == b.slots;
      } else {
        var released := Release(b, k, answers[count].agrees);
        FlushFromArms(released, start, count + 1, answers, i);
        FlushOnlyClears(released, start, count + 1, answers, k);
        NextVisit(b, released, last, start, count, answers, i);
      }
    }
  }

  /** One more visit before the others. */
  lemma NextVisit(b: Board, mid: Board, last: Board, start: nat, count: nat, answers: seq<Answer>, i: Iface)
    requires |b.slots| == |mid.slots| == |last.slots| == 24 == |answers| && start < 24 && count < 24
    requires var k := Visit(start, count); mid.slots == b.slots[k := mid.slots[k]]
    ensures SentAndAgreed(b, last, start, count, answers, i) <==>
              (Went(b, last, start, count) && answers[count].agrees && b.slots[(start + count) % 24].iface == i)
              || SentAndAgreed(mid, last, start, count + 1, answers, i)
  {
    hide Visit;
    forall c | count < c < 24
      ensures Went(mid, last, start, c) == Went(b, last, start, c)
      ensures mid.slots[(start + c) % 24] == b.slots[(start + c) % 24]
    {
      VisitsDiffer(start, c, count);
      VisitIs(start, c);
      VisitIs(start, count);
    }
  }

  lemma VisitIs(start: nat, c: nat)
    ensures Visit(start, c) == (start + c) % 24
  {
  }

  /** After a flush an interface is armed exactly if it was before, or its report went out and the stack agreed at that
      visit. */
  lemma FlushArmsExactly(b: Board, answers: seq<Answer>, i: Iface)
    requires Valid(b) && |answers| == 24
    ensures var last := Step(b, FlushPass(answers));
            && |last.slots| == 24
            && (i in last.armed <==> i in b.armed || SentAndAgreed(b, last, b.cursor, 0, answers, i))
  {
    hide FlushFrom, SentAndAgreed;
    FlushFromArms(b, b.cursor, 0, answers, i);
  }

  // ---- devices that come and go ------------------------------------------------------------------------------

  /** An interface that is mounted gets its place, and then all that are ready are armed, as in an arming pass. */
  lemma MountExactly(b: Board, i: Iface, agreeing: set<Iface>, k: nat, j: Iface)
    requires Valid(b) && PlaceFor(b, i, k)
    ensures var r := Step(b, Mount(i, agreeing));
            && r.slots == (if Tabled(b, i) then b.slots else b.slots[k := Slot(true, i, false, [])])
            && r.cursor == b.cursor && r.uart == b.uart
            && (j in r.armed <==> j in b.armed || (Tabled(r, j) && !Holds(r, j) && j in agreeing))
  {
    hide Enter, ArmReady;
    EntersPlace(b, i, k);
    EnterKeepsValid(b, i);
    ArmPassExactly(Enter(b, i).0, agreeing, j);
  }

  /** One that is unmounted loses its place, what is held there and its transfer; the others lose nothing. */
  lemma UnmountExactly(b: Board, i: Iface)
    requires Valid(b)
    ensures var r := Step(b, Unmount(i));
            && |r.slots| == |b.slots| && !Tabled(r, i) && r.armed == b.armed - {i}
            && r.cursor == b.cursor && r.uart == b.uart
            && forall k :: 0 <= k < |b.slots| ==>
                 if b.slots[k].active && b.slots[k].iface == i then !r.slots[k].active else r.slots[k] == b.slots[k]
  {
    FindTabled(b, i);
    var r, at := Step(b, Unmount(i)), Find(b.slots, i);
    forall k | 0 <= k < 24 && b.slots[k].active && b.slots[k].iface == i
      ensures k == at
    {
      FindHere(b, k);
    }
  }

  // ---- no interface is left out ------------------------------------------------------------------------------

  /** Every interface in the table has a transfer under way, or a report waiting that will bring one. */
  ghost predicate AllServed(b: Board) {
    forall k :: 0 <= k < |b.slots| && b.slots[k].active ==> b.slots[k].pending || b.slots[k].iface in b.armed
  }

  /** The USB stack agrees to what it is asked for. */
  ghost predicate Agreeing(b: Board, e: Event)
    requires Valid(b)
  {
    match e
    case Callback(_, _, answer) => answer.agrees
    case FlushPass(answers) => forall c :: 0 <= c < |answers| ==> answers[c].agrees
    case Mount(i, agreeing) => i in agreeing
    case _ => true
  }

  /** From any state, an arming pass to which the stack agrees leaves no interface out. */
  lemma ArmPassServesAll(b: Board, agreeing: set<Iface>)
    requires Valid(b) && forall k :: 0 <= k < |b.slots| && b.slots[k].active ==> b.slots[k].iface in agreeing
    ensures AllServed(Step(b, ArmPass(agreeing)))
  {
    var r := Step(b, ArmPass(agreeing));
    forall k | 0 <= k < |b.slots| && b.slots[k].active && !b.slots[k].pending
      ensures b.slots[k].iface in r.armed
    {
      var i := b.slots[k].iface;
      ArmPassExactly(b, agreeing, i);
      NotHeld(b, k);
    }
  }

  lemma NotHeld(b: Board, k: nat)
    requires Valid(b) && k < 24 && b.slots[k].active && !b.slots[k].pending
    ensures Tabled(b, b.slots[k].iface) && !Holds(b, b.slots[k].iface)
  {
  }

  lemma ArmPassStaysServed(b: Board, agreeing: set<Iface>)
    requires AllServed(b)
    ensures AllServed(ArmReady(b, agreeing))
  {
  }

  lemma CallbackStaysServed(b: Board, i: Iface, data: Report, answer: Answer)
    requires Valid(b) && AllServed(b) && i in b.armed && answer.agrees
    ensures AllServed(Step(b, Callback(i, data, answer)))
  {
    hide Step;
    if |data| > 64 {
      LongCallback(b, i, data, answer);
      Untabled(b, i);
    } else if Tabled(b, i) || exists k :: 0 <= k < |b.slots| && !b.slots[k].active {
      var k := ItsPlace(b, i);
      CallbackExactly(b, i, data, answer, k);
      PlacedServed(b, Step(b, Callback(i, data, answer)), i, k, data, !SomeHeld(b) && answer.uartTakes);
    } else {
      HomelessCallback(b, i, data, answer);
      Untabled(b, i);
    }
  }

  lemma ItsPlace(b: Board, i: Iface) returns (k: nat)
    requires Valid(b) && (Tabled(b, i) || exists j :: 0 <= j < |b.slots| && !b.slots[j].active)
    ensures PlaceFor(b, i, k)
  {
    if Tabled(b, i) {
      k :| 0 <= k < |b.slots| && b.slots[k].active && b.slots[k].iface == i;
    } else {
      k := FindFreeFrom(b.slots, 0);
    }
  }

  lemma Untabled(b: Board, i: Iface)
    requires AllServed(b)
    ensures !Tabled(b, i) ==> AllServed(b.(armed := b.armed - {i}))
  {
  }

  lemma PlacedServed(b: Board, r: Board, i: Iface, k: nat, data: Report, sent: bool)
    requires Valid(b) && AllServed(b) && i in b.armed && PlaceFor(b, i, k) && Placed(b, r, i, k, data, sent)
    requires r.armed == if sent then b.armed else b.armed - {i}
    ensures AllServed(r)
  {
    forall j | 0 <= j < |r.slots| && r.slots[j].active && !r.slots[j].pending
      ensures r.slots[j].iface in r.armed
    {
      if j != k && r.slots[j].iface == i {
        assert Tabled(b, i);
      }
    }
  }

  lemma {:induction false} FlushStaysServed(b: Board, start: nat, count: nat, answers: seq<Answer>)
    requires |b.slots| == 24 == |answers| && count <= 24 && AllServed(b)
    requires forall c :: 0 <= c < 24 ==> answers[c].agrees
    ensures AllServed(FlushFrom(b, start, count, answers))
    decreases 24 - count
  {
    hide Visit;
    if count < 24 {
      var k := Visit(start, count);
      if !Waiting(b.slots[k]) {
        FlushStaysServed(b, start, count + 1, answers);
      } else if !(|b.slots[k].data| > EPIN_SIZE || !answers[count].uartTakes) {
        FlushStaysServed(Release(b, k, answers[count].agrees), start, count + 1, answers);
      }
    }
  }

  lemma MountStaysServed(b: Board, i: Iface, agreeing: set<Iface>)
    requires Valid(b) && AllServed(b) && i in agreeing
    ensures AllServed(Step(b, Mount(i, agreeing)))
  {
    hide Enter;
    if Tabled(b, i) || exists j :: 0 <= j < |b.slots| && !b.slots[j].active {
      var k := ItsPlace(b, i);
      EntersPlace(b, i, k);
      EnterKeepsValid(b, i);
      MountedServed(b, Enter(b, i).0, i, agreeing, k);
    } else {
      FullTable(b, i);
      ArmPassStaysServed(b, agreeing);
    }
  }

  lemma FullTable(b: Board, i: Iface)
    requires Valid(b) && !Tabled(b, i) && forall j :: 0 <= j < |b.slots| ==> b.slots[j].active
    ensures Enter(b, i) == (b, 24)
  {
    FindTabled(b, i);
    assert FindFreeFrom(b.slots, 0) == 24;
  }

  lemma MountedServed(b: Board, e: Board, i: Iface, agreeing: set<Iface>, k: nat)
    requires Valid(e) && AllServed(b) && i in agreeing && k < |b.slots| && b.armed == e.armed
    requires e.slots == b.slots || e.slots == b.slots[k := Slot(true, i, false, [])]
    ensures AllServed(ArmReady(e, agreeing))
  {
    var r := ArmReady(e, agreeing);
    forall j | 0 <= j < |r.slots| && r.slots[j].active && !r.slots[j].pending
      ensures r.slots[j].iface in r.armed
    {
      if r.slots[j].iface == i {
        NotHeld(e, j);
        ArmPassExactly(e, agreeing, i);
      }
    }
  }

  lemma StepStaysServed(b: Board, e: Event)
    requires Valid(b) && Allowed(b, e) && AllServed(b) && Agreeing(b, e)
    ensures AllServed(Step(b, e))
  {
    match e
    case Callback(i, data, answer) => CallbackStaysServed(b, i, data, answer);
    case FlushPass(answers) => FlushStaysServed(b, b.cursor, 0, answers);
    case ArmPass(agreeing) => ArmPassStaysServed(b, agreeing);
    case Mount(i, agreeing) => MountStaysServed(b, i, agreeing);
    case Unmount(i) => UnmountStaysServed(b, i);
    case ArmedElsewhere(_) =>
  }

  lemma UnmountStaysServed(b: Board, i: Iface)
    requires Valid(b) && AllServed(b)
    ensures AllServed(Step(b, Unmount(i)))
  {
    hide Step;
    UnmountExactly(b, i);
    var r := Step(b, Unmount(i));
    forall k | 0 <= k < |r.slots| && r.slots[k].active && !r.slots[k].pending
      ensures r.slots[k].iface in r.armed
    {
      assert r.slots[k] == b.slots[k];
    }
  }

  ghost predicate AlwaysAgreeing(b: Board, es: seq<Event>)
    decreases |es|
  {
    Valid(b) &&
    (es == [] || (Allowed(b, es[0]) ==> Agreeing(b, es[0]) && AlwaysAgreeing(Step(b, es[0]), es[1..])))
  }

  lemma {:induction false} RunStaysServed(b: Board, es: seq<Event>, last: Board)
    requires Valid(b) && AllServed(b) && Run(b, es, last) && AlwaysAgreeing(b, es)
    ensures AllServed(last)
    decreases |es|
  {
    if es != [] {
      hide Step;
      StepKeepsValid(b, es[0]);
      StepStaysServed(b, es[0]);
      RunStaysServed(Step(b, es[0]), es[1..], last);
    }
  }

  /** As long as the stack agrees when it is asked, at every moment of every run each interface in the table is armed or
      has a report waiting, so none falls silent. */
  lemma NoInterfaceFallsSilent(es: seq<Event>, last: Board)
    requires Run(INITIAL, es, last) && AlwaysAgreeing(INITIAL, es)
    ensures AllServed(last)
  {
    RunStaysServed(INITIAL, es, last);
  }
}
