/** How often one interface can overtake another while the other's report is held: the bound of `HidInputs` is one
    report for each slot, and an interface that leaves the table and comes back may get another slot. */
module HidOvertaking {
  import opened HidInputs

  /** How often a run unmounts an interface. */
  function Unmounts(es: seq<Event>, j: Iface): nat {
    if es == [] then 0 else (if es[0].Unmount? && es[0].i == j then 1 else 0) + Unmounts(es[1..], j)
  }

  /** The interface owns a slot that was sent from since the log was `n` long. */
  ghost predicate HasPassed(b: Board, n: nat, j: Iface)
    requires n <= |b.uart|
  {
    exists k :: 0 <= k < |b.slots| && Owns(b.slots[k], j) && k in SentSince(b, n)
  }

  /** Its reports since then: one for each time it left, and one from the slot it has. */
  ghost predicate Bounded(b: Board, n: nat, j: Iface, left: nat)
    requires n <= |b.uart|
  {
    |Accepted(b.uart[n..], j)| <= left + (if HasPassed(b, n, j) then 1 else 0)
  }

  ghost predicate Distinct(sent: seq<int>) {
    forall a, z :: 0 <= a < z < |sent| ==> sent[a] != sent[z]
  }

  lemma SentSnoc(b: Board, after: Board, n: nat, p: Packet)
    requires n <= |b.uart| && after.uart == b.uart + [p]
    ensures SentSince(after, n) == SentSince(b, n) + [p.slot]
  {
  }

  /** A slot that was not sent from yet is sent from. */
  lemma ReleaseBounded(b: Board, n: nat, k: nat, agrees: bool, j: Iface, left: nat)
    requires Unique(b.slots) && k < |b.slots| && Waiting(b.slots[k]) && n <= |b.uart| && k !in SentSince(b, n)
    requires Bounded(b, n, j, left)
    ensures Unique(Release(b, k, agrees).slots) && Bounded(Release(b, k, agrees), n, j, left)
  {
    hide Accepted, SentSince;
    var after, p := Release(b, k, agrees), Packet(k, b.slots[k].iface, b.slots[k].data);
    AcceptedSnoc(b.uart, n, p, j);
    SentSnoc(b, after, n, p);
    if b.slots[k].iface == j {
      assert Owns(after.slots[k], j) && k in SentSince(after, n);
    } else if HasPassed(b, n, j) {
      var h :| 0 <= h < |b.slots| && Owns(b.slots[h], j) && h in SentSince(b, n);
      assert Owns(after.slots[h], j) && h in SentSince(after, n);
    }
  }

  lemma NewlySent(b: Board, last: Board, n: nat, k: nat, p: Packet)
    requires n <= |b.uart| && b.uart + [p] <= last.uart && p.slot == k && Distinct(SentSince(last, n))
    ensures k !in SentSince(b, n)
  {
    var sent := SentSince(last, n);
    assert sent[|b.uart| - n] == k;
    forall a | 0 <= a < |SentSince(b, n)|
      ensures SentSince(b, n)[a] != k
    {
      assert SentSince(b, n)[a] == sent[a];
    }
  }

  lemma {:induction false} FlushBounded(b: Board, n: nat, start: nat, count: nat, answers: seq<Answer>, j: Iface,
                                        left: nat)
    requires |b.slots| == SLOTS == |answers| && count <= SLOTS && n <= |b.uart|
    requires b.uart <= FlushFrom(b, start, count, answers).uart
    requires Distinct(SentSince(FlushFrom(b, start, count, answers), n))
    requires Unique(b.slots) && Bounded(b, n, j, left)
    ensures Bounded(FlushFrom(b, start, count, answers), n, j, left)
    decreases SLOTS - count
  {
    hide Visit, Bounded, Distinct, SentSince, Unique;
    if count < SLOTS {
      var k := Visit(start, count);
      if !Waiting(b.slots[k]) {
        FlushBounded(b, n, start, count + 1, answers, j, left);
      } else if |b.slots[k].data| > EPIN_SIZE || !answers[count].uartTakes {
        CursorBounded(b, n, k, j, left);
      } else {
        var released := Release(b, k, answers[count].agrees);
        FlushOnlyClears(released, start, count + 1, answers, 0);
        NewlySent(b, FlushFrom(b, start, count, answers), n, k, Packet(k, b.slots[k].iface, b.slots[k].data));
        ReleaseBounded(b, n, k, answers[count].agrees, j, left);
        FlushBounded(released, n, start, count + 1, answers, j, left);
      }
    }
  }

  lemma CursorBounded(b: Board, n: nat, k: nat, j: Iface, left: nat)
    requires n <= |b.uart| && Bounded(b, n, j, left)
    ensures Bounded(b.(cursor := k), n, j, left)
  {
    assert SentSince(b.(cursor := k), n) == SentSince(b, n);
    assert HasPassed(b, n, j) ==> HasPassed(b.(cursor := k), n, j);
  }

  lemma EnterKeepsOwner(b: Board, i: Iface, j: Iface, k: nat)
    requires k < |b.slots| && Owns(b.slots[k], j)
    ensures var e := Enter(b, i).0; k < |e.slots| && Owns(e.slots[k], j)
  {
  }

  lemma DeliverKeepsOwner(b: Board, at: nat, data: Report, uartTakes: bool, j: Iface, k: nat)
    requires at < |b.slots| && b.slots[at].iface in b.books && k < |b.slots| && Owns(b.slots[k], j)
    ensures var e := Deliver(b, at, data, uartTakes); k < |e.slots| && Owns(e.slots[k], j)
  {
  }

  lemma CompleteKeepsOwner(b: Board, i: Iface, data: Report, answer: Answer, j: Iface, k: nat)
    requires Valid(b) && k < |b.slots| && Owns(b.slots[k], j)
    ensures var e := Complete(b, i, data, answer); k < |e.slots| && Owns(e.slots[k], j)
  {
    hide Enter, Deliver, Valid;
    var done := b.(armed := b.armed - {i});
    EnterKeepsOwner(done, i, j, k);
    var (e, at) := Enter(done, i);
    if at < |e.slots| && e.slots[at].iface in e.books {
      DeliverKeepsOwner(e, at, data, answer.uartTakes, j, k);
    }
  }

  /** Everything but its own unmounting leaves an interface its slot. */
  lemma OwnerStays(b: Board, e: Event, j: Iface, k: nat)
    requires Valid(b) && Allowed(b, e) && !e.FlushPass? && !(e.Unmount? && e.i == j)
    requires k < SLOTS && Owns(b.slots[k], j)
    ensures k < |Step(b, e).slots| && Owns(Step(b, e).slots[k], j)
  {
    hide Valid, Enter, Complete;
    SlotsOfValid(b);
    match e
    case Callback(i, data, answer) => CompleteKeepsOwner(b, i, data, answer, j, k);
    case Mount(i, agreeing) => EnterKeepsOwner(b, i, j, k);
    case _ =>
  }

  /** Events that send nothing. */
  lemma QuietBounded(b: Board, n: nat, e: Event, j: Iface, left: nat)
    requires Valid(b) && Allowed(b, e) && !e.FlushPass? && n <= |b.uart| && Step(b, e).uart == b.uart
    requires Bounded(b, n, j, left)
    ensures Bounded(Step(b, e), n, j, left + if e.Unmount? && e.i == j then 1 else 0)
  {
    hide Step, Valid, Allowed, Owns, Accepted;
    var last := Step(b, e);
    assert SentSince(last, n) == SentSince(b, n);
    if HasPassed(b, n, j) && !(e.Unmount? && e.i == j) {
      var k :| 0 <= k < |b.slots| && Owns(b.slots[k], j) && k in SentSince(b, n);
      SlotsOfValid(b);
      OwnerStays(b, e, j, k);
    }
  }

  lemma SlotsOfValid(b: Board)
    requires Valid(b)
    ensures |b.slots| == SLOTS && Unique(b.slots)
  {
  }

  /** While slot x waits, nothing but a flush sends. */
  lemma OthersAreQuiet(b: Board, e: Event, x: nat)
    requires Valid(b) && Allowed(b, e) && !e.FlushPass? && x < SLOTS && Waiting(b.slots[x])
    ensures Step(b, e).uart == b.uart
  {
    match e
    case Callback(i, data, answer) => CallbackDiverted(b, i, data, answer, x);
    case _ =>
  }

  lemma InTurnIsDistinct(c0: nat, x: nat, cursor: nat, sent: seq<int>)
    requires c0 < SLOTS && x < SLOTS && cursor < SLOTS && InTurn(c0, x, cursor, sent)
    ensures Distinct(sent)
  {
  }

  lemma StepBounded(b: Board, n: nat, c0: nat, x: nat, e: Event, j: Iface, left: nat)
    requires Valid(b) && Allowed(b, e) && c0 < SLOTS && x < SLOTS && n <= |b.uart|
    requires InTurn(c0, x, b.cursor, SentSince(b, n)) && Bounded(b, n, j, left)
    requires Waiting(b.slots[x]) && |Step(b, e).slots| == SLOTS && Waiting(Step(b, e).slots[x])
    ensures b.uart <= Step(b, e).uart && Bounded(Step(b, e), n, j, left + if e.Unmount? && e.i == j then 1 else 0)
  {
    hide InTurn, Bounded, Valid, FlushFrom, Unique;
    StepInTurn(b, n, c0, x, e);
    SlotsOfValid(b);
    if e.FlushPass? {
      var last := Step(b, e);
      InTurnIsDistinct(c0, x, last.cursor, SentSince(last, n));
      FlushBounded(b, n, b.cursor, 0, e.answers, j, left);
    } else {
      OthersAreQuiet(b, e, x);
      QuietBounded(b, n, e, j, left);
    }
  }

  lemma {:induction false} RunBounded(b: Board, n: nat, c0: nat, x: nat, es: seq<Event>, last: Board, j: Iface,
                                      left: nat)
    requires RunHolding(b, es, last, x) && c0 < SLOTS && n <= |b.uart|
    requires InTurn(c0, x, b.cursor, SentSince(b, n)) && Bounded(b, n, j, left)
    ensures b.uart <= last.uart && Bounded(last, n, j, left + Unmounts(es, j))
    decreases |es|
  {
    hide InTurn, Bounded, Step, SentSince;
    if es != [] {
      var next := Step(b, es[0]);
      StepInTurn(b, n, c0, x, es[0]);
      StepBounded(b, n, c0, x, es[0], j, left);
      RunBounded(next, n, c0, x, es[1..], last, j, left + if es[0].Unmount? && es[0].i == j then 1 else 0);
    }
  }

  /** While slot x holds a report, an interface gets at most one report onto the UART before it, and one more for each
      time it was unmounted. */
  lemma InterfaceOvertaking(b: Board, x: nat, es: seq<Event>, last: Board, j: Iface)
    requires RunHolding(b, es, last, x)
    ensures b.uart <= last.uart && |Accepted(last.uart[|b.uart|..], j)| <= 1 + Unmounts(es, j)
  {
    hide InTurn, Bounded, RunHolding, SentSince, Accepted;
    NothingSentYet(b, x, es, last, j);
    RunBounded(b, |b.uart|, b.cursor, x, es, last, j, 0);
    AtMostOneMore(last, |b.uart|, j, Unmounts(es, j));
  }

  lemma NothingSentYet(b: Board, x: nat, es: seq<Event>, last: Board, j: Iface)
    requires RunHolding(b, es, last, x)
    ensures b.cursor < SLOTS && x < SLOTS && InTurn(b.cursor, x, b.cursor, SentSince(b, |b.uart|))
    ensures Bounded(b, |b.uart|, j, 0)
  {
    hide SlotOk, Unique, Step, Allowed;
    assert SentSince(b, |b.uart|) == [] && b.uart[|b.uart|..] == [];
  }

  lemma AtMostOneMore(b: Board, n: nat, j: Iface, left: nat)
    requires n <= |b.uart| && Bounded(b, n, j, left)
    ensures |Accepted(b.uart[n..], j)| <= 1 + left
  {
  }

  lemma {:induction false} TwoAccepted(uart: seq<Packet>, j: Iface, p: nat, q: nat)
    requires p < q < |uart| && uart[p].iface == uart[q].iface == j
    ensures |Accepted(uart, j)| >= 2
  {
    var n := |uart| - 1;
    if q < n {
      TwoAccepted(uart[..n], j, p, q);
    } else {
      OneAccepted(uart[..n], j, p);
    }
  }

  lemma {:induction false} OneAccepted(uart: seq<Packet>, j: Iface, p: nat)
    requires p < |uart| && uart[p].iface == j
    ensures |Accepted(uart, j)| >= 1
  {
    if p < |uart| - 1 {
      OneAccepted(uart[..|uart| - 1], j, p);
    }
  }

  lemma {:induction false} NeverUnmounted(es: seq<Event>, j: Iface)
    requires Unmount(j) !in es
    ensures Unmounts(es, j) == 0
  {
    if es != [] {
      NeverUnmounted(es[1..], j);
    }
  }

  /** So an interface that stays mounted overtakes at most once. */
  lemma OvertakesAtMostOnce(b: Board, x: nat, es: seq<Event>, last: Board, j: Iface)
    requires RunHolding(b, es, last, x) && Unmount(j) !in es
    ensures b.uart <= last.uart
    ensures var sent := last.uart[|b.uart|..];
            forall p, q :: 0 <= p < q < |sent| ==> !(sent[p].iface == j && sent[q].iface == j)
  {
    hide RunHolding;
    InterfaceOvertaking(b, x, es, last, j);
    NeverUnmounted(es, j);
    var sent := last.uart[|b.uart|..];
    forall p, q | 0 <= p < q < |sent| && sent[p].iface == j && sent[q].iface == j
      ensures false
    {
      TwoAccepted(sent, j, p, q);
    }
  }

  // ---- and one that comes back overtakes again ----------------------------------------------------

  const X := Iface(3, 0)
  const Y := Iface(1, 0)
  const Z := Iface(2, 0)

  function Holding(i: Iface, data: Report): Slot {
    Slot(true, i, true, data)
  }

  function Free(i: Iface, data: Report): Slot {
    Slot(true, i, false, data)
  }

  /** A table with X's report held in slot 3, and these slots 0, 5 and 20. */
  function Table(first: Slot, y: Slot, z: Slot): seq<Slot> {
    seq(SLOTS, k => if k == 0 then first else if k == 3 then Holding(X, [3]) else if k == 5 then y
                    else if k == 20 then z else FREE)
  }

  const BOOKS: map<Iface, Books> := map[X := Books([[3]], 0), Y := Books([[1]], 0), Z := Books([[2]], 0)]

  /** Y in slot 5, Z in slot 20 and X in slot 3 hold a report each; the next flush begins at slot 5. */
  function AllHolding(): Board {
    Board(Table(FREE, Holding(Y, [1]), Holding(Z, [2])), 5, {}, [], BOOKS)
  }

  function YSent(): Board {
    Board(Table(FREE, Free(Y, [1]), Holding(Z, [2])), 20, {}, [Packet(5, Y, [1])], BOOKS)
  }

  function YGone(): Board {
    Board(Table(FREE, FREE, Holding(Z, [2])), 20, {}, [Packet(5, Y, [1])], BOOKS - {Y})
  }

  function YBack(): Board {
    Board(Table(Free(Y, []), FREE, Holding(Z, [2])), 20, {Y}, [Packet(5, Y, [1])], BOOKS[Y := Books([], 1)])
  }

  function YHolding(): Board {
    Board(Table(Holding(Y, [9]), FREE, Holding(Z, [2])), 20, {}, [Packet(5, Y, [1])], BOOKS[Y := Books([[9]], 1)])
  }

  function YSentAgain(): Board {
    Board(Table(Free(Y, [9]), FREE, Free(Z, [2])), 3, {},
          [Packet(5, Y, [1]), Packet(20, Z, [2]), Packet(0, Y, [9])], BOOKS[Y := Books([[9]], 1)])
  }

  /** The UART takes what is offered on every visit but this one, and the stack does not arm. */
  function AllBut(refused: nat): seq<Answer> {
    seq(SLOTS, c => Answer(c != refused, false))
  }

  /** A flush takes Y's report and refuses Z's; Y leaves and comes back, to slot 0, where its next report is held; a
      flush takes Z's report and that one, and refuses X's. */
  function ComingBack(): seq<Event> {
    [FlushPass(AllBut(15)), Unmount(Y), Mount(Y, {Y}), Callback(Y, [9], Answer(false, false)), FlushPass(AllBut(7))]
  }

  /** Visits of slots that hold nothing are passed over. */
  lemma {:induction false} Skips(b: Board, start: nat, count: nat, next: nat, answers: seq<Answer>)
    requires |b.slots| == SLOTS == |answers| && count <= next <= SLOTS
    requires forall c :: count <= c < next ==> !Waiting(b.slots[Visit(start, c)])
    ensures FlushFrom(b, start, count, answers) == FlushFrom(b, start, next, answers)
    decreases next - count
  {
    hide Visit;
    if count < next {
      Skips(b, start, count + 1, next, answers);
    }
  }

  /** A visit whose report is taken, and one whose report is refused. */
  lemma Taken(b: Board, start: nat, count: nat, k: nat, answers: seq<Answer>)
    requires |b.slots| == SLOTS == |answers| && count < SLOTS && k == Visit(start, count)
    requires Waiting(b.slots[k]) && |b.slots[k].data| <= EPIN_SIZE && answers[count].uartTakes
    ensures FlushFrom(b, start, count, answers)
         == FlushFrom(Release(b, k, answers[count].agrees), start, count + 1, answers)
  {
  }

  lemma RefusedAt(b: Board, start: nat, count: nat, k: nat, answers: seq<Answer>)
    requires |b.slots| == SLOTS == |answers| && count < SLOTS && k == Visit(start, count)
    requires Waiting(b.slots[k]) && !answers[count].uartTakes
    ensures FlushFrom(b, start, count, answers) == b.(cursor := k)
  {
  }

  lemma FirstFlush()
    requires Valid(AllHolding())
    ensures Step(AllHolding(), FlushPass(AllBut(15))) == YSent()
  {
    hide FlushFrom, Valid;
    var b, answers := AllHolding(), AllBut(15);
    Taken(b, 5, 0, 5, answers);
    var r := Release(b, 5, false);
    assert r.slots == Table(FREE, Free(Y, [1]), Holding(Z, [2]));
    Skips(r, 5, 1, 15, answers);
    RefusedAt(r, 5, 15, 20, answers);
  }

  lemma YLeaves()
    requires Valid(YSent())
    ensures Step(YSent(), Unmount(Y)) == YGone()
  {
    hide Valid;
    assert YSent().slots[5 := FREE] == YGone().slots;
  }

  lemma YIsUnknown()
    ensures Register(YGone().slots, Y) == (YBack().slots, 0)
  {
    var slots := YGone().slots;
    assert forall k :: 0 <= k < SLOTS ==> !Owns(slots[k], Y);
    assert Find(slots, Y) == SLOTS && FindFreeFrom(slots, 0) == 0;
    assert slots[0 := Free(Y, [])] == YBack().slots;
  }

  lemma YReturns()
    requires Valid(YGone())
    ensures Step(YGone(), Mount(Y, {Y})) == YBack()
  {
    hide Valid, Register;
    YIsUnknown();
    assert YGone().slots[0] != YBack().slots[0];
    assert Enter(YGone(), Y).0 == YBack().(armed := {});
    assert Owns(YBack().slots[0], Y) && YBack().slots[0] in YBack().slots;
  }

  lemma YIsHeld()
    requires Valid(YBack())
    ensures Step(YBack(), Callback(Y, [9], Answer(false, false))) == YHolding()
  {
    hide Valid;
    var done := YBack().(armed := {});
    assert done.slots[0 := Holding(Y, [9])] == YHolding().slots;
    assert Find(done.slots, Y) == 0 && Find(YHolding().slots, Y) == 0;
    assert Enter(done, Y) == (done, 0);
    assert Waiting(done.slots[3]);
    assert done.books[Y] == Books([], 1) && done.books[Y].received + [[9]] == [[9]];
    assert Book(done, Y, [9]) == YHolding().books;
    assert Deliver(done, 0, [9], false) == YHolding();
    assert YBack().armed - {Y} == {};
  }

  lemma SecondFlush()
    requires Valid(YHolding())
    ensures Step(YHolding(), FlushPass(AllBut(7))) == YSentAgain()
  {
    hide FlushFrom, Valid;
    var b, answers := YHolding(), AllBut(7);
    Taken(b, 20, 0, 20, answers);
    var r := Release(b, 20, false);
    assert r.slots == Table(Holding(Y, [9]), FREE, Free(Z, [2]));
    Skips(r, 20, 1, 4, answers);
    Taken(r, 20, 4, 0, answers);
    var t := Release(r, 0, false);
    assert t.slots == Table(Free(Y, [9]), FREE, Free(Z, [2]));
    Skips(t, 20, 5, 7, answers);
    RefusedAt(t, 20, 7, 3, answers);
  }

  lemma AllHoldingValid()
    ensures Valid(AllHolding())
  {
  }

  lemma HoldingNext(b: Board, e: Event, next: Board, es: seq<Event>, last: Board, x: nat)
    requires Valid(b) && x < SLOTS && Waiting(b.slots[x]) && Allowed(b, e) && Step(b, e) == next
    requires RunHolding(next, es, last, x)
    ensures RunHolding(b, [e] + es, last, x)
  {
    hide Valid, Step, Allowed;
    assert ([e] + es)[1..] == es;
  }

  /** The bound is met: while X's report is held, Y, unmounted once, gets two reports onto the UART before it. */
  lemma ComingBackOvertakesTwice()
    ensures RunHolding(AllHolding(), ComingBack(), YSentAgain(), 3)
    ensures AllHolding().uart == [] && YSentAgain().uart == [Packet(5, Y, [1]), Packet(20, Z, [2]), Packet(0, Y, [9])]
    ensures Unmounts(ComingBack(), Y) == 1 && Accepted(YSentAgain().uart, Y) == [[1], [9]]
  {
    hide Valid, Step;
    var es := ComingBack();
    AllHoldingValid();
    FirstFlush();
    StepKeepsValid(AllHolding(), es[0]);
    YLeaves();
    StepKeepsValid(YSent(), es[1]);
    YReturns();
    StepKeepsValid(YGone(), es[2]);
    YIsHeld();
    StepKeepsValid(YBack(), es[3]);
    SecondFlush();
    StepKeepsValid(YHolding(), es[4]);
    assert RunHolding(YSentAgain(), [], YSentAgain(), 3);
    HoldingNext(YHolding(), es[4], YSentAgain(), [], YSentAgain(), 3);
    HoldingNext(YBack(), es[3], YHolding(), [es[4]] + [], YSentAgain(), 3);
    HoldingNext(YGone(), es[2], YBack(), [es[3]] + ([es[4]] + []), YSentAgain(), 3);
    HoldingNext(YSent(), es[1], YGone(), [es[2]] + ([es[3]] + ([es[4]] + [])), YSentAgain(), 3);
    HoldingNext(AllHolding(), es[0], YSent(), [es[1]] + ([es[2]] + ([es[3]] + ([es[4]] + []))), YSentAgain(), 3);
    assert [es[0]] + ([es[1]] + ([es[2]] + ([es[3]] + ([es[4]] + [])))) == es;
    LeavesOnce();
    TwoOfThree();
  }

  lemma LeavesOnce()
    ensures Unmounts(ComingBack(), Y) == 1
  {
    var es := ComingBack();
    assert es[1..][0] == es[1] && es[1..][1..] == es[2..];
    NeverUnmounted(es[2..], Y);
  }

  lemma TwoOfThree()
    ensures Accepted(YSentAgain().uart, Y) == [[1], [9]]
  {
    var p, q, r := Packet(5, Y, [1]), Packet(20, Z, [2]), Packet(0, Y, [9]);
    AcceptedSnoc([], 0, p, Y);
    AcceptedSnoc([p], 0, q, Y);
    AcceptedSnoc([p, q], 0, r, Y);
    assert [] + [p] == [p] && [p] + [q] == [p, q] && [p, q] + [r] == [p, q, r];
    assert [p][0..] == [p] && [p, q][0..] == [p, q] && [p, q, r][0..] == [p, q, r];
  }
}
