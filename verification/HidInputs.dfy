/** Backpressure on the host board, `remapper_dual_b.cc`: one report slot per HID interface, re-armed only
    once its report has been handed to the UART. */
module HidInputs {
  import opened Bytes

  /** CFG_TUH_HID and CFG_TUH_HID_EPIN_BUFSIZE. */
  const SLOTS: nat := 24
  const EPIN_SIZE: nat := 64

  datatype Iface = Iface(devAddr: Byte, instance: Byte)
  type Report = seq<Byte>

  datatype Slot = Slot(active: bool, iface: Iface, pending: bool, data: Report)

  const FREE: Slot := Slot(false, Iface(0, 0), false, [])

  /** A report the UART has accepted, and the slot it belongs to. */
  datatype Packet = Packet(slot: nat, iface: Iface, data: Report)

  // ---- the slot table -----------------------------------------------------------

  predicate Owns(s: Slot, i: Iface) {
    s.active && s.iface == i
  }

  /** The first slot from k on that belongs to i, or SLOTS. */
  function FindFrom(slots: seq<Slot>, i: Iface, k: nat): (r: nat)
    requires k <= |slots|
    ensures k <= r <= |slots| && (r < |slots| ==> Owns(slots[r], i))
    ensures forall j :: k <= j < r ==> !Owns(slots[j], i)
    decreases |slots| - k
  {
    if k == |slots| || Owns(slots[k], i) then k else FindFrom(slots, i, k + 1)
  }

  function Find(slots: seq<Slot>, i: Iface): nat {
    FindFrom(slots, i, 0)
  }

  function FindFreeFrom(slots: seq<Slot>, k: nat): (r: nat)
    requires k <= |slots|
    ensures k <= r <= |slots| && (r < |slots| ==> !slots[r].active)
    ensures forall j :: k <= j < r ==> slots[j].active
    decreases |slots| - k
  {
    if k == |slots| || !slots[k].active then k else FindFreeFrom(slots, k + 1)
  }

  /** `register_hid_input`: the table afterwards, and where i is in it, if anywhere. */
  function Register(slots: seq<Slot>, i: Iface): (seq<Slot>, nat) {
    var found := Find(slots, i);
    if found < |slots| then (slots, found) else
      var free := FindFreeFrom(slots, 0);
      if free < |slots| then (slots[free := Slot(true, i, false, [])], free) else (slots, |slots|)
  }

  predicate Waiting(s: Slot) {
    s.active && s.pending
  }

  predicate HasPending(slots: seq<Slot>) {
    exists k :: 0 <= k < |slots| && Waiting(slots[k])
  }

  // ---- the board: its table, the USB stack and the UART --------------------------

  /** The books on one tabled interface: what its callback has brought, and where the UART's log stood
      when the interface entered the table. */
  datatype Books = Books(received: seq<Report>, since: nat)

  /** `armed`: transfers the USB stack has under way. `uart`: reports accepted, in order. */
  datatype Board = Board(slots: seq<Slot>, cursor: nat, armed: set<Iface>, uart: seq<Packet>,
                         books: map<Iface, Books>)

  /** The reports of one interface among those the UART accepted. */
  function Accepted(uart: seq<Packet>, i: Iface): seq<Report> {
    if uart == [] then [] else
      Accepted(uart[..|uart| - 1], i) +
      (if uart[|uart| - 1].iface == i then [uart[|uart| - 1].data] else [])
  }

  ghost predicate Unique(slots: seq<Slot>) {
    forall j, k :: 0 <= j < k < |slots| && slots[j].active && slots[k].active ==> slots[j].iface != slots[k].iface
  }

  function Held(s: Slot): seq<Report> {
    if s.pending then [s.data] else []
  }

  /** Reports accepted by the UART, then the one held, are what the callback received; while one is held
      no transfer is under way. */
  ghost predicate SlotOk(b: Board, s: Slot) {
    s.active ==>
      && s.iface in b.books
      && b.books[s.iface].since <= |b.uart|
      && b.books[s.iface].received == Accepted(b.uart[b.books[s.iface].since..], s.iface) + Held(s)
      && (s.pending ==> s.iface !in b.armed && |s.data| <= EPIN_SIZE)
  }

  ghost predicate Valid(b: Board) {
    && |b.slots| == SLOTS && b.cursor < SLOTS
    && Unique(b.slots)
    && forall k :: 0 <= k < SLOTS ==> SlotOk(b, b.slots[k])
  }

  const INITIAL: Board := Board(seq(SLOTS, _ => FREE), 0, {}, [], map[])

  // ---- the steps -------------------------------------------------------------------

  /** What the outside answers: whether the UART takes a report and whether the USB stack agrees to arm. */
  datatype Answer = Answer(uartTakes: bool, agrees: bool)

  /** `arm_hid_report`. */
  function Arm(b: Board, i: Iface, agrees: bool): Board {
    if agrees then b.(armed := b.armed + {i}) else b
  }

  /** Slot k's held report goes out and its interface is armed again. */
  function Release(b: Board, k: nat, agrees: bool): Board
    requires k < |b.slots|
  {
    var s := b.slots[k];
    Arm(b.(uart := b.uart + [Packet(k, s.iface, s.data)],
           slots := b.slots[k := s.(pending := false)],
           cursor := (k + 1) % SLOTS), s.iface, agrees)
  }

  /** The slot of a flush's visit number `count`, from slot `start` on. */
  function Visit(start: nat, count: nat): (k: nat)
    ensures k < SLOTS
  {
    (start + count) % SLOTS
  }

  /** `flush_pending_hid_reports` from visit `count` on. */
  function FlushFrom(b: Board, start: nat, count: nat, answers: seq<Answer>): (last: Board)
    requires |b.slots| == SLOTS == |answers| && count <= SLOTS
    ensures |last.slots| == SLOTS
    decreases SLOTS - count
  {
    if count == SLOTS then b else
      var k := Visit(start, count);
      if !Waiting(b.slots[k]) then FlushFrom(b, start, count + 1, answers)
      else if |b.slots[k].data| > EPIN_SIZE || !answers[count].uartTakes then b.(cursor := k)
      else FlushFrom(Release(b, k, answers[count].agrees), start, count + 1, answers)
  }

  /** `arm_ready_hid_inputs`: every tabled interface with nothing held, if its endpoint is idle. */
  function ArmReady(b: Board, agreeing: set<Iface>): Board {
    b.(armed := b.armed + set s | s in b.slots && s.active && !s.pending && s.iface in agreeing :: s.iface)
  }

  /** An interface entering the table starts with empty books. */
  function Enter(b: Board, i: Iface): (Board, nat) {
    var (slots, k) := Register(b.slots, i);
    (if slots == b.slots then b else b.(slots := slots, books := b.books[i := Books([], |b.uart|)]), k)
  }

  /** `unregister_hid_input`; the device is gone, and its transfers with it. */
  function Leave(b: Board, i: Iface): Board {
    var k := Find(b.slots, i);
    var gone := b.(armed := b.armed - {i});
    if k < |b.slots| then gone.(slots := b.slots[k := FREE], books := b.books - {i}) else gone
  }

  function Book(b: Board, i: Iface, data: Report): map<Iface, Books>
    requires i in b.books
  {
    b.books[i := b.books[i].(received := b.books[i].received + [data])]
  }

  function Hold(b: Board, k: nat, data: Report): Board
    requires k < |b.slots| && b.slots[k].iface in b.books
  {
    b.(books := Book(b, b.slots[k].iface, data), slots := b.slots[k := b.slots[k].(pending := true, data := data)])
  }

  function Pass(b: Board, k: nat, data: Report): Board
    requires k < |b.slots| && b.slots[k].iface in b.books
  {
    b.(books := Book(b, b.slots[k].iface, data), uart := b.uart + [Packet(k, b.slots[k].iface, data)])
  }

  /** `report_received_callback` once slot k is known to be its interface's. */
  function Deliver(b: Board, k: nat, data: Report, uartTakes: bool): Board
    requires k < |b.slots| && b.slots[k].iface in b.books
  {
    if HasPending(b.slots) || !uartTakes then Hold(b, k, data) else Pass(b, k, data)
  }

  /** `tuh_hid_report_received_cb`: the transfer is over; its report goes to the UART or is held, and the
      interface is armed again unless it is held. Reports too long for a slot are dropped. */
  function Complete(b: Board, i: Iface, data: Report, answer: Answer): Board
    requires Valid(b)
  {
    var done := b.(armed := b.armed - {i});
    var (e, k) := Enter(done, i);
    var r :=
      if |data| > EPIN_SIZE then done
      else if k < |e.slots| && e.slots[k].iface in e.books then Deliver(e, k, data, answer.uartTakes)
      else e;
    var at := Find(r.slots, i);
    if at < |r.slots| && !r.slots[at].pending then Arm(r, i, answer.agrees) else r
  }

  datatype Event =
    | Callback(i: Iface, data: Report, answer: Answer)
    | FlushPass(answers: seq<Answer>)
    | ArmPass(agreeing: set<Iface>)
    | Mount(i: Iface, agreeing: set<Iface>)
    | Unmount(i: Iface)
    | ArmedElsewhere(i: Iface)

  /** What the environment may do next: one callback for each transfer that was armed, and transfers armed
      by other code only for interfaces outside the table. */
  predicate Allowed(b: Board, e: Event) {
    match e
    case Callback(i, _, _) => i in b.armed
    case FlushPass(answers) => |answers| == SLOTS
    case ArmedElsewhere(i) => Find(b.slots, i) == |b.slots|
    case _ => true
  }

  function Step(b: Board, e: Event): Board
    requires Valid(b) && Allowed(b, e)
  {
    match e
    case Callback(i, data, answer) => Complete(b, i, data, answer)
    case FlushPass(answers) => FlushFrom(b, b.cursor, 0, answers)
    case ArmPass(agreeing) => ArmReady(b, agreeing)
    case Mount(i, agreeing) => ArmReady(Enter(b, i).0, agreeing)
    case Unmount(i) => Leave(b, i)
    case ArmedElsewhere(i) => b.(armed := b.armed + {i})
  }

  // ---- no loss, no reordering --------------------------------------------------------

  lemma AcceptedSnoc(uart: seq<Packet>, since: nat, p: Packet, i: Iface)
    requires since <= |uart|
    ensures Accepted((uart + [p])[since..], i)
         == Accepted(uart[since..], i) + (if p.iface == i then [p.data] else [])
  {
    assert (uart + [p])[since..] == uart[since..] + [p];
    assert (uart[since..] + [p])[..|uart[since..]|] == uart[since..];
  }

  lemma ReleaseKeepsValid(b: Board, k: nat, agrees: bool)
    requires Valid(b) && k < SLOTS && Waiting(b.slots[k])
    ensures Valid(Release(b, k, agrees))
  {
    hide Accepted;
    var s := b.slots[k];
    var p := Packet(k, s.iface, s.data);
    var after := Release(b, k, agrees);
    forall j | 0 <= j < SLOTS
      ensures SlotOk(after, after.slots[j])
    {
      assert SlotOk(b, b.slots[j]) && SlotOk(b, s);
      if b.slots[j].active {
        AcceptedSnoc(b.uart, b.books[b.slots[j].iface].since, p, b.slots[j].iface);
      }
    }
  }

  lemma {:induction false} FlushKeepsValid(b: Board, start: nat, count: nat, answers: seq<Answer>)
    requires Valid(b) && |answers| == SLOTS && count <= SLOTS
    ensures Valid(FlushFrom(b, start, count, answers))
    decreases SLOTS - count
  {
    hide Visit;
    if count < SLOTS {
      var k := Visit(start, count);
      if !Waiting(b.slots[k]) {
        FlushKeepsValid(b, start, count + 1, answers);
      } else if |b.slots[k].data| > EPIN_SIZE || !answers[count].uartTakes {
        var after := b.(cursor := k);
        assert forall j :: 0 <= j < SLOTS ==> SlotOk(b, b.slots[j]) ==> SlotOk(after, after.slots[j]);
      } else {
        ReleaseKeepsValid(b, k, answers[count].agrees);
        FlushKeepsValid(Release(b, k, answers[count].agrees), start, count + 1, answers);
      }
    }
  }

  lemma ArmReadyKeepsValid(b: Board, agreeing: set<Iface>)
    requires Valid(b)
    ensures Valid(ArmReady(b, agreeing))
  {
    var after := ArmReady(b, agreeing);
    forall j | 0 <= j < SLOTS
      ensures SlotOk(after, after.slots[j])
    {
      assert SlotOk(b, b.slots[j]);
    }
  }

  lemma EnterKeepsValid(b: Board, i: Iface)
    requires Valid(b)
    ensures var (e, k) := Enter(b, i);
            && Valid(e) && k <= SLOTS && (k < SLOTS ==> Owns(e.slots[k], i) && i in e.books)
            && (e.slots == b.slots ==> e == b)
            && e.uart == b.uart && e.armed == b.armed
            && (k == SLOTS ==> Find(e.slots, i) == SLOTS)
  {
    hide FindFrom, FindFreeFrom;
    var (e, k) := Enter(b, i);
    forall j | 0 <= j < SLOTS
      ensures SlotOk(e, e.slots[j])
    {
      assert SlotOk(b, b.slots[j]);
      assert b.uart[|b.uart|..] == [];
    }
  }

  lemma LeaveKeepsValid(b: Board, i: Iface)
    requires Valid(b)
    ensures Valid(Leave(b, i))
  {
    var after := Leave(b, i);
    forall j | 0 <= j < SLOTS
      ensures SlotOk(after, after.slots[j])
    {
      assert SlotOk(b, b.slots[j]);
    }
  }

  lemma HoldKeepsValid(b: Board, k: nat, data: Report)
    requires Valid(b) && k < SLOTS && b.slots[k].active && !b.slots[k].pending
    requires b.slots[k].iface !in b.armed && |data| <= EPIN_SIZE
    ensures SlotOk(b, b.slots[k]) && Valid(Hold(b, k, data))
  {
    assert SlotOk(b, b.slots[k]);
    var after := Hold(b, k, data);
    forall j | 0 <= j < SLOTS
      ensures SlotOk(after, after.slots[j])
    {
      assert SlotOk(b, b.slots[j]);
    }
  }

  lemma PassKeepsValid(b: Board, k: nat, data: Report)
    requires Valid(b) && k < SLOTS && b.slots[k].active && !b.slots[k].pending
    ensures SlotOk(b, b.slots[k]) && Valid(Pass(b, k, data))
  {
    hide Accepted, Find;
    assert SlotOk(b, b.slots[k]);
    var after := Pass(b, k, data);
    forall j | 0 <= j < SLOTS
      ensures SlotOk(after, after.slots[j])
    {
      assert SlotOk(b, b.slots[j]);
      if b.slots[j].active {
        AcceptedSnoc(b.uart, b.books[b.slots[j].iface].since, Packet(k, b.slots[k].iface, data), b.slots[j].iface);
      }
    }
  }

  lemma ArmKeepsValid(b: Board, k: nat, agrees: bool)
    requires Valid(b) && k < SLOTS && b.slots[k].active && !b.slots[k].pending
    ensures Valid(Arm(b, b.slots[k].iface, agrees))
  {
    var after := Arm(b, b.slots[k].iface, agrees);
    forall j | 0 <= j < SLOTS
      ensures SlotOk(after, after.slots[j])
    {
      assert SlotOk(b, b.slots[j]);
    }
  }

  lemma DisarmKeepsValid(b: Board, i: Iface)
    requires Valid(b)
    ensures Valid(b.(armed := b.armed - {i}))
  {
    var after := b.(armed := b.armed - {i});
    forall j | 0 <= j < SLOTS
      ensures SlotOk(after, after.slots[j])
    {
      assert SlotOk(b, b.slots[j]);
    }
  }

  /** A callback never meets a held report: an interface whose report is held has no transfer under way. */
  lemma CallbackFindsSlotFree(b: Board, i: Iface, k: nat)
    requires Valid(b) && i in b.armed && k < SLOTS && Owns(b.slots[k], i)
    ensures !b.slots[k].pending
  {
    assert SlotOk(b, b.slots[k]);
  }

  lemma EnterFindsSlotFree(b: Board, i: Iface)
    requires Valid(b) && i in b.armed
    ensures var (e, k) := Enter(b.(armed := b.armed - {i}), i);
            k < SLOTS ==> !e.slots[k].pending
  {
    var k := Find(b.slots, i);
    if k < SLOTS {
      CallbackFindsSlotFree(b, i, k);
    }
  }

  lemma CompleteKeepsValid(b: Board, i: Iface, data: Report, answer: Answer)
    requires Valid(b) && i in b.armed
    ensures Valid(Complete(b, i, data, answer))
  {
    var done := b.(armed := b.armed - {i});
    DisarmKeepsValid(b, i);
    EnterKeepsValid(done, i);
    EnterFindsSlotFree(b, i);
    var (e, k) := Enter(done, i);
    var r :=
      if |data| > EPIN_SIZE then done
      else if k < |e.slots| && e.slots[k].iface in e.books then Deliver(e, k, data, answer.uartTakes)
      else e;
    if |data| <= EPIN_SIZE && k < SLOTS {
      if HasPending(e.slots) || !answer.uartTakes {
        HoldKeepsValid(e, k, data);
      } else {
        PassKeepsValid(e, k, data);
      }
    }
    var at := Find(r.slots, i);
    if at < SLOTS && !r.slots[at].pending {
      ArmKeepsValid(r, at, answer.agrees);
    }
  }

  lemma ArmElsewhereKeepsValid(b: Board, i: Iface)
    requires Valid(b) && Find(b.slots, i) == |b.slots|
    ensures Valid(b.(armed := b.armed + {i}))
  {
    var after := b.(armed := b.armed + {i});
    forall j | 0 <= j < SLOTS
      ensures SlotOk(after, after.slots[j])
    {
      assert SlotOk(b, b.slots[j]);
    }
  }

  lemma StepKeepsValid(b: Board, e: Event)
    requires Valid(b) && Allowed(b, e)
    ensures Valid(Step(b, e))
  {
    match e
    case Callback(i, data, answer) => CompleteKeepsValid(b, i, data, answer);
    case FlushPass(answers) => FlushKeepsValid(b, b.cursor, 0, answers);
    case ArmPass(agreeing) => ArmReadyKeepsValid(b, agreeing);
    case Mount(i, agreeing) =>
      EnterKeepsValid(b, i);
      ArmReadyKeepsValid(Enter(b, i).0, agreeing);
    case Unmount(i) => LeaveKeepsValid(b, i);
    case ArmedElsewhere(i) => ArmElsewhereKeepsValid(b, i);
  }

  /** A run: each event is one the environment may bring about there. */
  ghost predicate Run(b: Board, es: seq<Event>, last: Board)
    decreases |es|
  {
    if es == [] then last == b
    else Valid(b) && Allowed(b, es[0]) && Run(Step(b, es[0]), es[1..], last)
  }

  lemma InitialValid()
    ensures Valid(INITIAL)
  {
  }

  lemma {:induction false} RunKeepsValid(b: Board, es: seq<Event>, last: Board)
    requires Valid(b) && Run(b, es, last)
    ensures Valid(last)
    decreases |es|
  {
    if es != [] {
      StepKeepsValid(b, es[0]);
      RunKeepsValid(Step(b, es[0]), es[1..], last);
    }
  }

  /** No report is lost, invented or reordered under backpressure: whatever the UART and the USB stack
      answered, what an interface's callback received since it entered the table is what the UART accepted
      from it, in order, followed by the report its slot still holds. */
  lemma NothingLost(es: seq<Event>, last: Board, k: nat)
    requires Run(INITIAL, es, last) && k < SLOTS && |last.slots| == SLOTS && last.slots[k].active
    ensures var i := last.slots[k].iface;
            && i in last.books && last.books[i].since <= |last.uart|
            && last.books[i].received == Accepted(last.uart[last.books[i].since..], i) + Held(last.slots[k])
            && (last.slots[k].pending ==> i !in last.armed)
  {
    InitialValid();
    RunKeepsValid(INITIAL, es, last);
    assert SlotOk(last, last.slots[k]);
  }

  // ---- bounded overtaking ------------------------------------------------------------------

  /** How far round the table `to` lies from `from`. */
  function Dist(from: nat, to: nat): nat
    requires from < SLOTS && to < SLOTS
  {
    if from <= to then to - from else to + SLOTS - from
  }

  /** The slots of the reports accepted since the log was `n` long. */
  function SentSince(b: Board, n: nat): seq<int>
    requires n <= |b.uart|
  {
    seq(|b.uart| - n, j requires 0 <= j < |b.uart| - n => b.uart[n + j].slot)
  }

  /** Since the cursor stood at c0, it has moved on from slot to slot, each slot sent from lies behind it,
      in circular order, and it has not passed x. */
  ghost predicate InTurn(c0: nat, x: nat, cursor: nat, sent: seq<int>)
    requires c0 < SLOTS && x < SLOTS && cursor < SLOTS
  {
    && Dist(c0, cursor) <= Dist(c0, x)
    && |sent| <= Dist(c0, cursor)
    && (forall a :: 0 <= a < |sent| ==> 0 <= sent[a] < SLOTS && Dist(c0, sent[a]) < Dist(c0, cursor))
    && forall a, z :: 0 <= a < z < |sent| ==> Dist(c0, sent[a]) < Dist(c0, sent[z])
  }

  lemma VisitDist(c0: nat, start: nat, count: nat)
    requires c0 < SLOTS && start < SLOTS && Dist(c0, start) + count < SLOTS
    ensures Dist(c0, Visit(start, count)) == Dist(c0, start) + count
    ensures Dist(c0, start) + count + 1 < SLOTS ==>
              Dist(c0, (Visit(start, count) + 1) % SLOTS) == Dist(c0, start) + count + 1
  {
    var k := if start + count < SLOTS then start + count else start + count - SLOTS;
    assert Visit(start, count) == k;
    assert (k + 1) % SLOTS == if k + 1 < SLOTS then k + 1 else 0;
  }

  /** A flush only ever clears slots. */
  lemma {:induction false} FlushOnlyClears(b: Board, start: nat, count: nat, answers: seq<Answer>, x: nat)
    requires |b.slots| == SLOTS == |answers| && count <= SLOTS && x < SLOTS
    ensures var last := FlushFrom(b, start, count, answers);
            |last.slots| == SLOTS && (Waiting(last.slots[x]) ==> Waiting(b.slots[x])) && b.uart <= last.uart
    decreases SLOTS - count
  {
    hide Visit;
    if count < SLOTS {
      var k := Visit(start, count);
      if !Waiting(b.slots[k]) {
        FlushOnlyClears(b, start, count + 1, answers, x);
      } else if !(|b.slots[k].data| > EPIN_SIZE || !answers[count].uartTakes) {
        FlushOnlyClears(Release(b, k, answers[count].agrees), start, count + 1, answers, x);
      }
    }
  }

  lemma VisitsDiffer(start: nat, c: nat, d: nat)
    requires start < SLOTS && c < SLOTS && d < SLOTS && c != d
    ensures Visit(start, c) != Visit(start, d)
  {
    VisitDist(start, start, c);
    VisitDist(start, start, d);
  }

  /** Visits before number `stop` sent what was held there; the slots from there on are as they were. */
  ghost predicate SentUpTo(b: Board, last: Board, start: nat, count: nat, stop: nat, answers: seq<Answer>)
    requires |b.slots| == |last.slots| == SLOTS == |answers| && count <= stop <= SLOTS
  {
    && (forall c :: count <= c < stop ==>
          && !Waiting(last.slots[Visit(start, c)])
          && (Waiting(b.slots[Visit(start, c)]) ==> answers[c].uartTakes))
    && forall c :: stop <= c < SLOTS ==> last.slots[Visit(start, c)] == b.slots[Visit(start, c)]
  }

  /** One more visit before the others. */
  lemma SentOneMore(b: Board, mid: Board, last: Board, start: nat, count: nat, stop: nat, answers: seq<Answer>)
    requires |b.slots| == |mid.slots| == |last.slots| == SLOTS == |answers| && start < SLOTS && count < stop <= SLOTS
    requires SentUpTo(mid, last, start, count + 1, stop, answers)
    requires var k := Visit(start, count);
             && mid.slots == b.slots[k := mid.slots[k]] && !Waiting(last.slots[k])
             && (Waiting(b.slots[k]) ==> answers[count].uartTakes)
    ensures SentUpTo(b, last, start, count, stop, answers)
    ensures stop < SLOTS ==> mid.slots[Visit(start, stop)] == b.slots[Visit(start, stop)]
  {
    hide Visit;
    forall c | count < c < SLOTS
      ensures mid.slots[Visit(start, c)] == b.slots[Visit(start, c)]
    {
      VisitsDiffer(start, c, count);
    }
  }

  /** A flush goes on to the first report that is refused, if any, and leaves the cursor there. */
  lemma {:induction false} FlushStops(b: Board, start: nat, count: nat, answers: seq<Answer>) returns (stop: nat)
    requires |b.slots| == SLOTS == |answers| && count <= SLOTS && start < SLOTS
    ensures count <= stop <= SLOTS
    ensures var last := FlushFrom(b, start, count, answers);
            && SentUpTo(b, last, start, count, stop, answers)
            && (stop < SLOTS ==>
                  && last.cursor == Visit(start, stop) && Waiting(b.slots[last.cursor])
                  && (|b.slots[last.cursor].data| > EPIN_SIZE || !answers[stop].uartTakes))
    decreases SLOTS - count
  {
    if count == SLOTS {
      stop := SLOTS;
    } else {
      hide SentUpTo, Visit;
      var k := Visit(start, count);
      var last := FlushFrom(b, start, count, answers);
      if !Waiting(b.slots[k]) {
        stop := FlushStops(b, start, count + 1, answers);
        FlushOnlyClears(b, start, count + 1, answers, k);
        SentOneMore(b, b, last, start, count, stop, answers);
      } else if |b.slots[k].data| > EPIN_SIZE || !answers[count].uartTakes {
        stop := count;
        NothingSent(b, last, start, count, answers);
      } else {
        var released := Release(b, k, answers[count].agrees);
        stop := FlushStops(released, start, count + 1, answers);
        FlushOnlyClears(released, start, count + 1, answers, k);
        SentOneMore(b, released, last, start, count, stop, answers);
      }
    }
  }

  lemma NothingSent(b: Board, last: Board, start: nat, count: nat, answers: seq<Answer>)
    requires |b.slots| == SLOTS == |answers| && count <= SLOTS && last.slots == b.slots
    ensures SentUpTo(b, last, start, count, count, answers)
  {
  }

  lemma ReleaseInTurn(b: Board, n: nat, c0: nat, x: nat, start: nat, count: nat, agrees: bool)
    requires |b.slots| == SLOTS && c0 < SLOTS && x < SLOTS && b.cursor < SLOTS && n <= |b.uart| && start < SLOTS
    requires InTurn(c0, x, b.cursor, SentSince(b, n))
    requires Dist(c0, b.cursor) <= Dist(c0, start) + count < Dist(c0, x)
    ensures var after := Release(b, Visit(start, count), agrees);
            && after.cursor < SLOTS
            && InTurn(c0, x, after.cursor, SentSince(after, n))
            && Dist(c0, after.cursor) == Dist(c0, start) + count + 1
  {
    VisitDist(c0, start, count);
    var k := Visit(start, count);
    assert SentSince(Release(b, k, agrees), n) == SentSince(b, n) + [k];
  }

  lemma RefuseInTurn(b: Board, n: nat, c0: nat, x: nat, start: nat, count: nat)
    requires c0 < SLOTS && x < SLOTS && b.cursor < SLOTS && n <= |b.uart| && start < SLOTS
    requires InTurn(c0, x, b.cursor, SentSince(b, n))
    requires Dist(c0, b.cursor) <= Dist(c0, start) + count <= Dist(c0, x)
    ensures var after := b.(cursor := Visit(start, count)); InTurn(c0, x, after.cursor, SentSince(after, n))
  {
    VisitDist(c0, start, count);
    assert SentSince(b.(cursor := Visit(start, count)), n) == SentSince(b, n);
  }

  lemma {:induction false} FlushInTurn(b: Board, n: nat, c0: nat, x: nat, start: nat, count: nat, answers: seq<Answer>)
    requires |b.slots| == SLOTS == |answers| && count <= SLOTS
    requires c0 < SLOTS && x < SLOTS && b.cursor < SLOTS && n <= |b.uart| && start < SLOTS
    requires InTurn(c0, x, b.cursor, SentSince(b, n))
    requires Dist(c0, b.cursor) <= Dist(c0, start) + count <= Dist(c0, x)
    requires Waiting(FlushFrom(b, start, count, answers).slots[x])
    ensures var last := FlushFrom(b, start, count, answers);
            && last.cursor < SLOTS && n <= |last.uart| && InTurn(c0, x, last.cursor, SentSince(last, n))
    decreases SLOTS - count
  {
    hide InTurn, Visit;
    FlushOnlyClears(b, start, count, answers, x);
    RefuseInTurn(b, n, c0, x, start, count);
    VisitDist(c0, start, count);
    var k := Visit(start, count);
    if k == x {
      if !(|b.slots[x].data| > EPIN_SIZE || !answers[count].uartTakes) {
        FlushOnlyClears(Release(b, x, answers[count].agrees), start, count + 1, answers, x);
      }
    } else {
      SameDist(c0, k, x);
      if !Waiting(b.slots[k]) {
        FlushInTurn(b, n, c0, x, start, count + 1, answers);
      } else if !(|b.slots[k].data| > EPIN_SIZE || !answers[count].uartTakes) {
        ReleaseInTurn(b, n, c0, x, start, count, answers[count].agrees);
        FlushInTurn(Release(b, k, answers[count].agrees), n, c0, x, start, count + 1, answers);
      }
    }
  }

  lemma SameDist(c0: nat, k: nat, x: nat)
    requires c0 < SLOTS && k < SLOTS && x < SLOTS
    ensures Dist(c0, k) == Dist(c0, x) <==> k == x
  {
  }

  /** While x waits, nothing but a flush sends, and a flush sends in turn. */
  lemma StepInTurn(b: Board, n: nat, c0: nat, x: nat, e: Event)
    requires Valid(b) && Allowed(b, e) && c0 < SLOTS && x < SLOTS && n <= |b.uart|
    requires InTurn(c0, x, b.cursor, SentSince(b, n))
    requires Waiting(b.slots[x]) && |Step(b, e).slots| == SLOTS && Waiting(Step(b, e).slots[x])
    ensures var last := Step(b, e);
            && last.cursor < SLOTS && b.uart <= last.uart && InTurn(c0, x, last.cursor, SentSince(last, n))
  {
    match e
    case FlushPass(answers) =>
      FlushOnlyClears(b, b.cursor, 0, answers, x);
      FlushInTurn(b, n, c0, x, b.cursor, 0, answers);
    case Callback(i, data, answer) =>
      CallbackDiverted(b, i, data, answer, x);
      assert SentSince(Step(b, e), n) == SentSince(b, n);
    case _ =>
      assert Step(b, e).uart == b.uart && Step(b, e).cursor == b.cursor;
      assert SentSince(Step(b, e), n) == SentSince(b, n);
  }

  lemma CallbackDiverted(b: Board, i: Iface, data: Report, answer: Answer, x: nat)
    requires Valid(b) && x < SLOTS && Waiting(b.slots[x])
    ensures Complete(b, i, data, answer).uart == b.uart && Complete(b, i, data, answer).cursor == b.cursor
  {
    var done := b.(armed := b.armed - {i});
    var (e, k) := Enter(done, i);
    assert Waiting(e.slots[x]);
    assert HasPending(e.slots);
  }

  /** A run throughout which slot x holds its report. */
  ghost predicate RunHolding(b: Board, es: seq<Event>, last: Board, x: nat)
    decreases |es|
  {
    && Valid(b) && x < SLOTS && Waiting(b.slots[x])
    && if es == [] then last == b else Allowed(b, es[0]) && RunHolding(Step(b, es[0]), es[1..], last, x)
  }

  lemma {:induction false} RunInTurn(b: Board, n: nat, c0: nat, x: nat, es: seq<Event>, last: Board)
    requires RunHolding(b, es, last, x) && c0 < SLOTS && n <= |b.uart|
    requires InTurn(c0, x, b.cursor, SentSince(b, n))
    ensures last.cursor < SLOTS && b.uart <= last.uart && InTurn(c0, x, last.cursor, SentSince(last, n))
    decreases |es|
  {
    if es != [] {
      StepInTurn(b, n, c0, x, es[0]);
      RunInTurn(Step(b, es[0]), n, c0, x, es[1..], last);
    }
  }

  /** Bounded overtaking: while slot x holds a report, every other slot gets at most one report onto the
      UART, so at most 23 in all. */
  lemma BoundedOvertaking(b: Board, x: nat, es: seq<Event>, last: Board)
    requires RunHolding(b, es, last, x)
    ensures b.uart <= last.uart
    ensures var sent := SentSince(last, |b.uart|);
            && (forall j, k :: 0 <= j < k < |sent| ==> sent[j] != sent[k])
            && x !in sent && |sent| < SLOTS
  {
    assert SentSince(b, |b.uart|) == [];
    RunInTurn(b, |b.uart|, b.cursor, x, es, last);
  }
}
