/** Both boards: board B's callbacks write HID reports to the serial link, and board A's callback reads them off it.
    Whether the UART takes a report is what the link's transmit ring says. */
module LinkedBoards {
  import opened Bytes
  import opened Sequences
  import opened Slip
  import opened SerialPort
  import L = SerialLink
  import H = HidInputs

  // ---- reports as messages --------------------------------------------------------------------------

  /** The command of a `report_received_t`. */
  const REPORT_RECEIVED: Byte := 3

  function Encode(i: H.Iface, data: H.Report): Message {
    [REPORT_RECEIVED, i.devAddr, i.instance] + data
  }

  predicate IsReport(m: Message) {
    |m| >= 3 && m[0] == REPORT_RECEIVED
  }

  /** The reports of one interface among the messages: what A's callback hands on for it. */
  function Reports(ms: seq<Message>, i: H.Iface): seq<H.Report> {
    if ms == [] then [] else
      var m := ms[|ms| - 1];
      Reports(ms[..|ms| - 1], i)
      + if IsReport(m) && m[1] == i.devAddr && m[2] == i.instance then [m[3..]] else []
  }

  lemma ReportsSnoc(ms: seq<Message>, m: Message, i: H.Iface)
    ensures Reports(ms + [m], i)
         == Reports(ms, i) + if IsReport(m) && m[1] == i.devAddr && m[2] == i.instance then [m[3..]] else []
  {
    assert (ms + [m])[..|ms|] == ms;
  }

  lemma {:induction false} ReportsAppend(a: seq<Message>, b: seq<Message>, i: H.Iface)
    ensures Reports(a + b, i) == Reports(a, i) + Reports(b, i)
  {
    hide IsReport;
    if b == [] {
      assert a + b == a;
    } else {
      var n := |b| - 1;
      ReportsAppend(a, b[..n], i);
      assert a + b == (a + b[..n]) + [b[n]] && b == b[..n] + [b[n]];
      ReportsSnoc(a + b[..n], b[n], i);
      ReportsSnoc(b[..n], b[n], i);
    }
  }

  lemma EncodedIsReported(ms: seq<Message>, p: H.Packet, i: H.Iface)
    ensures Reports(ms + [Encode(p.iface, p.data)], i) == Reports(ms, i) + if p.iface == i then [p.data] else []
  {
    ReportsSnoc(ms, Encode(p.iface, p.data), i);
    assert Encode(p.iface, p.data)[3..] == p.data;
  }

  // ---- a whole write ------------------------------------------------------------------------------------

  /** How ready the UART is as the bytes of a frame are put. */
  type Readiness = nat -> bool

  function Puts(ready: Readiness, n: nat): seq<L.Event> {
    seq(n, k requires 0 <= k < n => L.Put(ready(k)))
  }

  /** `serial_write`, from its comparison to its last byte. */
  function WriteOut(crc: Checksum, m: Message, drop: bool, ready: Readiness): seq<L.Event> {
    [L.Write(m, drop)] + Puts(ready, |Frame(crc, m)|)
  }

  lemma RunSnoc(crc: Checksum, l: L.Link, log: seq<L.Event>, e: L.Event)
    ensures L.RunLink(crc, l, log + [e]) == L.Step(crc, L.RunLink(crc, l, log), e)
  {
    assert (log + [e])[..|log|] == log;
  }

  lemma PutProceeds(crc: Checksum, l: L.Link, writable: bool)
    ensures var r := L.Step(crc, l, L.Put(writable));
            r.accepted == l.accepted && r.todo == if l.todo == [] then [] else l.todo[1..]
  {
    hide PutByte;
  }

  lemma {:induction false} PutsProceed(crc: Checksum, l: L.Link, log: seq<L.Event>, ready: Readiness, n: nat)
    requires var w := L.RunLink(crc, l, log); n <= |w.todo| || w.todo == []
    ensures var w, r := L.RunLink(crc, l, log), L.RunLink(crc, l, log + Puts(ready, n));
            && r.accepted == w.accepted
            && r.todo == if w.todo == [] then [] else w.todo[n..]
  {
    hide L.Step, L.RunLink;
    if n == 0 {
      assert log + Puts(ready, 0) == log;
    } else {
      PutsProceed(crc, l, log, ready, n - 1);
      assert log + Puts(ready, n) == (log + Puts(ready, n - 1)) + [L.Put(ready(n - 1))];
      RunSnoc(crc, l, log + Puts(ready, n - 1), L.Put(ready(n - 1)));
      PutProceeds(crc, L.RunLink(crc, l, log + Puts(ready, n - 1)), ready(n - 1));
    }
  }

  /** A write leaves nothing half put, and accepts its message unless it was to drop it rather than block. */
  lemma WriteOutAccepts(crc: Checksum, l: L.Link, log: seq<L.Event>, m: Message, drop: bool, ready: Readiness)
    requires L.RunLink(crc, l, log).todo == []
    ensures var w, r := L.RunLink(crc, l, log), L.RunLink(crc, l, log + WriteOut(crc, m, drop, ready));
            && r.todo == []
            && r.accepted == if drop && !Fits(crc, m, w.tx) then w.accepted else w.accepted + [m]
  {
    hide Frame, L.RunLink;
    var begun := log + [L.Write(m, drop)];
    RunSnoc(crc, l, log, L.Write(m, drop));
    PutsProceed(crc, l, begun, ready, |Frame(crc, m)|);
    assert begun + Puts(ready, |Frame(crc, m)|) == log + WriteOut(crc, m, drop, ready);
  }

  // ---- the system -------------------------------------------------------------------------------------------

  /** Board B, and all that happened on the link. */
  datatype System = System(board: H.Board, log: seq<L.Event>)

  /** A HID event on B, with the UART's readiness during its writes; another message of B's; bytes leaving the ring;
      a byte read by A. */
  datatype Event =
    | Hid(e: H.Event, ready: nat -> Readiness)
    | Other(m: Message, drop: bool, readiness: Readiness)
    | Drain
    | Read

  function LinkOf(crc: Checksum, rx0: ValidReceiver, log: seq<L.Event>): L.Link {
    L.RunLink(crc, L.Start(rx0), log)
  }

  /** The transmit ring has room for this report now. */
  predicate Takes(crc: Checksum, rx0: ValidReceiver, log: seq<L.Event>, i: H.Iface, data: H.Report) {
    Fits(crc, Encode(i, data), LinkOf(crc, rx0, log).tx)
  }

  function Offered(crc: Checksum, log: seq<L.Event>, i: H.Iface, data: H.Report, ready: Readiness): seq<L.Event> {
    log + WriteOut(crc, Encode(i, data), true, ready)
  }

  /** What a flush puts on the link, from visit `count` on. */
  function FlushLog(crc: Checksum, b: H.Board, log: seq<L.Event>, start: nat, count: nat, answers: seq<H.Answer>,
                    ready: nat -> Readiness): seq<L.Event>
    requires |b.slots| == H.SLOTS == |answers| && count <= H.SLOTS
    decreases H.SLOTS - count
  {
    if count == H.SLOTS then log else
      var k := H.Visit(start, count);
      var s := b.slots[k];
      if !H.Waiting(s) then FlushLog(crc, b, log, start, count + 1, answers, ready)
      else if |s.data| > H.EPIN_SIZE || !answers[count].uartTakes then log
      else FlushLog(crc, H.Release(b, k, answers[count].agrees), Offered(crc, log, s.iface, s.data, ready(count)),
                    start, count + 1, answers, ready)
  }

  /** Each answer of the UART during a flush is what the ring says then. */
  ghost predicate FlushHonest(crc: Checksum, rx0: ValidReceiver, b: H.Board, log: seq<L.Event>, start: nat, count: nat,
                              answers: seq<H.Answer>, ready: nat -> Readiness)
    requires |b.slots| == H.SLOTS == |answers| && count <= H.SLOTS
    decreases H.SLOTS - count
  {
    count < H.SLOTS ==>
      var k := H.Visit(start, count);
      var s := b.slots[k];
      if !H.Waiting(s) then FlushHonest(crc, rx0, b, log, start, count + 1, answers, ready)
      else
        && (answers[count].uartTakes <==> Takes(crc, rx0, log, s.iface, s.data))
        && (answers[count].uartTakes && |s.data| <= H.EPIN_SIZE ==>
              FlushHonest(crc, rx0, H.Release(b, k, answers[count].agrees),
                          Offered(crc, log, s.iface, s.data, ready(count)), start, count + 1, answers, ready))
  }

  ghost predicate Honest(crc: Checksum, rx0: ValidReceiver, s: System, e: H.Event, ready: nat -> Readiness)
    requires H.Valid(s.board) && H.Allowed(s.board, e)
  {
    match e
    case Callback(i, data, answer) => answer.uartTakes <==> Takes(crc, rx0, s.log, i, data)
    case FlushPass(answers) => FlushHonest(crc, rx0, s.board, s.log, s.board.cursor, 0, answers, ready)
    case _ => true
  }

  /** What may happen next: B's environment keeps its rule and the UART's answers are the ring's; other messages are not
      reports, and like them can be delivered. */
  ghost predicate Possible(crc: Checksum, rx0: ValidReceiver, s: System, e: Event) {
    match e
    case Hid(h, ready) => H.Valid(s.board) && H.Allowed(s.board, h) && Honest(crc, rx0, s, h, ready)
    case Other(m, _, _) => Deliverable(m) && !IsReport(m)
    case _ => true
  }

  ghost function HidLog(crc: Checksum, s: System, e: H.Event, ready: nat -> Readiness): seq<L.Event>
    requires H.Valid(s.board) && H.Allowed(s.board, e)
  {
    match e
    case Callback(i, data, _) =>
      if H.Step(s.board, e).uart == s.board.uart then s.log else Offered(crc, s.log, i, data, ready(0))
    case FlushPass(answers) => FlushLog(crc, s.board, s.log, s.board.cursor, 0, answers, ready)
    case _ => s.log
  }

  ghost function Step(crc: Checksum, rx0: ValidReceiver, s: System, e: Event): System
    requires Possible(crc, rx0, s, e)
  {
    match e
    case Hid(h, ready) => System(H.Step(s.board, h), HidLog(crc, s, h, ready))
    case Other(m, drop, readiness) => s.(log := s.log + WriteOut(crc, m, drop, readiness))
    case Drain => s.(log := s.log + [L.Drain])
    case Read => s.(log := s.log + [L.Read])
  }

  ghost predicate Run(crc: Checksum, rx0: ValidReceiver, s: System, es: seq<Event>, last: System)
    decreases |es|
  {
    if es == [] then last == s
    else Possible(crc, rx0, s, es[0]) && Run(crc, rx0, Step(crc, rx0, s, es[0]), es[1..], last)
  }

  // ---- the link has what B's books say ---------------------------------------------------------------------

  /** Between events nothing is half put, and the messages accepted hold the reports that B counts as taken. */
  ghost predicate Linked(crc: Checksum, rx0: ValidReceiver, uart: seq<H.Packet>, log: seq<L.Event>, i: H.Iface) {
    && LinkOf(crc, rx0, log).todo == []
    && L.WritesDeliverable(log)
    && Reports(LinkOf(crc, rx0, log).accepted, i) == H.Accepted(uart, i)
  }

  lemma WriteOutDeliverable(crc: Checksum, log: seq<L.Event>, m: Message, drop: bool, ready: Readiness)
    requires L.WritesDeliverable(log) && Deliverable(m)
    ensures L.WritesDeliverable(log + WriteOut(crc, m, drop, ready))
  {
    hide Frame;
  }

  lemma OfferKeepsLinked(crc: Checksum, rx0: ValidReceiver, uart: seq<H.Packet>, log: seq<L.Event>, p: H.Packet,
                         ready: Readiness, i: H.Iface)
    requires Linked(crc, rx0, uart, log, i) && |p.data| <= H.EPIN_SIZE && Takes(crc, rx0, log, p.iface, p.data)
    ensures Linked(crc, rx0, uart + [p], Offered(crc, log, p.iface, p.data, ready), i)
  {
    hide WriteOut, L.RunLink, Fits, Encode, Reports, L.WritesDeliverable;
    var m := Encode(p.iface, p.data);
    WriteOutAccepts(crc, L.Start(rx0), log, m, true, ready);
    EncodedIsReported(LinkOf(crc, rx0, log).accepted, p, i);
    H.AcceptedSnoc(uart, 0, p, i);
    assert (uart + [p])[0..] == uart + [p] && uart[0..] == uart;
    EncodedDeliverable(p.iface, p.data);
    WriteOutDeliverable(crc, log, m, true, ready);
  }

  lemma EncodedDeliverable(i: H.Iface, data: H.Report)
    requires |data| <= H.EPIN_SIZE
    ensures Deliverable(Encode(i, data))
  {
  }

  lemma OtherKeepsLinked(crc: Checksum, rx0: ValidReceiver, uart: seq<H.Packet>, log: seq<L.Event>, m: Message,
                         drop: bool, ready: Readiness, i: H.Iface)
    requires Linked(crc, rx0, uart, log, i) && Deliverable(m) && !IsReport(m)
    ensures Linked(crc, rx0, uart, log + WriteOut(crc, m, drop, ready), i)
  {
    hide WriteOut, L.RunLink, Fits, Reports, L.WritesDeliverable;
    WriteOutAccepts(crc, L.Start(rx0), log, m, drop, ready);
    ReportsSnoc(LinkOf(crc, rx0, log).accepted, m, i);
    WriteOutDeliverable(crc, log, m, drop, ready);
  }

  /** Bytes on their way change nothing of what was accepted. */
  lemma TransitKeepsLinked(crc: Checksum, rx0: ValidReceiver, uart: seq<H.Packet>, log: seq<L.Event>, e: L.Event,
                           i: H.Iface)
    requires Linked(crc, rx0, uart, log, i) && (e.Drain? || e.Read?)
    ensures Linked(crc, rx0, uart, log + [e], i)
  {
    hide L.RunLink, Reports;
    RunSnoc(crc, L.Start(rx0), log, e);
  }

  lemma {:induction false} FlushKeepsLinked(crc: Checksum, rx0: ValidReceiver, b: H.Board, log: seq<L.Event>,
                                            start: nat, count: nat, answers: seq<H.Answer>, ready: nat -> Readiness,
                                              i: H.Iface)
    requires |b.slots| == H.SLOTS == |answers| && count <= H.SLOTS
    requires FlushHonest(crc, rx0, b, log, start, count, answers, ready) && Linked(crc, rx0, b.uart, log, i)
    ensures Linked(crc, rx0, H.FlushFrom(b, start, count, answers).uart,
                   FlushLog(crc, b, log, start, count, answers, ready), i)
    decreases H.SLOTS - count
  {
    hide Linked, Takes, Offered;
    if count < H.SLOTS {
      var k := H.Visit(start, count);
      var s := b.slots[k];
      if !H.Waiting(s) {
        FlushKeepsLinked(crc, rx0, b, log, start, count + 1, answers, ready, i);
      } else if |s.data| <= H.EPIN_SIZE && answers[count].uartTakes {
        OfferKeepsLinked(crc, rx0, b.uart, log, H.Packet(k, s.iface, s.data), ready(count), i);
        FlushKeepsLinked(crc, rx0, H.Release(b, k, answers[count].agrees),
                         Offered(crc, log, s.iface, s.data, ready(count)), start, count + 1, answers, ready, i);
      }
    }
  }

  /** A callback puts at most its own report on the UART, and only if the UART takes it. */
  lemma CallbackSends(b: H.Board, i: H.Iface, data: H.Report, answer: H.Answer) returns (k: nat)
    requires H.Valid(b) && i in b.armed
    ensures var after := H.Complete(b, i, data, answer);
            after.uart == b.uart ||
            (after.uart == b.uart + [H.Packet(k, i, data)] && answer.uartTakes && |data| <= H.EPIN_SIZE)
  {
    var done := b.(armed := b.armed - {i});
    H.DisarmKeepsValid(b, i);
    H.EnterKeepsValid(done, i);
    k := H.Enter(done, i).1;
  }

  lemma HidKeepsLinked(crc: Checksum, rx0: ValidReceiver, s: System, e: H.Event, ready: nat -> Readiness, i: H.Iface)
    requires H.Valid(s.board) && H.Allowed(s.board, e) && Honest(crc, rx0, s, e, ready)
    requires Linked(crc, rx0, s.board.uart, s.log, i)
    ensures Linked(crc, rx0, H.Step(s.board, e).uart, HidLog(crc, s, e, ready), i)
  {
    hide Linked, Takes, Offered;
    match e
    case Callback(from, data, answer) =>
      var k := CallbackSends(s.board, from, data, answer);
      if H.Step(s.board, e).uart != s.board.uart {
        OfferKeepsLinked(crc, rx0, s.board.uart, s.log, H.Packet(k, from, data), ready(0), i);
      }
    case FlushPass(answers) =>
      FlushKeepsLinked(crc, rx0, s.board, s.log, s.board.cursor, 0, answers, ready, i);
    case _ =>
      assert H.Step(s.board, e).uart == s.board.uart;
  }

  ghost predicate Sound(crc: Checksum, rx0: ValidReceiver, s: System, i: H.Iface) {
    H.Valid(s.board) && Linked(crc, rx0, s.board.uart, s.log, i)
  }

  lemma StepKeepsSound(crc: Checksum, rx0: ValidReceiver, s: System, e: Event, i: H.Iface)
    requires Sound(crc, rx0, s, i) && Possible(crc, rx0, s, e)
    ensures Sound(crc, rx0, Step(crc, rx0, s, e), i)
  {
    hide Linked, H.Valid, H.Step, HidLog, Honest;
    match e
    case Hid(h, ready) =>
      H.StepKeepsValid(s.board, h);
      HidKeepsLinked(crc, rx0, s, h, ready, i);
    case Other(m, drop, readiness) => OtherKeepsLinked(crc, rx0, s.board.uart, s.log, m, drop, readiness, i);
    case Drain => TransitKeepsLinked(crc, rx0, s.board.uart, s.log, L.Drain, i);
    case Read => TransitKeepsLinked(crc, rx0, s.board.uart, s.log, L.Read, i);
  }

  lemma {:induction false} RunKeepsSound(crc: Checksum, rx0: ValidReceiver, s: System, es: seq<Event>, last: System,
                                         i: H.Iface)
    requires Sound(crc, rx0, s, i) && Run(crc, rx0, s, es, last)
    ensures Sound(crc, rx0, last, i)
    decreases |es|
  {
    hide Sound, Possible, Step;
    if es != [] {
      StepKeepsSound(crc, rx0, s, es[0], i);
      RunKeepsSound(crc, rx0, Step(crc, rx0, s, es[0]), es[1..], last, i);
    }
  }

  const INITIAL: System := System(H.INITIAL, [])

  lemma InitialSound(crc: Checksum, rx0: ValidReceiver, i: H.Iface)
    ensures Sound(crc, rx0, INITIAL, i)
  {
    H.InitialValid();
  }

  // ---- from callback to callback ---------------------------------------------------------------------------------

  /** What the link delivered and what it still carries are what it accepted. */
  lemma DeliveredAndCarried(crc: Checksum, rx0: ValidReceiver, log: seq<L.Event>, i: H.Iface)
    requires rx0.Clean() && L.WritesDeliverable(log)
    ensures var l := LinkOf(crc, rx0, log);
            && |l.delivered| <= |l.accepted| && l.delivered == l.accepted[..|l.delivered|]
            && Reports(l.accepted, i) == Reports(l.delivered, i) + Reports(l.accepted[|l.delivered|..], i)
  {
    hide L.RunLink, Reports, Frames;
    L.EndToEnd(crc, rx0, log);
    var l := LinkOf(crc, rx0, log);
    assert l.accepted == l.delivered + l.accepted[|l.delivered|..];
    ReportsAppend(l.delivered, l.accepted[|l.delivered|..], i);
  }

  /** From B's USB callback to A's: over every run of both boards, the reports that A was given from an interface, then
      those the link still carries, then the one B holds, are those the UART had accepted from it before it entered B's
      table, and then everything its callback brought since, in order and unaltered. */
  lemma CallbackToCallback(crc: Checksum, rx0: ValidReceiver, es: seq<Event>, last: System, k: nat)
    requires rx0.Clean() && Run(crc, rx0, INITIAL, es, last)
    requires k < H.SLOTS && |last.board.slots| == H.SLOTS && last.board.slots[k].active
    ensures var b, l, i := last.board, LinkOf(crc, rx0, last.log), last.board.slots[k].iface;
            && i in b.books && b.books[i].since <= |b.uart| && |l.delivered| <= |l.accepted|
            && Reports(l.delivered, i) + Reports(l.accepted[|l.delivered|..], i) + H.Held(b.slots[k])
            == H.Accepted(b.uart[..b.books[i].since], i) + b.books[i].received
  {
    hide L.RunLink, Reports, Run, H.Accepted;
    var b := last.board;
    var i := b.slots[k].iface;
    InitialSound(crc, rx0, i);
    RunKeepsSound(crc, rx0, INITIAL, es, last, i);
    DeliveredAndCarried(crc, rx0, last.log, i);
    assert H.SlotOk(b, b.slots[k]);
    var since := b.books[i].since;
    AcceptedAppend(b.uart[..since], b.uart[since..], i);
    assert b.uart[..since] + b.uart[since..] == b.uart;
    Regroup(H.Accepted(b.uart[..since], i), H.Accepted(b.uart[since..], i), H.Held(b.slots[k]));
  }

  lemma {:induction false} AcceptedAppend(a: seq<H.Packet>, b: seq<H.Packet>, i: H.Iface)
    ensures H.Accepted(a + b, i) == H.Accepted(a, i) + H.Accepted(b, i)
  {
    if b == [] {
      assert a + b == a;
    } else {
      var n := |b| - 1;
      AcceptedAppend(a, b[..n], i);
      assert (a + b)[..|a + b| - 1] == a + b[..n];
    }
  }
}
