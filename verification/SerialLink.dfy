/** The link between the boards: any interleaving of writes, UART activity and reads. */
module SerialLink {
  import opened Bytes
  import opened Crc32
  import opened Runs
  import opened Sequences
  import opened Slip
  import opened SerialPort

  /** A write under way still has `todo` to put; the receiver has taken `read` bytes off the wire. */
  datatype Link = Link(accepted: seq<Message>, tx: Transmitter, todo: seq<Byte>,
                       read: nat, rx: ValidReceiver, delivered: seq<Message>)

  datatype Event =
    | Write(m: Message, dropIfBlocking: bool)
    | Put(writable: bool)
    | Drain
    | Read

  function Step(crc: Checksum, l: Link, e: Event): Link {
    match e
    case Write(m, dropIfBlocking) =>
      if l.todo != [] || (dropIfBlocking && !Fits(crc, m, l.tx)) then l
      else l.(accepted := l.accepted + [m], todo := Frame(crc, m))
    case Put(writable) =>
      if l.todo == [] then l
      else l.(tx := PutByte(l.tx, l.todo[0], writable), todo := l.todo[1..])
    case Drain =>
      if l.tx.queue == [] then l
      else l.(tx := l.tx.(wire := l.tx.wire + [l.tx.queue[0]], queue := l.tx.queue[1..]))
    case Read =>
      if l.read >= |l.tx.wire| then l
      else
        var (rx, handed) := ReceiveByte(crc, l.rx, l.tx.wire[l.read]);
        l.(read := l.read + 1, rx := rx, delivered := l.delivered + handed)
  }

  function RunLink(crc: Checksum, l: Link, es: seq<Event>): Link {
    if es == [] then l else Step(crc, RunLink(crc, l, es[..|es| - 1]), es[|es| - 1])
  }

  function Start(rx: ValidReceiver): Link {
    Link([], Transmitter([], [], 0), [], 0, rx, [])
  }

  /** Wire, ring and the rest of the current frame are always whole encoded frames, and the receiver
      is where the bytes it took lead. */
  ghost predicate Inv(crc: Checksum, rx0: ValidReceiver, l: Link) {
    && |l.tx.queue| <= BUFFER_SIZE
    && Sent(l.tx) + l.todo == Frames(crc, l.accepted)
    && l.read <= |l.tx.wire|
    && (l.rx, l.delivered) == Receive(crc, rx0, l.tx.wire[..l.read])
  }

  lemma {:induction false} FramesSnoc(crc: Checksum, ms: seq<Message>, m: Message)
    ensures Frames(crc, ms + [m]) == Frames(crc, ms) + Frame(crc, m)
    decreases |ms|
  {
    hide Frame;
    if ms == [] {
      assert [m][1..] == [] && Frames(crc, [m]) == Frame(crc, m) + Frames(crc, []);
    } else {
      FramesSnoc(crc, ms[1..], m);
      assert (ms + [m])[1..] == ms[1..] + [m];
      Regroup(Frame(crc, ms[0]), Frames(crc, ms[1..]), Frame(crc, m));
    }
  }

  lemma WireGrows(crc: Checksum, rx0: ValidReceiver, l: Link, tx: Transmitter)
    requires Inv(crc, rx0, l) && l.tx.wire <= tx.wire
    ensures tx.wire[..l.read] == l.tx.wire[..l.read]
  {
  }

  lemma PutKeepsInv(crc: Checksum, rx0: ValidReceiver, l: Link, writable: bool)
    requires Inv(crc, rx0, l) && l.todo != []
    ensures Inv(crc, rx0, Step(crc, l, Put(writable)))
  {
    PutKeepsOrder(l.tx, l.todo[0], writable);
    WireGrows(crc, rx0, l, PutByte(l.tx, l.todo[0], writable));
    assert (Sent(l.tx) + [l.todo[0]]) + l.todo[1..] == Sent(l.tx) + l.todo;
  }

  lemma DrainKeepsInv(crc: Checksum, rx0: ValidReceiver, l: Link)
    requires Inv(crc, rx0, l) && l.tx.queue != []
    ensures Inv(crc, rx0, Step(crc, l, Drain))
  {
    var tx := Step(crc, l, Drain).tx;
    assert Sent(tx) == Sent(l.tx);
    WireGrows(crc, rx0, l, tx);
  }

  lemma ReadKeepsInv(crc: Checksum, rx0: ValidReceiver, l: Link)
    requires Inv(crc, rx0, l) && l.read < |l.tx.wire|
    ensures Inv(crc, rx0, Step(crc, l, Read))
  {
    RunSnoc(Receiving(crc), rx0, l.tx.wire[..l.read], l.tx.wire[l.read]);
    assert l.tx.wire[..l.read] + [l.tx.wire[l.read]] == l.tx.wire[..l.read + 1];
  }

  lemma StepKeepsInv(crc: Checksum, rx0: ValidReceiver, l: Link, e: Event)
    requires Inv(crc, rx0, l)
    ensures Inv(crc, rx0, Step(crc, l, e))
  {
    match e
    case Write(m, _) =>
      if l.todo == [] {
        FramesSnoc(crc, l.accepted, m);
      }
    case Put(writable) =>
      if l.todo != [] {
        PutKeepsInv(crc, rx0, l, writable);
      }
    case Drain =>
      if l.tx.queue != [] {
        DrainKeepsInv(crc, rx0, l);
      }
    case Read =>
      if l.read < |l.tx.wire| {
        ReadKeepsInv(crc, rx0, l);
      }
  }

  lemma {:induction false} RunKeepsInv(crc: Checksum, rx0: ValidReceiver, es: seq<Event>)
    ensures Inv(crc, rx0, RunLink(crc, Start(rx0), es))
  {
    if es == [] {
      assert Start(rx0).tx.wire[..0] == [];
    } else {
      RunKeepsInv(crc, rx0, es[..|es| - 1]);
      StepKeepsInv(crc, rx0, RunLink(crc, Start(rx0), es[..|es| - 1]), es[|es| - 1]);
    }
  }

  ghost predicate WritesDeliverable(es: seq<Event>) {
    forall e | e in es :: e.Write? ==> Deliverable(e.m)
  }

  lemma {:induction false} AcceptedDeliverable(crc: Checksum, rx0: ValidReceiver, es: seq<Event>)
    requires WritesDeliverable(es)
    ensures forall m | m in RunLink(crc, Start(rx0), es).accepted :: Deliverable(m)
  {
    if es != [] {
      AcceptedDeliverable(crc, rx0, es[..|es| - 1]);
    }
  }

  /** End to end: the callback has been given exactly the accepted messages whose frames have been taken
      off the wire, in order and unaltered; the rest is still in flight. */
  lemma EndToEnd(crc: Checksum, rx0: ValidReceiver, es: seq<Event>)
    requires rx0.Clean() && WritesDeliverable(es)
    ensures var l := RunLink(crc, Start(rx0), es);
            && Sent(l.tx) + l.todo == Frames(crc, l.accepted)
            && l.read <= |l.tx.wire|
            && l.delivered == l.accepted[..Completed(crc, l.accepted, l.read)]
  {
    var l := RunLink(crc, Start(rx0), es);
    RunKeepsInv(crc, rx0, es);
    AcceptedDeliverable(crc, rx0, es);
    var all := Frames(crc, l.accepted);
    assert all[..l.read] == l.tx.wire[..l.read];
    PrefixDelivers(crc, rx0, l.accepted, l.read);
  }

  lemma {:induction false} AllCompleted(crc: Checksum, ms: seq<Message>)
    ensures Completed(crc, ms, |Frames(crc, ms)|) == |ms|
    decreases |ms|
  {
    if ms != [] {
      AllCompleted(crc, ms[1..]);
    }
  }

  /** With nothing left in flight every accepted message has been delivered. */
  lemma NothingLost(crc: Checksum, rx0: ValidReceiver, es: seq<Event>)
    requires rx0.Clean() && WritesDeliverable(es)
    ensures var l := RunLink(crc, Start(rx0), es);
            l.todo == [] && l.tx.queue == [] && l.read == |l.tx.wire| ==> l.delivered == l.accepted
  {
    var l := RunLink(crc, Start(rx0), es);
    EndToEnd(crc, rx0, es);
    AllCompleted(crc, l.accepted);
  }

  /** A frame whose checked bytes were changed within four consecutive ones is never delivered. */
  lemma CorruptionNotDelivered(rx: ValidReceiver, m: Message, v: seq<Byte>, at: nat)
    requires rx.Clean() && Deliverable(m)
    requires DifferInBurst(WithTrailer(Crc, m), v, at) && v != WithTrailer(Crc, m)
    ensures Receive(Crc, rx, FrameOf(v)).1 == [] && Receive(Crc, rx, FrameOf(v)).0.Clean()
  {
    SentTrailerOk(m);
    CorruptedFrameRejected(WithTrailer(Crc, m), v, at);
    FrameOfPasses(Crc, rx, v);
    assert rx.buffer[..0] == [];
  }

  predicate Plain(s: seq<Byte>) {
    END !in s && ESC !in s
  }

  lemma {:induction false} PlainPasses(s: seq<Byte>)
    requires Plain(s)
    ensures Escape(s) == s
  {
    if s != [] {
      PlainPasses(s[..|s| - 1]);
      assert s == s[..|s| - 1] + [s[|s| - 1]];
    }
  }

  lemma EscapeParts(x: seq<Byte>, w: seq<Byte>, y: seq<Byte>)
    requires Plain(w)
    ensures FrameOf(x + w + y) == [END] + Escape(x) + w + Escape(y) + [END]
  {
    hide EscapeByte;
    FlatMapAppend(EscapeByte, x + w, y);
    FlatMapAppend(EscapeByte, x, w);
    PlainPasses(w);
  }

  /** Seen on the wire: up to four consecutive bytes that are no framing, turned into others that are none. */
  lemma WireCorruptionNotDelivered(rx: ValidReceiver, m: Message, x: seq<Byte>, w: seq<Byte>, v: seq<Byte>,
                                   y: seq<Byte>)
    requires rx.Clean() && Deliverable(m) && WithTrailer(Crc, m) == x + w + y
    requires Plain(w) && Plain(v) && |w| == |v| <= 4 && w != v
    ensures Frame(Crc, m) == [END] + Escape(x) + w + Escape(y) + [END]
    ensures var (last, out) := Receive(Crc, rx, [END] + Escape(x) + v + Escape(y) + [END]); last.Clean() && out == []
  {
    EscapeParts(x, w, y);
    EscapeParts(x, v, y);
    var sent, got := x + w + y, x + v + y;
    assert sent[|x|..|x| + |w|] == w && got[|x|..|x| + |w|] == v;
    CorruptionNotDelivered(rx, m, got, |x|);
  }

  // ---- what corruption costs a stream -------------------------------------------------------------

  ghost predicate AllDeliverable(ms: seq<Message>) {
    forall m | m in ms :: Deliverable(m)
  }

  /** Where the receiver stands behind whole frames. */
  function Behind(rx: ValidReceiver, ms: seq<Message>): ValidReceiver {
    Receive(Crc, rx, Frames(Crc, ms)).0
  }

  /** Bytes between whole frames that leave the receiver at a clean boundary cost none of them. */
  lemma StreamAround(rx: ValidReceiver, before: seq<Message>, s: seq<Byte>, after: seq<Message>)
    requires rx.Clean() && AllDeliverable(before) && AllDeliverable(after)
    requires Receive(Crc, Behind(rx, before), s).0.Clean()
    ensures var (last, out) := Receive(Crc, rx, Frames(Crc, before) + s + Frames(Crc, after));
            last.Clean() && out == before + Receive(Crc, Behind(rx, before), s).1 + after
  {
    hide Run, Frames, Receiving;
    var f, g := Frames(Crc, before), Frames(Crc, after);
    FramesDeliver(Crc, rx, before);
    RunAppend(Receiving(Crc), rx, f, s);
    var next := Receive(Crc, Behind(rx, before), s).0;
    FramesDeliver(Crc, next, after);
    RunAppend(Receiving(Crc), rx, f + s, g);
  }

  /** A burst in a frame's data or trailer costs its own message and no other. */
  lemma BurstCostsOneMessage(rx: ValidReceiver, before: seq<Message>, m: Message, v: seq<Byte>, at: nat,
                             after: seq<Message>)
    requires rx.Clean() && AllDeliverable(before) && Deliverable(m) && AllDeliverable(after)
    requires DifferInBurst(WithTrailer(Crc, m), v, at) && v != WithTrailer(Crc, m)
    ensures var (last, out) := Receive(Crc, rx, Frames(Crc, before) + FrameOf(v) + Frames(Crc, after));
            last.Clean() && out == before + after
  {
    hide Run, Frames, Receiving, FrameOf, WithTrailer;
    FramesDeliver(Crc, rx, before);
    CorruptionNotDelivered(Behind(rx, before), m, v, at);
    StreamAround(rx, before, FrameOf(v), after);
    assert before + [] == before;
  }

  /** So does one on the wire that touches no framing. */
  lemma WireBurstCostsOneMessage(rx: ValidReceiver, before: seq<Message>, m: Message, x: seq<Byte>, w: seq<Byte>,
                                 v: seq<Byte>, y: seq<Byte>, after: seq<Message>)
    requires rx.Clean() && AllDeliverable(before) && Deliverable(m) && AllDeliverable(after)
    requires WithTrailer(Crc, m) == x + w + y && Plain(w) && Plain(v) && |w| == |v| <= 4 && w != v
    ensures var wire := [END] + Escape(x) + v + Escape(y) + [END];
            var (last, out) := Receive(Crc, rx, Frames(Crc, before) + wire + Frames(Crc, after));
            last.Clean() && out == before + after
  {
    hide Run, Frames, Receiving, WithTrailer, Escape;
    FramesDeliver(Crc, rx, before);
    WireCorruptionNotDelivered(Behind(rx, before), m, x, w, v, y);
    StreamAround(rx, before, [END] + Escape(x) + v + Escape(y) + [END], after);
    assert before + [] == before;
  }

  /** Any bytes at all in place of frames, framing included, cost at most those frames and the one behind them; `out` is
      what the receiver makes of both. */
  lemma GarbageCostsOneMore(rx: ValidReceiver, before: seq<Message>, garbage: seq<Byte>, next: Message,
                            after: seq<Message>) returns (out: seq<Message>)
    requires rx.Clean() && AllDeliverable(before) && AllDeliverable(after)
    ensures var wire := Frames(Crc, before) + (garbage + Frame(Crc, next)) + Frames(Crc, after);
            Receive(Crc, rx, wire).0.Clean() && Receive(Crc, rx, wire).1 == before + out + after
    ensures !Receive(Crc, Behind(rx, before), garbage).0.escaped && Deliverable(next) ==>
              out != [] && out[|out| - 1] == next
  {
    hide Run, Frames, Receiving, Frame;
    var mid := Receive(Crc, Behind(rx, before), garbage).0;
    RunAppend(Receiving(Crc), Behind(rx, before), garbage, Frame(Crc, next));
    SelfSynchronises(Crc, mid, next, []);
    NoFrames();
    assert Frame(Crc, next) + [] == Frame(Crc, next);
    out := Receive(Crc, Behind(rx, before), garbage + Frame(Crc, next)).1;
    StreamAround(rx, before, garbage + Frame(Crc, next), after);
  }

  lemma NoFrames()
    ensures Frames(Crc, []) == []
  {
  }
}
