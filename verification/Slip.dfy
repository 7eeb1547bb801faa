/** The framing of `serial.cc`: SLIP (RFC 1055) around a payload and its checksum, and the receiver.
    None of it depends on which checksum that is. */
module Slip {
  import opened Bytes
  import opened Runs
  import opened Sequences

  const END: Byte := 0xC0
  const ESC: Byte := 0xDB
  const ESC_END: Byte := 0xDC
  const ESC_ESC: Byte := 0xDD

  /** SERIAL_MAX_PAYLOAD_SIZE + 32, the receiver's buffer. */
  const RX_SIZE: nat := 544

  type Message = seq<Byte>

  // ---- sending ---------------------------------------------------------------

  function EscapeByte(b: Byte): seq<Byte> {
    if b == END then [ESC, ESC_END] else if b == ESC then [ESC, ESC_ESC] else [b]
  }

  function Escape(s: seq<Byte>): seq<Byte> {
    FlatMap(EscapeByte, s)
  }

  /** The payload with its checksum, lowest byte first. */
  function WithTrailer(crc: Checksum, m: Message): seq<Byte> {
    m + LE(crc(m), 4)
  }

  function FrameOf(w: seq<Byte>): seq<Byte> {
    [END] + Escape(w) + [END]
  }

  function Frame(crc: Checksum, m: Message): seq<Byte> {
    FrameOf(WithTrailer(crc, m))
  }

  function Frames(crc: Checksum, ms: seq<Message>): seq<Byte> {
    if ms == [] then [] else Frame(crc, ms[0]) + Frames(crc, ms[1..])
  }

  // ---- receiving --------------------------------------------------------------

  /** The static variables of `serial_read`. */
  datatype ReceiverState = Receiver(buffer: seq<Byte>, bytesRead: nat, escaped: bool) {
    predicate Valid() {
      |buffer| == RX_SIZE && bytesRead <= RX_SIZE
    }

    /** Between frames: nothing stored, no escape pending. */
    predicate Clean() {
      bytesRead == 0 && !escaped
    }
  }

  type ValidReceiver = rx: ReceiverState | rx.Valid() witness Receiver(seq(RX_SIZE, _ => 0), 0, false)

  function Unescape(c: Byte): Byte {
    if c == ESC_END then END else if c == ESC_ESC then ESC else c
  }

  function Store(rx: ValidReceiver, c: Byte): ValidReceiver {
    var n := rx.bytesRead % RX_SIZE;
    Receiver(rx.buffer[n := c], n + 1, false)
  }

  /** What END hands to the callback. */
  function Delivery(crc: Checksum, stored: seq<Byte>): seq<Message> {
    if |stored| > 4 && TrailerOk(crc, stored) then [stored[..|stored| - 4]] else []
  }

  /** One round of the receive loop: the next state, and the message handed to the callback, if any. */
  function ReceiveByte(crc: Checksum, rx: ValidReceiver, c: Byte): (ValidReceiver, seq<Message>) {
    var n := rx.bytesRead % RX_SIZE;
    if rx.escaped then
      (Store(rx, Unescape(c)), [])
    else if c == END then
      (Receiver(rx.buffer, 0, false), Delivery(crc, rx.buffer[..n]))
    else if c == ESC then
      (Receiver(rx.buffer, n, true), [])
    else
      (Store(rx, c), [])
  }

  function Receiving(crc: Checksum): (ValidReceiver, Byte) -> (ValidReceiver, seq<Message>) {
    (rx: ValidReceiver, c: Byte) => ReceiveByte(crc, rx, c)
  }

  /** A whole stretch of bytes: the last state, and every message handed over. */
  function Receive(crc: Checksum, rx: ValidReceiver, s: seq<Byte>): (ValidReceiver, seq<Message>) {
    Run(Receiving(crc), rx, s)
  }

  lemma ReceiveNext(crc: Checksum, rx: ValidReceiver, s: seq<Byte>, n: nat)
    requires n < |s| && Receive(crc, rx, s[..n]).1 == []
    ensures Receive(crc, rx, s[..n + 1]) == ReceiveByte(crc, Receive(crc, rx, s[..n]).0, s[n])
  {
    RunSnoc(Receiving(crc), rx, s[..n], s[n]);
    assert s[..n] + [s[n]] == s[..n + 1];
    var handed := ReceiveByte(crc, Receive(crc, rx, s[..n]).0, s[n]).1;
    assert [] + handed == handed;
  }

  lemma ByteArrives(crc: Checksum, rx: ValidReceiver, b: Byte)
    requires !rx.escaped
    ensures Receive(crc, rx, EscapeByte(b)) == (Store(rx, b), [])
  {
    RunOne(Receiving(crc), rx, b);
    RunTwo(Receiving(crc), rx, ESC, ESC_END);
    RunTwo(Receiving(crc), rx, ESC, ESC_ESC);
  }

  /** An escaped body hands nothing over and leaves no escape pending, whatever was stored before. */
  lemma {:induction false} BodyPasses(crc: Checksum, rx: ValidReceiver, w: seq<Byte>)
    requires !rx.escaped
    ensures var (last, ms) := Receive(crc, rx, Escape(w));
            ms == [] && !last.escaped
  {
    if w != [] {
      var n := |w| - 1;
      BodyPasses(crc, rx, w[..n]);
      FlatMapPrefix(EscapeByte, w, n);
      assert w[..n + 1] == w;
      RunAppend(Receiving(crc), rx, Escape(w[..n]), EscapeByte(w[n]));
      ByteArrives(crc, Receive(crc, rx, Escape(w[..n])).0, w[n]);
    }
  }

  /** An escaped body that fits arrives as it was before escaping. */
  lemma {:induction false} BodyArrives(crc: Checksum, rx: ValidReceiver, w: seq<Byte>)
    requires rx.Clean() && |w| <= RX_SIZE
    ensures var last := Receive(crc, rx, Escape(w)).0;
            last.bytesRead == |w| && last.buffer[..|w|] == w
  {
    if w != [] {
      var n := |w| - 1;
      BodyArrives(crc, rx, w[..n]);
      BodyPasses(crc, rx, w[..n]);
      FlatMapPrefix(EscapeByte, w, n);
      assert w[..n + 1] == w;
      RunAppend(Receiving(crc), rx, Escape(w[..n]), EscapeByte(w[n]));
      var mid := Receive(crc, rx, Escape(w[..n])).0;
      ByteArrives(crc, mid, w[n]);
      StoreExtends(mid, w[..n], w[n]);
      assert w == w[..n] + [w[n]];
    }
  }

  lemma StoreExtends(rx: ValidReceiver, s: seq<Byte>, b: Byte)
    requires rx.bytesRead == |s| < RX_SIZE && rx.buffer[..|s|] == s
    ensures Store(rx, b).bytesRead == |s| + 1 && Store(rx, b).buffer[..|s| + 1] == s + [b]
  {
  }

  // ---- frames --------------------------------------------------------------------

  lemma EndArrives(crc: Checksum, rx: ValidReceiver)
    ensures Receive(crc, rx, [END]) == ReceiveByte(crc, rx, END)
    ensures !Receive(crc, rx, [END]).0.escaped
  {
    RunOne(Receiving(crc), rx, END);
  }

  lemma FrameOfSplits(crc: Checksum, rx: ValidReceiver, w: seq<Byte>)
    ensures var (a, out1) := ReceiveByte(crc, rx, END);
            var (b, out2) := Receive(crc, a, Escape(w));
            var (c, out3) := ReceiveByte(crc, b, END);
            Receive(crc, rx, FrameOf(w)) == (c, out1 + out2 + out3)
  {
    var step := Receiving(crc);
    RunOne(step, rx, END);
    RunAppend(step, rx, [END], Escape(w));
    RunSnoc(step, rx, [END] + Escape(w), END);
  }

  /** One complete frame, from any state at all: the receiver ends at a clean boundary. */
  lemma FrameOfPasses(crc: Checksum, rx: ValidReceiver, w: seq<Byte>)
    ensures Receive(crc, rx, FrameOf(w)).0.Clean()
    ensures !rx.escaped && |w| <= RX_SIZE ==>
              Receive(crc, rx, FrameOf(w)).1
              == ReceiveByte(crc, rx, END).1 + Delivery(crc, if |w| < RX_SIZE then w else [])
  {
    FrameOfSplits(crc, rx, w);
    var a := ReceiveByte(crc, rx, END).0;
    BodyPasses(crc, a, w);
    if !rx.escaped && |w| <= RX_SIZE {
      BodyArrives(crc, a, w);
      EndDelivers(crc, Receive(crc, a, Escape(w)).0, w);
    }
  }

  lemma EndDelivers(crc: Checksum, rx: ValidReceiver, w: seq<Byte>)
    requires !rx.escaped && rx.bytesRead == |w| && rx.buffer[..|w|] == w
    ensures ReceiveByte(crc, rx, END).1 == Delivery(crc, if |w| < RX_SIZE then w else [])
  {
    assert rx.buffer[..0] == [];
  }

  lemma TrailerIsDelivered(crc: Checksum, m: Message)
    ensures Delivery(crc, WithTrailer(crc, m)) == if m == [] then [] else [m]
  {
    var w := WithTrailer(crc, m);
    assert w[..|w| - 4] == m && w[|w| - 4..] == LE(crc(m), 4);
    LERoundTrip(crc(m), 4);
    assert Pow256(4) == 0x1_0000_0000;
  }

  /** Nothing outside 1 to 539 bytes is ever handed over. */
  lemma {:induction false} DeliveriesFit(crc: Checksum, rx: ValidReceiver, s: seq<Byte>)
    ensures forall m | m in Receive(crc, rx, s).1 :: 1 <= |m| <= RX_SIZE - 5
  {
    if s != [] {
      DeliveriesFit(crc, rx, s[..|s| - 1]);
    }
  }

  predicate Deliverable(m: Message) {
    1 <= |m| <= RX_SIZE - 5
  }

  /** From a clean boundary a frame delivers its message, unaltered and alone, exactly when it has 1 to 539 bytes. */
  lemma FrameDelivers(crc: Checksum, rx: ValidReceiver, m: Message)
    requires rx.Clean()
    ensures Receive(crc, rx, Frame(crc, m)).0.Clean()
    ensures Receive(crc, rx, Frame(crc, m)).1 == [m] <==> Deliverable(m)
  {
    var w := WithTrailer(crc, m);
    FrameOfPasses(crc, rx, w);
    assert rx.buffer[..0] == [];
    TrailerIsDelivered(crc, m);
    if !Deliverable(m) && Receive(crc, rx, Frame(crc, m)).1 == [m] {
      DeliveriesFit(crc, rx, Frame(crc, m));
    }
  }

  lemma {:induction false} FramesDeliver(crc: Checksum, rx: ValidReceiver, ms: seq<Message>)
    requires rx.Clean() && forall m | m in ms :: Deliverable(m)
    ensures var (last, out) := Receive(crc, rx, Frames(crc, ms)); last.Clean() && out == ms
    decreases |ms|
  {
    if ms != [] {
      FrameDelivers(crc, rx, ms[0]);
      var next := Receive(crc, rx, Frame(crc, ms[0])).0;
      FramesDeliver(crc, next, ms[1..]);
      RunAppend(Receiving(crc), rx, Frame(crc, ms[0]), Frames(crc, ms[1..]));
    }
  }

  /** Self-synchronisation: whatever the receiver held, after one complete frame every later one is delivered
      exactly. */
  lemma SelfSynchronises(crc: Checksum, rx: ValidReceiver, first: Message, ms: seq<Message>)
    requires forall m | m in ms :: Deliverable(m)
    ensures Receive(crc, rx, Frame(crc, first) + Frames(crc, ms)).0.Clean()
    ensures Receive(crc, rx, Frame(crc, first) + Frames(crc, ms)).1
         == Receive(crc, rx, Frame(crc, first)).1 + ms
    ensures !rx.escaped && Deliverable(first) ==>
              Receive(crc, rx, Frame(crc, first)).1 == ReceiveByte(crc, rx, END).1 + [first]
  {
    FrameOfPasses(crc, rx, WithTrailer(crc, first));
    TrailerIsDelivered(crc, first);
    var next := Receive(crc, rx, Frame(crc, first)).0;
    FramesDeliver(crc, next, ms);
    RunAppend(Receiving(crc), rx, Frame(crc, first), Frames(crc, ms));
  }

  // ---- a stream cut anywhere ---------------------------------------------------------

  /** How many of the frames lie wholly within the first n bytes. */
  function Completed(crc: Checksum, ms: seq<Message>, n: nat): (k: nat)
    ensures k <= |ms|
  {
    if ms == [] || n < |Frame(crc, ms[0])| then 0
    else 1 + Completed(crc, ms[1..], n - |Frame(crc, ms[0])|)
  }

  lemma PartialFrameDeliversNothing(crc: Checksum, rx: ValidReceiver, m: Message, n: nat)
    requires rx.Clean() && n < |Frame(crc, m)|
    ensures Receive(crc, rx, Frame(crc, m)[..n]).1 == []
  {
    var w := WithTrailer(crc, m);
    var front := [END] + Escape(w);
    EndArrives(crc, rx);
    RunAppend(Receiving(crc), rx, [END], Escape(w));
    BodyPasses(crc, Receive(crc, rx, [END]).0, w);
    assert rx.buffer[..0] == [];
    assert Frame(crc, m)[..n] == front[..n];
    RunPrefix(Receiving(crc), rx, front, n);
  }

  lemma PrefixOfFirst(crc: Checksum, rx: ValidReceiver, ms: seq<Message>, n: nat)
    requires rx.Clean() && ms != [] && n < |Frame(crc, ms[0])|
    ensures n <= |Frames(crc, ms)|
    ensures Receive(crc, rx, Frames(crc, ms)[..n]).1 == []
  {
    var f, rest := Frame(crc, ms[0]), Frames(crc, ms[1..]);
    TakeAcross(f, rest, n);
    PartialFrameDeliversNothing(crc, rx, ms[0], n);
  }

  lemma PrefixBeyondFirst(crc: Checksum, rx: ValidReceiver, ms: seq<Message>, n: nat, k: nat)
    requires rx.Clean() && ms != [] && Deliverable(ms[0])
    requires |Frame(crc, ms[0])| <= n <= |Frames(crc, ms)| && k <= |ms| - 1
    requires var f, rest := Frame(crc, ms[0]), Frames(crc, ms[1..]);
             Receive(crc, Receive(crc, rx, f).0, rest[..n - |f|]).1 == ms[1..][..k]
    ensures Receive(crc, rx, Frames(crc, ms)[..n]).1 == ms[..k + 1]
  {
    hide Frame, Run, Receiving;
    var f, rest := Frame(crc, ms[0]), Frames(crc, ms[1..]);
    TakeAcross(f, rest, n);
    FrameDelivers(crc, rx, ms[0]);
    RunAppend(Receiving(crc), rx, f, rest[..n - |f|]);
    assert [ms[0]] + ms[1..][..k] == ms[..k + 1];
  }

  /** Reading any first part of a stream of frames hands over exactly the messages whose frames it completes. */
  lemma {:induction false} PrefixDelivers(crc: Checksum, rx: ValidReceiver, ms: seq<Message>, n: nat)
    requires rx.Clean() && forall m | m in ms :: Deliverable(m)
    requires n <= |Frames(crc, ms)|
    ensures Receive(crc, rx, Frames(crc, ms)[..n]).1 == ms[..Completed(crc, ms, n)]
    decreases |ms|
  {
    if ms == [] {
    } else if n < |Frame(crc, ms[0])| {
      PrefixOfFirst(crc, rx, ms, n);
    } else {
      FrameDelivers(crc, rx, ms[0]);
      var k := n - |Frame(crc, ms[0])|;
      PrefixDelivers(crc, Receive(crc, rx, Frame(crc, ms[0])).0, ms[1..], k);
      PrefixBeyondFirst(crc, rx, ms, n, Completed(crc, ms[1..], k));
    }
  }
}
