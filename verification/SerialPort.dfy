/** `serial.cc` itself: the transmit ring, the two kinds of write, the receiver, and the link they form. */
module SerialPort {
  import opened Bytes
  import opened Crc32
  import opened Rings
  import opened Runs
  import opened Sequences
  import opened Slip

  const BUFFER_SIZE: nat := 512

  // ---- the transmitter, abstractly ---------------------------------------------

  /** Bytes given to the UART so far, bytes waiting in the ring, and how often a put had to block. */
  datatype Transmitter = Transmitter(wire: seq<Byte>, queue: seq<Byte>, blocked: nat)

  function PutByte(tx: Transmitter, c: Byte, writable: bool): Transmitter {
    if tx.queue == [] && writable then
      tx.(wire := tx.wire + [c])
    else if |tx.queue| < BUFFER_SIZE then
      tx.(queue := tx.queue + [c])
    else
      Transmitter(tx.wire + [tx.queue[0]], tx.queue[1..] + [c], tx.blocked + 1)
  }

  /** Everything put, in order, wherever it has got to. */
  function Sent(tx: Transmitter): seq<Byte> {
    tx.wire + tx.queue
  }

  lemma PutKeepsOrder(tx: Transmitter, c: Byte, writable: bool)
    requires |tx.queue| <= BUFFER_SIZE
    ensures var after := PutByte(tx, c, writable);
            && Sent(after) == Sent(tx) + [c]
            && tx.wire <= after.wire
            && |after.queue| <= BUFFER_SIZE && |after.queue| <= |tx.queue| + 1
            && (after.blocked == tx.blocked <==> |tx.queue| < BUFFER_SIZE)
  {
  }

  /** A run of puts, the UART being writable, or not, as each one is made. */
  function PutAll(tx: Transmitter, s: seq<Byte>, writable: seq<bool>): Transmitter
    requires |writable| == |s|
    decreases |s|
  {
    if s == [] then tx else PutAll(PutByte(tx, s[0], writable[0]), s[1..], writable[1..])
  }

  lemma {:induction false} FittingNeverBlocks(tx: Transmitter, s: seq<Byte>, writable: seq<bool>)
    requires |writable| == |s| && |tx.queue| + |s| <= BUFFER_SIZE
    ensures PutAll(tx, s, writable).blocked == tx.blocked
    decreases |s|
  {
    if s != [] {
      PutKeepsOrder(tx, s[0], writable[0]);
      FittingNeverBlocks(PutByte(tx, s[0], writable[0]), s[1..], writable[1..]);
    }
  }

  /** A UART that takes nothing of its own accord makes every put wait behind the ring. */
  lemma {:induction false} OverfullBlocks(tx: Transmitter, s: seq<Byte>)
    requires |tx.queue| <= BUFFER_SIZE
    ensures PutAll(tx, s, seq(|s|, _ => false)).blocked
         == tx.blocked + if |tx.queue| + |s| <= BUFFER_SIZE then 0 else |tx.queue| + |s| - BUFFER_SIZE
    decreases |s|
  {
    if s != [] {
      assert seq(|s|, _ => false)[1..] == seq(|s| - 1, _ => false);
      OverfullBlocks(PutByte(tx, s[0], false), s[1..]);
    }
  }

  /** Whatever the UART's readiness, no put blocks. */
  ghost predicate NeverBlocks(tx: Transmitter, s: seq<Byte>) {
    forall writable: seq<bool> | |writable| == |s| :: PutAll(tx, s, writable).blocked == tx.blocked
  }

  lemma NeverBlocksExactly(tx: Transmitter, s: seq<Byte>)
    requires |tx.queue| <= BUFFER_SIZE
    ensures NeverBlocks(tx, s) <==> |tx.queue| + |s| <= BUFFER_SIZE
  {
    OverfullBlocks(tx, s);
    if |tx.queue| + |s| <= BUFFER_SIZE {
      forall writable: seq<bool> | |writable| == |s|
        ensures PutAll(tx, s, writable).blocked == tx.blocked
      {
        FittingNeverBlocks(tx, s, writable);
      }
    } else {
      assert PutAll(tx, s, seq(|s|, _ => false)).blocked != tx.blocked;
    }
  }

  /** What `serial_write` compares before it drops: sixteen bits of the frame's length. */
  predicate Fits(crc: Checksum, m: Message, tx: Transmitter) {
    |Frame(crc, m)| % 0x1_0000 + |tx.queue| <= BUFFER_SIZE
  }

  /** A dropping write is accepted exactly when it never blocks, except that the length of a frame of 65536 bytes or
      more is cut to sixteen bits: that is accepted as if it were short, and blocks on a UART that takes nothing. */
  lemma AcceptedExactly(crc: Checksum, m: Message, tx: Transmitter)
    requires |tx.queue| <= BUFFER_SIZE
    ensures NeverBlocks(tx, Frame(crc, m)) <==> Fits(crc, m, tx) && |Frame(crc, m)| < 0x1_0000
  {
    NeverBlocksExactly(tx, Frame(crc, m));
  }

  lemma {:induction false} EscapeAtMostDoubles(w: seq<Byte>)
    ensures |Escape(w)| <= 2 * |w|
  {
    if w != [] {
      EscapeAtMostDoubles(w[..|w| - 1]);
    }
  }

  /** No message of less than 32763 bytes makes such a frame. */
  lemma ShortFrames(crc: Checksum, m: Message)
    requires |m| < 32763
    ensures |Frame(crc, m)| < 0x1_0000
  {
    var trailer := LE(crc(m), 4);
    FlatMapAppend(EscapeByte, m, trailer);
    EscapeAtMostDoubles(m);
    EscapeAtMostDoubles(trailer);
  }

  // ---- escaping, as the write loops meet it ---------------------------------------

  predicate Special(b: Byte) {
    b == END || b == ESC
  }

  lemma {:induction false} EscapeGrows(w: seq<Byte>)
    ensures |w| <= |Escape(w)|
  {
    if w != [] {
      EscapeGrows(w[..|w| - 1]);
    }
  }

  lemma FrameParts(crc: Checksum, data: seq<Byte>)
    ensures var body, trailer := Escape(data), Escape(LE(crc(data), 4));
            && Frame(crc, data) == [END] + body + trailer + [END]
            && |data| <= |body| && 4 <= |trailer|
  {
    var trailer := LE(crc(data), 4);
    FlatMapAppend(EscapeByte, data, trailer);
    EscapeGrows(data);
    EscapeGrows(trailer);
    assert [END] + (Escape(data) + Escape(trailer)) == [END] + Escape(data) + Escape(trailer);
  }

  // ---- the sender --------------------------------------------------------------------

  class Sender {
    const outgoing: array<Byte>
    var head: nat
    var tail: nat
    var items: nat
    var wire: seq<Byte>
    ghost var blocked: nat

    ghost predicate Valid()
      reads this
    {
      && outgoing.Length == BUFFER_SIZE
      && head < BUFFER_SIZE && items <= BUFFER_SIZE
      && tail == Wrap(head + items, BUFFER_SIZE)
    }

    ghost function Queue(): seq<Byte>
      reads this, outgoing
      requires Valid()
    {
      Ring(outgoing[..], head, items)
    }

    ghost function State(): Transmitter
      reads this, outgoing
      requires Valid()
    {
      Transmitter(wire, Queue(), blocked)
    }

    constructor ()
      ensures Valid() && State() == Transmitter([], [], 0) && fresh(outgoing)
    {
      outgoing := new Byte[BUFFER_SIZE](_ => 0);
      head, tail, items, wire, blocked := 0, 0, 0, [], 0;
    }

    /** The hardware's answer is not ours to know. */
    method UartIsWritable() returns (writable: bool)
    {
      writable := *;
    }

    method Enqueue(c: Byte)
      requires Valid() && items < BUFFER_SIZE
      modifies this`tail, this`items, outgoing
      ensures Valid() && Queue() == old(Queue()) + [c]
    {
      WrapIsModulo(tail + 1, BUFFER_SIZE);
      RingPush(outgoing[..], head, items, c);
      outgoing[tail] := c;
      tail := (tail + 1) % BUFFER_SIZE;
      items := items + 1;
    }

    /** Hand the oldest queued byte to the UART. */
    method Forward()
      requires Valid() && items > 0
      modifies this`head, this`items, this`wire
      ensures Valid() && items == old(items) - 1
      ensures wire == old(wire) + [old(Queue())[0]] && Queue() == old(Queue())[1..]
      ensures Sent(State()) == old(Sent(State()))
    {
      WrapIsModulo(head + 1, BUFFER_SIZE);
      RingPop(outgoing[..], head, items);
      wire := wire + [outgoing[head]];
      head := (head + 1) % BUFFER_SIZE;
      items := items - 1;
    }

    /** `my_putc`. */
    method PutChar(c: Byte) returns (ghost writable: bool)
      requires Valid()
      modifies this, outgoing
      ensures Valid() && State() == PutByte(old(State()), c, writable)
    {
      var w := UartIsWritable();
      writable := w;
      if items == 0 && w {
        wire := wire + [c];
      } else if items < BUFFER_SIZE {
        Enqueue(c);
      } else {
        Forward();
        Enqueue(c);
        blocked := blocked + 1;
      }
    }

    /** The first loop of `serial_read`: hand queued bytes to the UART while it takes them. */
    method Drain()
      requires Valid()
      modifies this
      ensures Valid() && Sent(State()) == old(Sent(State())) && blocked == old(blocked)
      ensures old(wire) <= wire && items <= old(items)
    {
      ghost var all := Sent(State());
      var more := UartIsWritable();
      while items > 0 && more
        invariant Valid() && Sent(State()) == all && blocked == old(blocked)
        invariant old(wire) <= wire && items <= old(items)
        decreases items
      {
        Forward();
        more := UartIsWritable();
      }
    }

    /** A run of puts: in order, never losing a byte, blocking only when the ring was full. */
    ghost predicate Put(before: Transmitter, s: seq<Byte>)
      reads this, outgoing
      requires Valid()
    {
      && Sent(State()) == Sent(before) + s
      && before.wire <= wire
      && items <= |before.queue| + |s|
      && (|before.queue| + |s| <= BUFFER_SIZE ==> blocked == before.blocked)
    }

    method PutNext(c: Byte, ghost before: Transmitter, ghost s: seq<Byte>)
      requires Valid() && Put(before, s)
      modifies this, outgoing
      ensures Valid() && Put(before, s + [c])
    {
      ghost var mid := State();
      ghost var writable := PutChar(c);
      PutKeepsOrder(mid, c, writable);
      assert (Sent(before) + s) + [c] == Sent(before) + (s + [c]);
    }

    /** `send_escaped_byte`. */
    method SendEscapedByte(b: Byte, ghost before: Transmitter, ghost s: seq<Byte>)
      requires Valid() && Put(before, s)
      modifies this, outgoing
      ensures Valid() && Put(before, s + EscapeByte(b))
    {
      if b == END {
        PutNext(ESC, before, s);
        PutNext(ESC_END, before, s + [ESC]);
        assert s + [ESC] + [ESC_END] == s + [ESC, ESC_END];
      } else if b == ESC {
        PutNext(ESC, before, s);
        PutNext(ESC_ESC, before, s + [ESC]);
        assert s + [ESC] + [ESC_ESC] == s + [ESC, ESC_ESC];
      } else {
        PutNext(b, before, s);
      }
    }

    method SendEscaped(w: seq<Byte>, ghost before: Transmitter, ghost s: seq<Byte>)
      requires Valid() && Put(before, s)
      modifies this, outgoing
      ensures Valid() && Put(before, s + Escape(w))
    {
      assert s + Escape(w[..0]) == s;
      for i := 0 to |w|
        invariant Valid() && Put(before, s + Escape(w[..i]))
      {
        SendEscapedByte(w[i], before, s + Escape(w[..i]));
        FlatMapPrefix(EscapeByte, w, i);
        assert s + Escape(w[..i]) + EscapeByte(w[i]) == s + Escape(w[..i + 1]);
      }
      assert w[..|w|] == w;
    }

    method SendFrame(data: seq<Byte>, trailer: seq<Byte>)
      requires Valid()
      modifies this, outgoing
      ensures Valid() && Put(old(State()), [END] + Escape(data) + Escape(trailer) + [END])
    {
      ghost var before := State();
      assert Sent(before) + [] == Sent(before);
      PutNext(END, before, []);
      assert [] + [END] == [END];
      SendEscaped(data, before, [END]);
      SendEscaped(trailer, before, [END] + Escape(data));
      PutNext(END, before, [END] + Escape(data) + Escape(trailer));
    }

    /** `serial_write`: the whole frame or, when asked to drop rather than block, nothing. */
    method SerialWrite(data: seq<Byte>, dropIfBlocking: bool) returns (sent: bool)
      requires Valid() && |data| < 0x1_0000
      modifies this, outgoing
      ensures Valid()
      ensures sent <==> !dropIfBlocking || |Frame(Crc, data)| % 0x1_0000 <= BUFFER_SIZE - old(items)
      ensures sent ==> Sent(State()) == old(Sent(State())) + Frame(Crc, data) && old(wire) <= wire
      ensures !sent ==> State() == old(State())
      ensures dropIfBlocking && |Frame(Crc, data)| < 0x1_0000 ==> blocked == old(blocked)
    {
      hide Put, FrameOf;
      var crc := ComputeCrc32(data);
      var trailer := LE(crc, 4);
      FrameParts(Crc, data);
      if dropIfBlocking {
        var bytesToSend := BytesToSend(data, trailer);
        if bytesToSend > BUFFER_SIZE - items {
          return false;
        }
      }
      SendFrame(data, trailer);
      sent := true;
    }
  }

  /** The number of bytes of `w` that must be escaped, counted in 16 bits on top of `start`. */
  method CountSpecial(w: seq<Byte>, start: nat) returns (count: nat)
    requires start < 0x1_0000
    ensures count == (start + |Escape(w)| - |w|) % 0x1_0000
  {
    count := start;
    for i := 0 to |w|
      invariant i <= |Escape(w[..i])| && count == (start + |Escape(w[..i])| - i) % 0x1_0000
    {
      FlatMapPrefix(EscapeByte, w, i);
      if Special(w[i]) {
        count := (count + 1) % 0x1_0000;
      }
    }
    assert w[..|w|] == w;
  }

  /** `bytes_to_send`. */
  method BytesToSend(data: seq<Byte>, trailer: seq<Byte>) returns (count: nat)
    requires |data| < 0x1_0000 && |trailer| == 4
    ensures count == |[END] + Escape(data) + Escape(trailer) + [END]| % 0x1_0000
  {
    EscapeGrows(data);
    EscapeGrows(trailer);
    count := CountSpecial(data, (|data| + 2 + 4) % 0x1_0000);
    count := CountSpecial(trailer, count);
    FrameLength(|data|, |Escape(data)|, |Escape(trailer)|);
  }

  /** The 16-bit count of a frame's bytes, as `serial_write` builds it up. */
  lemma FrameLength(len: nat, body: nat, trailer: nat)
    requires len <= body && 4 <= trailer
    ensures (((len + 6) % 0x1_0000 + body - len) % 0x1_0000 + trailer - 4) % 0x1_0000
            == (1 + body + trailer + 1) % 0x1_0000
  {
  }

  // ---- the receiver ---------------------------------------------------------------------

  /** The trailer put together from its last byte down. */
  method ReceivedCrc(stored: seq<Byte>) returns (received: nat)
    requires |stored| >= 4
    ensures received == FromLE(stored[|stored| - 4..])
  {
    received := 0;
    for i := 0 to 4
      invariant received == FromLE(stored[|stored| - i..])
    {
      received := 256 * received + (stored[|stored| - 1 - i] as nat);
      assert stored[|stored| - 1 - i..][1..] == stored[|stored| - i..];
    }
  }

  class ReceivePort {
    const buffer: array<Byte>
    var bytesRead: nat
    var escaped: bool

    ghost predicate Valid()
      reads this
    {
      buffer.Length == RX_SIZE && bytesRead <= RX_SIZE
    }

    ghost function State(): ValidReceiver
      reads this, buffer
      requires Valid()
    {
      Receiver(buffer[..], bytesRead, escaped)
    }

    constructor ()
      ensures Valid() && State().Clean() && fresh(buffer)
    {
      buffer := new Byte[RX_SIZE](_ => 0);
      bytesRead, escaped := 0, false;
    }

    method Append(c: Byte)
      requires Valid() && bytesRead < RX_SIZE
      modifies this, buffer
      ensures Valid() && State() == Store(old(State()).(escaped := false), c)
    {
      buffer[bytesRead] := c;
      bytesRead := bytesRead + 1;
      escaped := false;
    }

    /** The test END makes of what is stored. */
    method Check() returns (handed: seq<Message>)
      requires Valid() && bytesRead < RX_SIZE
      ensures handed == Delivery(Crc, buffer[..bytesRead])
    {
      if bytesRead <= 4 {
        return [];
      }
      var stored := buffer[..bytesRead];
      var crc := ComputeCrc32(stored[..bytesRead - 4]);
      var received := ReceivedCrc(stored);
      handed := if crc == received then [stored[..bytesRead - 4]] else [];
    }

    /** One round of the receive loop. */
    method Take(c: Byte) returns (handed: seq<Message>)
      requires Valid()
      modifies this, buffer
      ensures Valid() && ReceiveByte(Crc, old(State()), c) == (State(), handed)
    {
      bytesRead := bytesRead % RX_SIZE;
      handed := [];
      if escaped {
        Append(Unescape(c));
      } else if c == END {
        handed := Check();
        bytesRead := 0;
      } else if c == ESC {
        escaped := true;
      } else {
        Append(c);
      }
    }

    /** The second loop of `serial_read`: take bytes until one completes a message or none is left. */
    method Poll(readable: seq<Byte>) returns (consumed: nat, handed: seq<Message>)
      requires Valid()
      modifies this, buffer
      ensures Valid() && consumed <= |readable|
      ensures Receive(Crc, old(State()), readable[..consumed]) == (State(), handed)
      ensures |handed| <= 1 && (handed == [] ==> consumed == |readable|)
    {
      consumed, handed := 0, [];
      while consumed < |readable|
        invariant Valid() && consumed <= |readable| && handed == []
        invariant Receive(Crc, old(State()), readable[..consumed]) == (State(), [])
      {
        ReceiveNext(Crc, old(State()), readable, consumed);
        handed := Take(readable[consumed]);
        consumed := consumed + 1;
        if handed != [] {
          return;
        }
      }
    }
  }
}
