/** What goes over the serial link, byte by byte, and the numbers its buffers come to: RFC 1055 with the values written
    out. */
module WireFormat {
  import opened Bytes
  import opened Sequences
  import opened Slip
  import opened SerialPort
  import ConfigLayout
  import LinkedBoards

  /** No byte between two ends is an end: 0xC0 becomes 0xDB 0xDC, and 0xDB becomes 0xDB 0xDD. */
  function Stuffed(s: seq<Byte>): seq<Byte> {
    if s == [] then []
    else if s[0] == 0xC0 then [0xDB, 0xDC] + Stuffed(s[1..])
    else if s[0] == 0xDB then [0xDB, 0xDD] + Stuffed(s[1..])
    else [s[0]] + Stuffed(s[1..])
  }

  lemma EscapeOne(b: Byte)
    ensures Escape([b]) == if b == 0xC0 then [0xDB, 0xDC] else if b == 0xDB then [0xDB, 0xDD] else [b]
  {
    FlatMapSnoc(EscapeByte, [], b);
    assert [] + [b] == [b];
    assert [] + EscapeByte(b) == EscapeByte(b);
  }

  lemma {:induction false} EscapeIsStuffing(s: seq<Byte>)
    ensures Escape(s) == Stuffed(s)
  {
    if s != [] {
      EscapeIsStuffing(s[1..]);
      EscapeOne(s[0]);
      FlatMapAppend(EscapeByte, [s[0]], s[1..]);
      assert [s[0]] + s[1..] == s;
    }
  }

  lemma {:induction false} StuffedHasNoEnd(s: seq<Byte>)
    ensures 0xC0 !in Stuffed(s)
  {
    if s != [] {
      StuffedHasNoEnd(s[1..]);
    }
  }

  /** A frame is the message and the four bytes of its checksum, the lowest first, between two ends 0xC0; and there is
      no other 0xC0 in it. */
  lemma FrameOnTheWire(crc: Checksum, m: Message) returns (trailer: seq<Byte>)
    ensures |trailer| == 4 && ConfigLayout.Word(trailer, 0) == crc(m)
    ensures Frame(crc, m) == [0xC0] + Stuffed(m + trailer) + [0xC0] && 0xC0 !in Stuffed(m + trailer)
  {
    trailer := LE(crc(m), 4);
    ConfigLayout.LowestFirst(crc(m));
    EscapeIsStuffing(m + trailer);
    StuffedHasNoEnd(m + trailer);
  }

  /** From a clean boundary a frame's message is handed over exactly when it has between 1 and 539 bytes. */
  lemma DeliveredLengths(crc: Checksum, rx: ValidReceiver, m: Message)
    requires rx.Clean()
    ensures Receive(crc, rx, Frame(crc, m)).1 == [m] <==> 1 <= |m| <= 539
  {
    FrameDelivers(crc, rx, m);
  }

  /** A put waits for the UART exactly when 512 bytes are in the ring, and a write that may drop is accepted exactly
      when its frame's length, in sixteen bits, finds room there. */
  lemma RingOf512(crc: Checksum, m: Message, tx: Transmitter, c: Byte, writable: bool)
    requires |tx.queue| <= 512
    ensures PutByte(tx, c, writable).blocked == tx.blocked <==> |tx.queue| < 512
    ensures |PutByte(tx, c, writable).queue| <= 512
    ensures Fits(crc, m, tx) <==> |Frame(crc, m)| % 0x1_0000 <= 512 - |tx.queue|
  {
    PutKeepsOrder(tx, c, writable);
  }

  /** A report of board B's goes out behind three bytes: the command 3, the device's address and its instance. */
  lemma ReportOnTheWire(crc: Checksum, devAddr: Byte, instance: Byte, data: seq<Byte>) returns (trailer: seq<Byte>)
    ensures |trailer| == 4 && ConfigLayout.Word(trailer, 0) == crc([3, devAddr, instance] + data)
    ensures Frame(crc, LinkedBoards.Encode(LinkedBoards.H.Iface(devAddr, instance), data))
         == [0xC0] + Stuffed([3, devAddr, instance] + data + trailer) + [0xC0]
  {
    trailer := FrameOnTheWire(crc, [3, devAddr, instance] + data);
  }
}
