/** Report descriptors as bytes, and one whose report is too long for the parser's sixteen-bit cursor. */
module LongReports {
  import opened Bytes
  import opened DescriptorLayout

  // ---- items written as bytes --------------------------------------------------------------------

  /** An item that some bytes stand for. */
  predicate Codable(it: Item) {
    it.tag > 0 && it.tag % 4 == 0 && (it.size <= 2 || it.size == 4) && it.value < Pow256(it.size)
  }

  function Coded(it: Item): seq<Byte>
    requires Codable(it)
  {
    [it.tag + if it.size == 4 then 3 else it.size] + LE(it.value, it.size)
  }

  function CodedAll(items: seq<Item>): seq<Byte>
    requires forall it :: it in items ==> Codable(it)
  {
    if items == [] then [] else Coded(items[0]) + CodedAll(items[1..])
  }

  lemma CodedFirst(it: Item, rest: seq<Byte>)
    requires Codable(it)
    ensures var bytes := Coded(it) + rest;
            && bytes != [] && bytes != [0] && |Coded(it)| == 1 + PayloadSize(bytes[0]) <= |bytes|
            && bytes[1 + PayloadSize(bytes[0])..] == rest && FirstItem(bytes) == it
  {
    var bytes := Coded(it) + rest;
    assert bytes[1..1 + it.size] == LE(it.value, it.size);
    LERoundTrip(it.value, it.size);
  }

  /** Items written as bytes are read as those items. */
  lemma {:induction false} CodedReadsBack(items: seq<Item>)
    requires forall it :: it in items ==> Codable(it)
    ensures WellFormed(CodedAll(items)) && Items(CodedAll(items)) == items
  {
    if items != [] {
      CodedReadsBack(items[1..]);
      CodedFirst(items[0], CodedAll(items[1..]));
      assert [items[0]] + items[1..] == items;
    }
  }

  // ---- what the items of such a descriptor do ---------------------------------------------------------

  lemma SizeConsumed(s: State, it: Item)
    requires it.tag == HID_REPORT_SIZE
    ensures Consume(s, it) == s.(regs := s.regs.(reportSize := it.value))
  {
  }

  lemma CountConsumed(s: State, it: Item)
    requires it.tag == HID_REPORT_COUNT
    ensures Consume(s, it) == s.(regs := s.regs.(reportCount := it.value))
  {
  }

  lemma UsageConsumed(s: State, it: Item)
    requires it.tag == HID_USAGE && it.size == 2 && it.value < TWO16 && s.regs.usagePage == 0
    ensures Consume(s, it) == s.(regs := s.regs.(usages := s.regs.usages + [it.value]))
  {
  }

  lemma PaddingConsumed(s: State, it: Item)
    requires it.tag == HID_INPUT && it.value == 1
    ensures var key := Key(Input, s.regs.reportId);
            Consume(s, it) == State(NoLocals(s.regs),
                                    s.ends[key := End(s.ends, key) + s.regs.reportSize * s.regs.reportCount], s.marks)
  {
    assert s.marks + [] == s.marks;
  }

  /** The place of a usage that has a byte of its own. */
  function ByteMark(key: Key, usage: nat, start: nat): Mark {
    Mark(key, usage, Def(8, start % TWO16, false, false, 0, 0, 0, 0, 0), start, 8)
  }

  lemma ByteConsumed(s: State, it: Item, usage: nat)
    requires it.tag == HID_INPUT && it.value == 2
    requires s.regs == RESET.(reportSize := 8, reportCount := 1, usages := [usage])
    ensures var key := Key(Input, 0);
            var start := End(s.ends, key);
            Consume(s, it)
            == State(NoLocals(s.regs), s.ends[key := start + 8], s.marks + OneMark(ByteMark(key, usage, start)))
  {
    var r, key := s.regs, Key(Input, 0);
    var start := End(s.ends, key);
    var m := VariableMark(r, key, false, start, 0);
    assert VariableMarks(r, key, false, start, 1) == VariableMarks(r, key, false, start, 0) + OneMark(m);
    assert [] + OneMark(m) == OneMark(m);
    assert m == ByteMark(key, usage, start);
  }

  const BYTES := RESET.(reportSize := 8, reportCount := 1)

  /** A parser that is laying out bytes in an input report. */
  function Laying(ends: map<Key, nat>, marks: seq<Mark>): State {
    State(BYTES, ends, marks)
  }

  lemma ParseThen(items: seq<Item>, it: Item, s: State, t: State)
    requires Parse(items) == s && Consume(s, it) == t
    ensures Parse(items + [it]) == t
  {
    ParseSnoc(items, it);
  }

  const BYTE_WIDE := Item(HID_REPORT_SIZE, 1, 8)
  const ONCE := Item(HID_REPORT_COUNT, 1, 1)
  const VARIABLE := Item(HID_INPUT, 1, 2)
  const LONG := Item(HID_REPORT_SIZE, 2, 65528)
  const PADDING := Item(HID_INPUT, 1, 1)

  function Named(usage: nat): Item {
    Item(HID_USAGE, 2, usage)
  }

  lemma BytesFollow()
    ensures Parse([BYTE_WIDE, ONCE]) == Laying(map[], [])
  {
    hide Parse, Consume;
    var none: seq<Item> := [];
    assert Parse(none) == START by {
      NothingParsed();
    }
    SizeConsumed(START, BYTE_WIDE);
    ParseThen(none, BYTE_WIDE, START, START.(regs := RESET.(reportSize := 8)));
    CountConsumed(START.(regs := RESET.(reportSize := 8)), ONCE);
    ParseThen(none + [BYTE_WIDE], ONCE, START.(regs := RESET.(reportSize := 8)), Laying(map[], []));
    assert none + [BYTE_WIDE] + [ONCE] == [BYTE_WIDE, ONCE];
  }

  lemma NothingParsed()
    ensures Parse([]) == START
  {
  }

  /** A usage and its byte. */
  lemma ByteFollows(items: seq<Item>, usage: nat, ends: map<Key, nat>, marks: seq<Mark>)
    requires Parse(items) == Laying(ends, marks) && usage < TWO16
    ensures var key := Key(Input, 0);
            var start := End(ends, key);
            Parse(items + [Named(usage)] + [VARIABLE])
            == Laying(ends[key := start + 8], marks + OneMark(ByteMark(key, usage, start)))
  {
    hide Parse, Consume, OneMark, ByteMark;
    var key := Key(Input, 0);
    var named := State(BYTES.(usages := [usage]), ends, marks);
    UsageConsumed(Laying(ends, marks), Named(usage));
    ParseThen(items, Named(usage), Laying(ends, marks), named);
    ByteConsumed(named, VARIABLE, usage);
    ParseThen(items + [Named(usage)], VARIABLE, named,
              Laying(ends[key := End(ends, key) + 8], marks + OneMark(ByteMark(key, usage, End(ends, key)))));
  }

  /** A long stretch of padding, and back to bytes. */
  lemma PaddingFollows(items: seq<Item>, ends: map<Key, nat>, marks: seq<Mark>)
    requires Parse(items) == Laying(ends, marks)
    ensures var key := Key(Input, 0);
            Parse(items + [LONG] + [PADDING] + [BYTE_WIDE]) == Laying(ends[key := End(ends, key) + 65528], marks)
  {
    hide Parse, Consume;
    var key := Key(Input, 0);
    var wide := State(BYTES.(reportSize := 65528), ends, marks);
    var padded := State(BYTES.(reportSize := 65528), ends[key := End(ends, key) + 65528], marks);
    SizeConsumed(Laying(ends, marks), LONG);
    ParseThen(items, LONG, Laying(ends, marks), wide);
    PaddingConsumed(wide, PADDING);
    ParseThen(items + [LONG], PADDING, wide, padded);
    SizeConsumed(padded, BYTE_WIDE);
    ParseThen(items + [LONG] + [PADDING], BYTE_WIDE, padded, Laying(ends[key := End(ends, key) + 65528], marks));
  }

  // ---- the whole descriptor ------------------------------------------------------------------------------

  /** Usage 1 in a byte, 65528 bits of padding, usage 2 in a byte. */
  function LongItems(): seq<Item> {
    [BYTE_WIDE, ONCE] + [Named(1)] + [VARIABLE] + [LONG] + [PADDING] + [BYTE_WIDE] + [Named(2)] + [VARIABLE]
  }

  lemma LongItemsParsed()
    ensures var key := Key(Input, 0);
            Parse(LongItems()).marks == [ByteMark(key, 1, 0), ByteMark(key, 2, TWO16)]
  {
    hide Parse, Consume;
    var key := Key(Input, 0);
    BytesFollow();
    ByteFollows([BYTE_WIDE, ONCE], 1, map[], []);
    var first: seq<Mark> := [] + OneMark(ByteMark(key, 1, 0));
    var items := [BYTE_WIDE, ONCE] + [Named(1)] + [VARIABLE];
    PaddingFollows(items, map[key := 8], first);
    ByteFollows(items + [LONG] + [PADDING] + [BYTE_WIDE], 2, map[key := 8][key := TWO16], first);
    assert first + OneMark(ByteMark(key, 2, TWO16)) == [ByteMark(key, 1, 0), ByteMark(key, 2, TWO16)];
  }

  lemma TwoPlaced(m: Mark, n: Mark)
    requires m.key == n.key && m.usage != n.usage
    ensures Layout([m, n]) == map[m.key := map[m.usage := m.def, n.usage := n.def]]
  {
    assert [m, n][..1] == [m] && [m][..0] == [];
    assert Layout([m]) == map[m.key := map[m.usage := m.def]];
  }

  /** Behind 65528 bits of padding the cursor wraps, and the second of two bytes is laid over the first: a descriptor of
      21 bytes. */
  lemma LongReportsOverlap()
    ensures forall it :: it in LongItems() ==> Codable(it)
    ensures WellFormed(CodedAll(LongItems())) && Items(CodedAll(LongItems())) == LongItems()
    ensures var key, layout := Key(Input, 0), Layout(Parse(LongItems()).marks);
            && Has(layout, key, 1) && Has(layout, key, 2)
            && layout[key][1].bitpos == 0 && !Apart(layout[key][1], layout[key][2])
  {
    hide Parse, Layout, CodedAll, Items, WellFormed;
    Pow256Small();
    CodedReadsBack(LongItems());
    LongItemsParsed();
    TwoPlaced(ByteMark(Key(Input, 0), 1, 0), ByteMark(Key(Input, 0), 2, TWO16));
  }

  lemma Pow256Small()
    ensures Pow256(1) == 0x100 && Pow256(2) == 0x1_0000
  {
  }
}
