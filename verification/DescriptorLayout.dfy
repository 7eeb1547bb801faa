/** Report descriptors (USB HID 1.11, section 6.2.2): what their items do to the parser of `descriptor_parser.cc`,
    and the layout of the fields it marks. */
module DescriptorLayout {
  import opened Bytes
  import ReportBits

  const HID_INPUT := 0x80
  const HID_OUTPUT := 0x90
  const HID_FEATURE := 0xB0
  const HID_COLLECTION := 0xA0
  const HID_USAGE_PAGE := 0x04
  const HID_REPORT_SIZE := 0x74
  const HID_REPORT_ID := 0x84
  const HID_REPORT_COUNT := 0x94
  const HID_USAGE := 0x08
  const HID_USAGE_MINIMUM := 0x18
  const HID_USAGE_MAXIMUM := 0x28
  const HID_LOGICAL_MINIMUM := 0x14
  const HID_LOGICAL_MAXIMUM := 0x24
  const HID_PUSH := 0xA4
  const HID_POP := 0xB4

  const TWO16: nat := 0x1_0000

  // ---- items ------------------------------------------------------------------------------

  datatype Item = Item(tag: Byte, size: nat, value: nat)

  function PayloadSize(prefix: Byte): (n: nat)
    ensures n <= 4
  {
    if prefix % 4 == 3 then 4 else prefix % 4
  }

  /** Complete items, the last one not a lone zero byte. */
  predicate WellFormed(bytes: seq<Byte>) {
    bytes == [] ||
    (bytes != [0] && 1 + PayloadSize(bytes[0]) <= |bytes| && WellFormed(bytes[1 + PayloadSize(bytes[0])..]))
  }

  function FirstItem(bytes: seq<Byte>): Item
    requires bytes != [] && 1 + PayloadSize(bytes[0]) <= |bytes|
  {
    var n := PayloadSize(bytes[0]);
    Item(bytes[0] - bytes[0] % 4, n, FromLE(bytes[1..1 + n]))
  }

  function Items(bytes: seq<Byte>): seq<Item>
    requires WellFormed(bytes)
  {
    if bytes == [] then [] else [FirstItem(bytes)] + Items(bytes[1 + PayloadSize(bytes[0])..])
  }

  // ---- the parser's state ---------------------------------------------------------------------

  datatype Kind = Input | Output | Feature

  datatype Key = Key(kind: Kind, id: nat)

  /** What the firmware keeps of a usage: `usage_def_t`. */
  datatype Def = Def(
    size: nat, bitpos: nat, relative: bool, isArray: bool, logicalMinimum: int, logicalMaximum: int,
    index: int, count: nat, usageMaximum: nat)

  /** A usage given a place: its definition, and where its field really starts and how many bits it covers. */
  datatype Mark = Mark(key: Key, usage: nat, def: Def, start: nat, extent: nat)

  datatype Registers = Registers(
    reportId: nat, reportSize: nat, reportCount: nat, usagePage: nat,
    usages: seq<nat>, usageMinimum: nat, usageMaximum: nat, hasMinimum: bool, hasMaximum: bool,
    logicalMinimum: int, logicalMaximum: int, unsignedMaximum: int)

  /** `ends` counts the bits of each report; the firmware's cursor is that number modulo 65536. */
  datatype State = State(regs: Registers, ends: map<Key, nat>, marks: seq<Mark>)

  const RESET := Registers(0, 0, 0, 0, [], 0, 0, false, false, 0, 0, 0)

  const START := State(RESET, map[], [])

  function End(ends: map<Key, nat>, key: Key): nat {
    if key in ends then ends[key] else 0
  }

  function NoLocals(r: Registers): Registers {
    r.(usages := [], usageMinimum := 0, usageMaximum := 0, hasMinimum := false, hasMaximum := false)
  }

  /** Reports are at most 64 bytes long, an id included. */
  function Limit(id: nat): nat {
    8 * (if id == 0 then 64 else 63)
  }

  /** `mark_usage` drops fields beyond that. */
  predicate Kept(m: Mark) {
    m.def.bitpos < Limit(m.key.id)
  }

  function OneMark(m: Mark): seq<Mark> {
    if Kept(m) then [m] else []
  }

  // ---- main items -----------------------------------------------------------------------------

  function ValueAt(usages: seq<nat>, i: nat): nat
    requires usages != []
  {
    if i < |usages| then usages[i] else usages[|usages| - 1]
  }

  /** The usage of field number i: counting up to the maximum and staying there, or from the list. */
  function UsageOf(r: Registers, i: nat): nat
    requires (r.hasMinimum && r.hasMaximum) || r.usages != []
  {
    if r.hasMinimum && r.hasMaximum
    then if r.usageMinimum + i <= r.usageMaximum then r.usageMinimum + i
         else if r.usageMinimum < r.usageMaximum then r.usageMaximum else r.usageMinimum
    else ValueAt(r.usages, i)
  }

  predicate HasUsages(r: Registers) {
    (r.hasMinimum && r.hasMaximum) || r.usages != []
  }

  /** Where field number i starts. */
  function FieldStart(start: nat, size: nat, i: nat): nat {
    if i == 0 then start else FieldStart(start, size, i - 1) + size
  }

  lemma {:induction false} FieldStartIs(start: nat, size: nat, i: nat)
    ensures FieldStart(start, size, i) == start + size * i
  {
    if i > 0 {
      FieldStartIs(start, size, i - 1);
      assert size * i == size * (i - 1) + size;
    }
  }

  function VariableMark(r: Registers, key: Key, relative: bool, start: nat, i: nat): Mark
    requires HasUsages(r)
  {
    var at := FieldStart(start, r.reportSize, i);
    Mark(key, UsageOf(r, i),
         Def(r.reportSize % 256, at % TWO16, relative, false, r.logicalMinimum, r.logicalMaximum, 0, 0, 0),
         at, r.reportSize)
  }

  /** The first n fields of a variable item. */
  function VariableMarks(r: Registers, key: Key, relative: bool, start: nat, n: nat): seq<Mark>
    requires HasUsages(r)
  {
    if n == 0 then []
    else VariableMarks(r, key, relative, start, n - 1) + OneMark(VariableMark(r, key, relative, start, n - 1))
  }

  function ArrayMark(r: Registers, key: Key, relative: bool, start: nat, usage: nat, index: int, maximum: nat): Mark {
    Mark(key, usage,
         Def(r.reportSize % 256, start % TWO16, relative, true, r.logicalMinimum, r.unsignedMaximum, index,
             r.reportCount, maximum),
         start, FieldStart(0, r.reportSize, r.reportCount))
  }

  /** The first n usages of an array with a list of usages. */
  function ArrayMarks(r: Registers, key: Key, relative: bool, start: nat, n: nat): seq<Mark>
    requires r.usages != []
  {
    if n == 0 then []
    else ArrayMarks(r, key, relative, start, n - 1)
         + OneMark(ArrayMark(r, key, relative, start, ValueAt(r.usages, n - 1), r.logicalMinimum + n - 1, 0))
  }

  /** How many indices an array has. */
  function IndexCount(r: Registers): nat {
    if r.logicalMinimum <= r.unsignedMaximum then r.unsignedMaximum - r.logicalMinimum + 1 else 0
  }

  /** The last usage an array's range reaches, in 32-bit arithmetic. */
  function EffectiveMaximum(r: Registers): nat {
    var reach := (r.usageMinimum + r.unsignedMaximum - r.logicalMinimum) % TWO32;
    if r.usageMaximum < reach then r.usageMaximum else reach
  }

  /** A one-bit array that must have been meant as one bit per usage. */
  predicate BitmapArray(r: Registers, it: Item) {
    && it.tag == HID_INPUT && it.value % 4 == 0
    && r.reportSize == 1 && r.logicalMinimum == 0 && r.unsignedMaximum == 1
    && r.hasMinimum && r.hasMaximum && r.usageMaximum >= r.usageMinimum
    && r.usageMaximum - r.usageMinimum + 1 == r.reportCount && r.reportCount > 2
  }

  function KindOf(tag: Byte): Kind {
    if tag == HID_OUTPUT then Output else if tag == HID_FEATURE then Feature else Input
  }

  predicate IsMain(tag: Byte) {
    tag == HID_INPUT || tag == HID_OUTPUT || tag == HID_FEATURE
  }

  predicate Relative(it: Item) {
    it.value / 4 % 2 == 1
  }

  predicate IsVariable(r: Registers, it: Item) {
    it.value % 4 == 2 || BitmapArray(r, it)
  }

  /** The marks a main item leaves, its fields starting here. */
  function MainMarks(r: Registers, it: Item, start: nat): seq<Mark> {
    var key := Key(KindOf(it.tag), r.reportId);
    if IsVariable(r, it) then
      if HasUsages(r) then VariableMarks(r, key, Relative(it), start, r.reportCount) else []
    else if it.value % 4 == 0 then
      if r.hasMinimum && r.hasMaximum then
        OneMark(ArrayMark(r, key, Relative(it), start, r.usageMinimum, r.logicalMinimum, EffectiveMaximum(r)))
      else if r.usages != [] then ArrayMarks(r, key, Relative(it), start, IndexCount(r))
      else []
    else []
  }

  // ---- all items ---------------------------------------------------------------------------------

  /** A usage of at most two bytes belongs to the current page. */
  function FullUsage(r: Registers, it: Item): nat {
    if it.size <= 2 then (r.usagePage * TWO16 + it.value) % TWO32 else it.value
  }

  /** The number an item's bytes stand for when its top bit is a sign. */
  function SignedValue(it: Item): int {
    if it.size == 1 && it.value >= 0x80 then it.value - 0x100
    else if it.size == 2 && it.value >= 0x8000 then it.value - TWO16
    else if it.size == 4 && it.value >= TWO31 then it.value - TWO32
    else it.value
  }

  function SetRegister(r: Registers, it: Item): Registers {
    if it.tag == HID_COLLECTION then NoLocals(r)
    else if it.tag == HID_USAGE_PAGE then r.(usagePage := it.value)
    else if it.tag == HID_REPORT_SIZE then r.(reportSize := it.value)
    else if it.tag == HID_REPORT_ID then r.(reportId := it.value % 256)
    else if it.tag == HID_REPORT_COUNT then r.(reportCount := it.value)
    else if it.tag == HID_USAGE then r.(usages := r.usages + [FullUsage(r, it)])
    else if it.tag == HID_USAGE_MINIMUM then r.(usageMinimum := FullUsage(r, it), hasMinimum := true)
    else if it.tag == HID_USAGE_MAXIMUM then r.(usageMaximum := FullUsage(r, it), hasMaximum := true)
    else if it.tag == HID_LOGICAL_MINIMUM then r.(logicalMinimum := SignedValue(it))
    else if it.tag == HID_LOGICAL_MAXIMUM
    then r.(logicalMaximum := SignedValue(it), unsignedMaximum := AsInt32(it.value))
    else r
  }

  /** A variable item without fields does not even start its report. */
  predicate NoFields(r: Registers, it: Item) {
    IsVariable(r, it) && HasUsages(r) && r.reportCount == 0
  }

  /** The report that a main item extends, and how far it then reaches. */
  function MainKey(r: Registers, it: Item): Key {
    Key(KindOf(it.tag), r.reportId)
  }

  function MainEnds(r: Registers, it: Item, ends: map<Key, nat>): map<Key, nat> {
    var key := MainKey(r, it);
    if NoFields(r, it) then ends else ends[key := End(ends, key) + r.reportSize * r.reportCount]
  }

  function Consume(s: State, it: Item): State {
    if IsMain(it.tag) then
      State(NoLocals(s.regs), MainEnds(s.regs, it, s.ends),
            s.marks + MainMarks(s.regs, it, End(s.ends, MainKey(s.regs, it))))
    else s.(regs := SetRegister(s.regs, it))
  }

  function Parse(items: seq<Item>): State {
    if items == [] then START else Consume(Parse(items[..|items| - 1]), items[|items| - 1])
  }

  lemma ParseSnoc(items: seq<Item>, it: Item)
    ensures Parse(items + [it]) == Consume(Parse(items), it)
  {
    assert (items + [it])[..|items|] == items;
  }

  // ---- every report is as long as its fields say -------------------------------------------------------

  /** The global items that lay fields out: the last report id, size and count. */
  function LastValue(items: seq<Item>, tag: Byte): nat {
    if items == [] then 0
    else if items[|items| - 1].tag == tag then items[|items| - 1].value
    else LastValue(items[..|items| - 1], tag)
  }

  /** Size times count of all main items of this report. */
  function TotalBits(items: seq<Item>, key: Key): nat {
    if items == [] then 0 else
      var before, it := items[..|items| - 1], items[|items| - 1];
      TotalBits(before, key)
      + if IsMain(it.tag) && KindOf(it.tag) == key.kind && LastValue(before, HID_REPORT_ID) % 256 == key.id
        then LastValue(before, HID_REPORT_SIZE) * LastValue(before, HID_REPORT_COUNT) else 0
  }

  lemma {:induction false} RegistersAreLast(items: seq<Item>)
    ensures var r := Parse(items).regs;
            && r.reportId == LastValue(items, HID_REPORT_ID) % 256
            && r.reportSize == LastValue(items, HID_REPORT_SIZE)
            && r.reportCount == LastValue(items, HID_REPORT_COUNT)
  {
    if items != [] {
      RegistersAreLast(items[..|items| - 1]);
    }
  }

  /** The parser counts every report's bits: size times count of each of its items. */
  lemma {:induction false} EndIsTotal(items: seq<Item>, key: Key)
    ensures End(Parse(items).ends, key) == TotalBits(items, key)
  {
    if items != [] {
      EndIsTotal(items[..|items| - 1], key);
      RegistersAreLast(items[..|items| - 1]);
    }
  }

  // The standard's own rule, with its stack of global items.

  datatype Globals = Globals(reportId: nat, size: nat, count: nat)

  function SetGlobal(g: Globals, it: Item): Globals {
    if it.tag == HID_REPORT_ID then g.(reportId := it.value % 256)
    else if it.tag == HID_REPORT_SIZE then g.(size := it.value)
    else if it.tag == HID_REPORT_COUNT then g.(count := it.value)
    else g
  }

  /** The item state table and the saved ones, the newest last. */
  function GlobalItems(items: seq<Item>): (Globals, seq<Globals>) {
    if items == [] then (Globals(0, 0, 0), []) else
      var (g, saved) := GlobalItems(items[..|items| - 1]);
      var it := items[|items| - 1];
      if it.tag == HID_PUSH then (g, saved + [g])
      else if it.tag == HID_POP && saved != [] then (saved[|saved| - 1], saved[..|saved| - 1])
      else (SetGlobal(g, it), saved)
  }

  /** Size times count of all main items of this report, as the standard has it. */
  function StandardBits(items: seq<Item>, key: Key): nat {
    if items == [] then 0 else
      var before, it := items[..|items| - 1], items[|items| - 1];
      var g := GlobalItems(before).0;
      StandardBits(before, key)
      + if IsMain(it.tag) && KindOf(it.tag) == key.kind && g.reportId == key.id then g.size * g.count else 0
  }

  predicate NeverPops(items: seq<Item>) {
    forall it :: it in items ==> it.tag != HID_POP
  }

  lemma {:induction false} GlobalsAreLast(items: seq<Item>)
    requires NeverPops(items)
    ensures GlobalItems(items).0
         == Globals(LastValue(items, HID_REPORT_ID) % 256, LastValue(items, HID_REPORT_SIZE),
                    LastValue(items, HID_REPORT_COUNT))
  {
    if items != [] {
      GlobalsAreLast(items[..|items| - 1]);
    }
  }

  /** Where no Pop occurs, which the parser passes over, it counts the standard's bits. */
  lemma {:induction false} EndIsStandard(items: seq<Item>, key: Key)
    requires NeverPops(items)
    ensures End(Parse(items).ends, key) == TotalBits(items, key) == StandardBits(items, key)
  {
    EndIsTotal(items, key);
    if items != [] {
      EndIsStandard(items[..|items| - 1], key);
      GlobalsAreLast(items[..|items| - 1]);
    }
  }

  // ---- fields do not overlap --------------------------------------------------------------------------

  /** Two usages of one array share its field. */
  predicate SameArray(m: Mark, n: Mark) {
    m.def.isArray && n.def.isArray && m.start == n.start && m.extent == n.extent
  }

  /** The first mark's field ends before the second one's starts, unless they share an array. */
  predicate InOrder(m: Mark, n: Mark) {
    m.key == n.key ==> m.start + m.extent <= n.start || SameArray(m, n)
  }

  ghost predicate Ordered(marks: seq<Mark>) {
    forall i, j :: 0 <= i < j < |marks| ==> InOrder(marks[i], marks[j])
  }

  /** The marks of one item, its fields between these bits. */
  ghost predicate Between(marks: seq<Mark>, key: Key, from: nat, to: nat) {
    forall i :: 0 <= i < |marks| ==>
      marks[i].key == key && from <= marks[i].start && marks[i].start + marks[i].extent <= to
  }

  /** A mark tells what the firmware stored: the start modulo 65536, the width modulo 256. */
  predicate Stored(m: Mark) {
    && m.def.bitpos == m.start % TWO16
    && (if m.def.isArray then m.def.size * m.def.count <= m.extent else m.def.size <= m.extent)
  }

  ghost predicate Within(marks: seq<Mark>, ends: map<Key, nat>) {
    forall i :: 0 <= i < |marks| ==> Stored(marks[i]) && marks[i].start + marks[i].extent <= End(ends, marks[i].key)
  }

  ghost predicate AllStored(marks: seq<Mark>) {
    forall i :: 0 <= i < |marks| ==> Stored(marks[i])
  }

  lemma OrderedSnoc(marks: seq<Mark>, m: Mark)
    requires Ordered(marks) && forall i :: 0 <= i < |marks| ==> InOrder(marks[i], m)
    ensures Ordered(marks + OneMark(m))
  {
  }

  lemma {:induction false} VariableMarksOrdered(r: Registers, key: Key, relative: bool, start: nat, n: nat)
    requires HasUsages(r)
    ensures var ms := VariableMarks(r, key, relative, start, n);
            Ordered(ms) && AllStored(ms) && Between(ms, key, start, FieldStart(start, r.reportSize, n))
    ensures start <= FieldStart(start, r.reportSize, n)
  {
    if n > 0 {
      VariableMarksOrdered(r, key, relative, start, n - 1);
      OrderedSnoc(VariableMarks(r, key, relative, start, n - 1), VariableMark(r, key, relative, start, n - 1));
    }
  }

  lemma ArrayMarkStored(r: Registers, key: Key, relative: bool, start: nat, usage: nat, index: int, maximum: nat)
    ensures Stored(ArrayMark(r, key, relative, start, usage, index, maximum))
  {
    var size := r.reportSize % 256;
    FieldStartIs(0, r.reportSize, r.reportCount);
    assert size <= r.reportSize;
    assert size * r.reportCount <= r.reportSize * r.reportCount;
  }

  /** All marks of one array. */
  ghost predicate OneArray(marks: seq<Mark>, key: Key, start: nat, extent: nat) {
    forall i :: 0 <= i < |marks| ==>
      && marks[i].key == key && marks[i].def.isArray && Stored(marks[i])
      && marks[i].start == start && marks[i].extent == extent
  }

  lemma {:induction false} ArrayMarksShare(r: Registers, key: Key, relative: bool, start: nat, n: nat)
    requires r.usages != []
    ensures OneArray(ArrayMarks(r, key, relative, start, n), key, start, FieldStart(0, r.reportSize, r.reportCount))
  {
    if n > 0 {
      ArrayMarksShare(r, key, relative, start, n - 1);
      ArrayMarkStored(r, key, relative, start, ValueAt(r.usages, n - 1), r.logicalMinimum + n - 1, 0);
    }
  }

  lemma MainMarksOrdered(r: Registers, it: Item, start: nat)
    ensures var ms := MainMarks(r, it, start);
            Ordered(ms) && AllStored(ms)
            && Between(ms, Key(KindOf(it.tag), r.reportId), start, start + r.reportSize * r.reportCount)
  {
    var key := Key(KindOf(it.tag), r.reportId);
    if IsVariable(r, it) {
      if HasUsages(r) {
        VariableMarksOrdered(r, key, Relative(it), start, r.reportCount);
        FieldStartIs(start, r.reportSize, r.reportCount);
      }
    } else if it.value % 4 == 0 {
      FieldStartIs(0, r.reportSize, r.reportCount);
      if r.hasMinimum && r.hasMaximum {
        ArrayMarkStored(r, key, Relative(it), start, r.usageMinimum, r.logicalMinimum, EffectiveMaximum(r));
      } else if r.usages != [] {
        ArrayMarksShare(r, key, Relative(it), start, IndexCount(r));
      }
    }
  }

  lemma OrderedAppend(a: seq<Mark>, b: seq<Mark>, key: Key, from: nat, to: nat)
    requires Ordered(a) && Ordered(b) && Between(b, key, from, to)
    requires forall i :: 0 <= i < |a| && a[i].key == key ==> a[i].start + a[i].extent <= from
    ensures Ordered(a + b)
  {
    forall i, j | 0 <= i < j < |a + b|
      ensures InOrder((a + b)[i], (a + b)[j])
    {
      if j < |a| {
        assert InOrder(a[i], a[j]);
      } else if i >= |a| {
        assert InOrder(b[i - |a|], b[j - |a|]);
      }
    }
  }

  lemma WithinAppend(a: seq<Mark>, b: seq<Mark>, ends: map<Key, nat>, key: Key, to: nat)
    requires Within(a, ends) && AllStored(b) && Between(b, key, End(ends, key), to) && to >= End(ends, key)
    ensures Within(a + b, ends[key := to])
  {
    forall i | 0 <= i < |a + b|
      ensures var m := (a + b)[i]; Stored(m) && m.start + m.extent <= End(ends[key := to], m.key)
    {
      if i < |a| {
        assert Stored(a[i]);
      } else {
        assert Stored(b[i - |a|]);
      }
    }
  }

  lemma BeforeTheEnd(marks: seq<Mark>, ends: map<Key, nat>, key: Key)
    requires Within(marks, ends)
    ensures forall i :: 0 <= i < |marks| && marks[i].key == key ==> marks[i].start + marks[i].extent <= End(ends, key)
  {
  }

  lemma NoFieldsNoMarks(r: Registers, it: Item, start: nat)
    requires NoFields(r, it)
    ensures MainMarks(r, it, start) == []
  {
  }

  lemma ConsumeOrdered(s: State, it: Item)
    requires Ordered(s.marks) && Within(s.marks, s.ends)
    ensures Ordered(Consume(s, it).marks) && Within(Consume(s, it).marks, Consume(s, it).ends)
  {
    hide MainMarks, InOrder, Stored;
    if IsMain(it.tag) {
      var key := MainKey(s.regs, it);
      var start := End(s.ends, key);
      var to := start + s.regs.reportSize * s.regs.reportCount;
      var marks := MainMarks(s.regs, it, start);
      MainMarksOrdered(s.regs, it, start);
      BeforeTheEnd(s.marks, s.ends, key);
      OrderedAppend(s.marks, marks, key, start, to);
      if NoFields(s.regs, it) {
        NoFieldsNoMarks(s.regs, it, start);
        assert s.marks + marks == s.marks;
      } else {
        WithinAppend(s.marks, marks, s.ends, key, to);
      }
    }
  }

  /** Marks follow one another in the order of their items, each within its report. */
  lemma {:induction false} ParseOrdered(items: seq<Item>)
    ensures Ordered(Parse(items).marks) && Within(Parse(items).marks, Parse(items).ends)
  {
    hide Consume;
    if items != [] {
      ParseOrdered(items[..|items| - 1]);
      ConsumeOrdered(Parse(items[..|items| - 1]), items[|items| - 1]);
    }
  }

  // ---- the usage maps -----------------------------------------------------------------------------------

  /** `try_emplace`: the first place a usage is given stays. */
  function Placed(layout: map<Key, map<nat, Def>>, m: Mark): map<Key, map<nat, Def>> {
    var usages := if m.key in layout then layout[m.key] else map[];
    layout[m.key := if m.usage in usages then usages else usages[m.usage := m.def]]
  }

  function Layout(marks: seq<Mark>): map<Key, map<nat, Def>> {
    if marks == [] then map[] else Placed(Layout(marks[..|marks| - 1]), marks[|marks| - 1])
  }

  predicate Has(layout: map<Key, map<nat, Def>>, key: Key, usage: nat) {
    key in layout && usage in layout[key]
  }

  /** Where the field of a placed usage really starts. */
  ghost function StartOf(marks: seq<Mark>, key: Key, usage: nat): nat
    requires Has(Layout(marks), key, usage)
  {
    var n := |marks| - 1;
    if Has(Layout(marks[..n]), key, usage) then StartOf(marks[..n], key, usage) else marks[n].start
  }

  /** A usage has the place of its first mark. */
  lemma {:induction false} FirstMark(marks: seq<Mark>, key: Key, usage: nat) returns (i: nat)
    requires Has(Layout(marks), key, usage)
    ensures i < |marks| && marks[i].key == key && marks[i].usage == usage && marks[i].def == Layout(marks)[key][usage]
    ensures marks[i].start == StartOf(marks, key, usage)
    ensures forall j :: 0 <= j < i ==> marks[j].key != key || marks[j].usage != usage
  {
    var n := |marks| - 1;
    if Has(Layout(marks[..n]), key, usage) {
      i := FirstMark(marks[..n], key, usage);
    } else {
      i := n;
      forall j | 0 <= j < n
        ensures marks[j].key != key || marks[j].usage != usage
      {
        if marks[j].key == key && marks[j].usage == usage {
          MarkedIsPlaced(marks[..n], j);
        }
      }
    }
  }

  lemma {:induction false} MarkedIsPlaced(marks: seq<Mark>, i: nat)
    requires i < |marks|
    ensures Has(Layout(marks), marks[i].key, marks[i].usage)
  {
    if i < |marks| - 1 {
      MarkedIsPlaced(marks[..|marks| - 1], i);
    }
  }

  /** The bits a definition covers. */
  function Width(d: Def): nat {
    if d.isArray then d.size * d.count else d.size
  }

  predicate Apart(d: Def, e: Def) {
    ReportBits.Disjoint(d.bitpos, Width(d), e.bitpos, Width(e)) || (d.isArray && e.isArray && d.bitpos == e.bitpos)
  }

  /** What a mark of a parsed descriptor tells. */
  lemma MarkIsStored(items: seq<Item>, i: nat)
    requires i < |Parse(items).marks|
    ensures var m := Parse(items).marks[i]; Stored(m) && m.start + m.extent <= TotalBits(items, m.key)
  {
    ParseOrdered(items);
    EndIsTotal(items, Parse(items).marks[i].key);
  }

  lemma MarksAreInOrder(items: seq<Item>, i: nat, j: nat)
    requires i < j < |Parse(items).marks|
    ensures InOrder(Parse(items).marks[i], Parse(items).marks[j])
  {
    ParseOrdered(items);
  }

  lemma StoredExactly(m: Mark)
    requires Stored(m) && m.start < TWO16
    ensures m.def.bitpos == m.start && Width(m.def) <= m.extent
  {
  }

  lemma ApartInOrder(m: Mark, n: Mark)
    requires Stored(m) && Stored(n) && m.key == n.key && InOrder(m, n) && m.start < TWO16 && n.start < TWO16
    ensures Apart(m.def, n.def) && Apart(n.def, m.def)
    ensures !m.def.isArray ==> m.def.bitpos + m.def.size <= n.def.bitpos
  {
    StoredExactly(m);
    StoredExactly(n);
  }

  lemma StoredModulo(m: Mark)
    requires Stored(m)
    ensures m.def.bitpos == m.start <==> m.start < TWO16
  {
  }

  /** A usage's place is where its field really starts exactly when that is within the first 65536 bits. */
  lemma PlacedExactly(items: seq<Item>, key: Key, u: nat)
    requires Has(Layout(Parse(items).marks), key, u)
    ensures var marks := Parse(items).marks;
            Layout(marks)[key][u].bitpos == StartOf(marks, key, u) <==> StartOf(marks, key, u) < TWO16
  {
    hide Parse, Layout, Stored, StartOf;
    var marks := Parse(items).marks;
    var i := FirstMark(marks, key, u);
    MarkIsStored(items, i);
    StoredModulo(marks[i]);
  }

  /** The places of two usages do not overlap, unless they share an array, when both fields start there. */
  lemma PlacedFieldsAreApart(items: seq<Item>, key: Key, u: nat, v: nat)
    requires u != v
    requires var marks := Parse(items).marks;
             && Has(Layout(marks), key, u) && Has(Layout(marks), key, v)
             && StartOf(marks, key, u) < TWO16 && StartOf(marks, key, v) < TWO16
    ensures var usages := Layout(Parse(items).marks)[key]; Apart(usages[u], usages[v])
  {
    hide Parse, Layout, Stored, StartOf, InOrder, Apart;
    var marks := Parse(items).marks;
    var i := FirstMark(marks, key, u);
    var j := FirstMark(marks, key, v);
    MarkIsStored(items, i);
    MarkIsStored(items, j);
    if i < j {
      MarksAreInOrder(items, i, j);
      ApartInOrder(marks[i], marks[j]);
    } else {
      MarksAreInOrder(items, j, i);
      ApartInOrder(marks[j], marks[i]);
    }
  }

  /** So in a report of less than 65536 bits no two usages overlap, unless they share an array. */
  lemma FieldsAreApart(items: seq<Item>, key: Key, u: nat, v: nat)
    requires TotalBits(items, key) < TWO16 && u != v
    requires var layout := Layout(Parse(items).marks); Has(layout, key, u) && Has(layout, key, v)
    ensures var usages := Layout(Parse(items).marks)[key]; Apart(usages[u], usages[v])
  {
    hide Parse, Layout, Stored, StartOf;
    var marks := Parse(items).marks;
    var i := FirstMark(marks, key, u);
    var j := FirstMark(marks, key, v);
    MarkIsStored(items, i);
    MarkIsStored(items, j);
    PlacedFieldsAreApart(items, key, u, v);
  }

  /** Of two usages within the first 65536 bits, a variable one declared first lies lower. */
  lemma DeclarationOrder(items: seq<Item>, i: nat, j: nat)
    requires var marks := Parse(items).marks; i < j < |marks| && marks[i].key == marks[j].key && !marks[i].def.isArray
    requires Parse(items).marks[j].start < TWO16
    ensures var marks := Parse(items).marks; marks[i].def.bitpos + marks[i].def.size <= marks[j].def.bitpos
  {
    MarkIsStored(items, i);
    MarkIsStored(items, j);
    MarksAreInOrder(items, i, j);
    ApartInOrder(Parse(items).marks[i], Parse(items).marks[j]);
  }

  /** Every field lies inside its report's bytes, when the report is made of whole bytes, and starts inside the 64
      bytes the firmware handles. */
  lemma FieldsAreInside(items: seq<Item>, key: Key, u: nat)
    requires TotalBits(items, key) < TWO16 && TotalBits(items, key) % 8 == 0
    requires Has(Layout(Parse(items).marks), key, u)
    ensures var d := Layout(Parse(items).marks)[key][u];
            d.bitpos + Width(d) <= 8 * (TotalBits(items, key) / 8) && d.bitpos < Limit(key.id)
  {
    var i := FirstMark(Parse(items).marks, key, u);
    MarkIsStored(items, i);
    StoredExactly(Parse(items).marks[i]);
    MarksAreKept(items, i);
  }

  lemma {:induction false} VariableMarksKept(r: Registers, key: Key, relative: bool, start: nat, n: nat)
    requires HasUsages(r)
    ensures forall m :: m in VariableMarks(r, key, relative, start, n) ==> Kept(m)
  {
    if n > 0 {
      VariableMarksKept(r, key, relative, start, n - 1);
    }
  }

  lemma {:induction false} ArrayMarksKept(r: Registers, key: Key, relative: bool, start: nat, n: nat)
    requires r.usages != []
    ensures forall m :: m in ArrayMarks(r, key, relative, start, n) ==> Kept(m)
  {
    if n > 0 {
      ArrayMarksKept(r, key, relative, start, n - 1);
    }
  }

  lemma {:induction false} MarksAreKept(items: seq<Item>, i: nat)
    requires i < |Parse(items).marks|
    ensures Kept(Parse(items).marks[i])
  {
    var s, it := Parse(items[..|items| - 1]), items[|items| - 1];
    if i < |s.marks| {
      MarksAreKept(items[..|items| - 1], i);
    } else {
      var key := Key(KindOf(it.tag), s.regs.reportId);
      var start := End(s.ends, key);
      assert Parse(items).marks[i] in MainMarks(s.regs, it, start);
      if IsVariable(s.regs, it) {
        VariableMarksKept(s.regs, key, Relative(it), start, s.regs.reportCount);
      } else if s.regs.usages != [] {
        ArrayMarksKept(s.regs, key, Relative(it), start, IndexCount(s.regs));
      }
    }
  }
}
