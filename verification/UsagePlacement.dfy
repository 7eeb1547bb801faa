/** Which usage a field belongs to, and what is kept of it: from the items of a report descriptor alone, by the item
    tags of USB HID 1.11, section 6.2.2. */
module UsagePlacement {
  import opened Bytes
  import opened DescriptorLayout

  // ---- what the items before a main item say ------------------------------------------------------------

  /** Main items and collections use the local items up. */
  predicate EndsLocals(it: Item) {
    it.tag in {0x80, 0x90, 0xB0, 0xA0}
  }

  /** A usage of one or two bytes is on the page given last; one of four bytes names its page. */
  function Named(before: seq<Item>, it: Item): nat {
    if it.size <= 2 then (LastValue(before, 0x04) * 0x1_0000 + it.value) % 0x1_0000_0000 else it.value
  }

  /** The usages listed since the last main item or collection. */
  function Listed(items: seq<Item>): seq<nat> {
    if items == [] then [] else
      var before, it := items[..|items| - 1], items[|items| - 1];
      if EndsLocals(it) then [] else Listed(before) + if it.tag == 0x08 then [Named(before, it)] else []
  }

  datatype Bound = Absent | At(usage: nat)

  /** The end of a usage range, 0x18 for the lower one and 0x28 for the upper, if given since then. */
  function RangeEnd(items: seq<Item>, tag: nat): Bound {
    if items == [] then Absent else
      var before, it := items[..|items| - 1], items[|items| - 1];
      if EndsLocals(it) then Absent
      else if it.tag == tag then At(Named(before, it))
      else RangeEnd(before, tag)
  }

  /** The last item of this kind, its bytes read as a signed number. */
  function LastSigned(items: seq<Item>, tag: nat): int {
    if items == [] then 0 else
      var it := items[|items| - 1];
      if it.tag != tag then LastSigned(items[..|items| - 1], tag)
      else if it.size == 1 && it.value >= 0x80 then it.value - 0x100
      else if it.size == 2 && it.value >= 0x8000 then it.value - 0x1_0000
      else if it.size == 4 && it.value >= 0x8000_0000 then it.value - 0x1_0000_0000
      else it.value
  }

  /** The last logical maximum, its bytes read as an unsigned number that is kept in an `int32_t`. */
  function UnsignedMaximum(items: seq<Item>): int {
    var v := LastValue(items, 0x24);
    if v < 0x8000_0000 then v else v - 0x1_0000_0000
  }

  ghost predicate TellsLocals(r: Registers, items: seq<Item>) {
    && r.usages == Listed(items)
    && (if r.hasMinimum then RangeEnd(items, 0x18) == At(r.usageMinimum) else RangeEnd(items, 0x18) == Absent)
    && (if r.hasMaximum then RangeEnd(items, 0x28) == At(r.usageMaximum) else RangeEnd(items, 0x28) == Absent)
  }

  ghost predicate TellsGlobals(r: Registers, items: seq<Item>) {
    && r.usagePage == LastValue(items, 0x04)
    && r.reportSize == LastValue(items, 0x74) && r.reportCount == LastValue(items, 0x94)
    && r.reportId == LastValue(items, 0x84) % 256
    && r.logicalMinimum == LastSigned(items, 0x14) && r.logicalMaximum == LastSigned(items, 0x24)
    && r.unsignedMaximum == UnsignedMaximum(items)
  }

  lemma {:induction false} GlobalsTell(items: seq<Item>)
    ensures TellsGlobals(Parse(items).regs, items)
  {
    hide MainMarks, MainEnds;
    if items != [] {
      GlobalsTell(items[..|items| - 1]);
    }
  }

  lemma {:induction false} LocalsTell(items: seq<Item>)
    ensures TellsLocals(Parse(items).regs, items)
  {
    hide MainMarks, MainEnds, LastSigned, UnsignedMaximum, SignedValue;
    if items != [] {
      LocalsTell(items[..|items| - 1]);
      GlobalsTell(items[..|items| - 1]);
    }
  }

  /** The parser's registers hold what these items say. */
  lemma RegistersTell(items: seq<Item>)
    ensures TellsLocals(Parse(items).regs, items) && TellsGlobals(Parse(items).regs, items)
  {
    LocalsTell(items);
    GlobalsTell(items);
  }

  // ---- one more mark --------------------------------------------------------------------------------------

  type Places = map<Key, map<nat, Def>>

  /** The usage has no place, or this one. */
  predicate Place(layout: Places, key: Key, usage: nat, place: Def) {
    Has(layout, key, usage) && layout[key][usage] == place
  }

  /** A field within the first 64 bytes, the report id included, gives its usage a place that has none; nothing else
      changes. */
  lemma PlacedOne(marks: seq<Mark>, m: Mark, key: Key, usage: nat)
    ensures var before, after := Layout(marks), Layout(marks + OneMark(m));
            if Kept(m) && m.key == key && m.usage == usage && !Has(before, key, usage)
            then Place(after, key, usage, m.def)
            else (Has(after, key, usage) <==> Has(before, key, usage))
                 && (Has(before, key, usage) ==> Place(after, key, usage, before[key][usage]))
  {
    assert (marks + [m])[..|marks|] == marks;
    assert marks + [] == marks;
  }

  lemma OneMore(before: seq<Mark>, marks: seq<Mark>, m: Mark)
    ensures before + (marks + OneMark(m)) == before + marks + OneMark(m)
  {
  }

  // ---- variable items ---------------------------------------------------------------------------------------

  /** What is kept of field number i, given the item's registers. */
  function FieldDef(r: Registers, relative: bool, start: nat, i: nat): Def {
    Def(r.reportSize % 256, (start + r.reportSize * i) % 0x1_0000, relative, false, r.logicalMinimum, r.logicalMaximum,
        0, 0, 0)
  }

  predicate Near(position: nat, id: nat) {
    position % 0x1_0000 < 8 * (if id == 0 then 64 else 63)
  }

  /** Field number i is the first with this usage, and the usage has it as its place once n fields are passed, unless
      it had one; a field too far on gives none. */
  ghost predicate FieldGiven(before: Places, after: Places, key: Key, usage: nat, place: Def, given: bool) {
    if Has(before, key, usage) then Place(after, key, usage, before[key][usage])
    else if given then Place(after, key, usage, place)
    else !Has(after, key, usage)
  }

  lemma MarkOfField(r: Registers, key: Key, relative: bool, start: nat, i: nat)
    requires HasUsages(r)
    ensures var m := VariableMark(r, key, relative, start, i);
            && m.key == key && m.usage == UsageOf(r, i) && m.def == FieldDef(r, relative, start, i)
            && (Kept(m) <==> Near(start + r.reportSize * i, key.id))
  {
    FieldStartIs(start, r.reportSize, i);
  }

  /** Before its field a usage that no earlier field has is as it was. */
  lemma {:induction false} NotYet(before: seq<Mark>, r: Registers, key: Key, relative: bool, start: nat, n: nat,
                                  k: Key, usage: nat)
    requires HasUsages(r) && (k == key ==> forall j :: 0 <= j < n ==> UsageOf(r, j) != usage)
    ensures FieldGiven(Layout(before), Layout(before + VariableMarks(r, key, relative, start, n)), k, usage,
                       FieldDef(r, relative, start, n), false)
  {
    hide Layout, UsageOf, FieldDef;
    if n == 0 {
      assert before + [] == before;
    } else {
      var marks, m := VariableMarks(r, key, relative, start, n - 1), VariableMark(r, key, relative, start, n - 1);
      NotYet(before, r, key, relative, start, n - 1, k, usage);
      MarkOfField(r, key, relative, start, n - 1);
      PlacedOne(before + marks, m, k, usage);
      OneMore(before, marks, m);
    }
  }

  /** From its field on, the first with this usage, it has that place - and if that is too far on, none as long as no
      later field has the usage. */
  lemma {:induction false} GivenAt(before: seq<Mark>, r: Registers, key: Key, relative: bool, start: nat, n: nat,
                                   i: nat)
    requires HasUsages(r) && i < n && forall j :: 0 <= j < i ==> UsageOf(r, j) != UsageOf(r, i)
    requires Near(start + r.reportSize * i, key.id) || forall j :: i < j < n ==> UsageOf(r, j) != UsageOf(r, i)
    ensures FieldGiven(Layout(before), Layout(before + VariableMarks(r, key, relative, start, n)), key, UsageOf(r, i),
                       FieldDef(r, relative, start, i), Near(start + r.reportSize * i, key.id))
  {
    hide Layout, UsageOf, FieldDef, Near;
    var marks, m := VariableMarks(r, key, relative, start, n - 1), VariableMark(r, key, relative, start, n - 1);
    if i < n - 1 {
      GivenAt(before, r, key, relative, start, n - 1, i);
    } else {
      NotYet(before, r, key, relative, start, n - 1, key, UsageOf(r, i));
    }
    MarkOfField(r, key, relative, start, n - 1);
    PlacedOne(before + marks, m, key, UsageOf(r, i));
    OneMore(before, marks, m);
  }

  // ---- arrays -------------------------------------------------------------------------------------------------

  function IndexDef(r: Registers, relative: bool, start: nat, index: int, maximum: nat): Def {
    Def(r.reportSize % 256, start % 0x1_0000, relative, true, r.logicalMinimum, r.unsignedMaximum, index, r.reportCount,
        maximum)
  }

  lemma MarkOfArray(r: Registers, key: Key, relative: bool, start: nat, usage: nat, index: int, maximum: nat)
    ensures var m := ArrayMark(r, key, relative, start, usage, index, maximum);
            && m.key == key && m.usage == usage && m.def == IndexDef(r, relative, start, index, maximum)
            && (Kept(m) <==> Near(start, key.id))
  {
  }

  lemma {:induction false} NoIndexYet(before: seq<Mark>, r: Registers, key: Key, relative: bool, start: nat, n: nat,
                                      k: Key, usage: nat)
    requires r.usages != [] && (k == key ==> forall j :: 0 <= j < n ==> ValueAt(r.usages, j) != usage)
    ensures FieldGiven(Layout(before), Layout(before + ArrayMarks(r, key, relative, start, n)), k, usage,
                       IndexDef(r, relative, start, 0, 0), false)
  {
    hide Layout, ValueAt, IndexDef, Near;
    if n == 0 {
      assert before + [] == before;
    } else {
      var marks, index := ArrayMarks(r, key, relative, start, n - 1), r.logicalMinimum + n - 1;
      var m := ArrayMark(r, key, relative, start, ValueAt(r.usages, n - 1), index, 0);
      NoIndexYet(before, r, key, relative, start, n - 1, k, usage);
      MarkOfArray(r, key, relative, start, ValueAt(r.usages, n - 1), index, 0);
      PlacedOne(before + marks, m, k, usage);
      OneMore(before, marks, m);
    }
  }

  lemma {:induction false} IndexGivenAt(before: seq<Mark>, r: Registers, key: Key, relative: bool, start: nat, n: nat,
                                        i: nat)
    requires r.usages != [] && i < n && forall j :: 0 <= j < i ==> ValueAt(r.usages, j) != ValueAt(r.usages, i)
    ensures FieldGiven(Layout(before), Layout(before + ArrayMarks(r, key, relative, start, n)), key,
                       ValueAt(r.usages, i), IndexDef(r, relative, start, r.logicalMinimum + i, 0), Near(start, key.id))
  {
    hide Layout, ValueAt, IndexDef, Near;
    var marks, index := ArrayMarks(r, key, relative, start, n - 1), r.logicalMinimum + n - 1;
    var m := ArrayMark(r, key, relative, start, ValueAt(r.usages, n - 1), index, 0);
    if i < n - 1 {
      IndexGivenAt(before, r, key, relative, start, n - 1, i);
    } else {
      NoIndexYet(before, r, key, relative, start, n - 1, key, ValueAt(r.usages, i));
    }
    MarkOfArray(r, key, relative, start, ValueAt(r.usages, n - 1), index, 0);
    PlacedOne(before + marks, m, key, ValueAt(r.usages, i));
    OneMore(before, marks, m);
  }

  // ---- one main item, from the items before it --------------------------------------------------------------------

  predicate IsMainItem(it: Item) {
    it.tag in {0x80, 0x90, 0xB0}
  }

  /** Its report: input, output or feature, with the report id given last. */
  function ReportOf(items: seq<Item>, it: Item): Key {
    Key(if it.tag == 0x90 then Output else if it.tag == 0xB0 then Feature else Input, LastValue(items, 0x84) % 256)
  }

  /** How far its report reached before it. */
  function StartOfItem(items: seq<Item>, it: Item): nat {
    TotalBits(items, ReportOf(items, it))
  }

  predicate HasRange(items: seq<Item>) {
    RangeEnd(items, 0x18).At? && RangeEnd(items, 0x28).At?
  }

  /** One bit per usage, declared as an array of so many one-bit elements. */
  predicate ArrayOfBits(items: seq<Item>, it: Item) {
    && it.tag == 0x80 && it.value % 4 == 0 && HasRange(items)
    && LastValue(items, 0x74) == 1 && LastSigned(items, 0x14) == 0 && UnsignedMaximum(items) == 1
    && LastValue(items, 0x94) == RangeEnd(items, 0x28).usage - RangeEnd(items, 0x18).usage + 1
    && LastValue(items, 0x94) > 2
  }

  /** Data, variable; or meant to be. */
  predicate IsScalar(items: seq<Item>, it: Item) {
    it.value % 4 == 2 || ArrayOfBits(items, it)
  }

  function PlacesAfter(items: seq<Item>): Places {
    Layout(Parse(items).marks)
  }

  /** Bits of one field of a variable item: its size is kept in a byte, its position in two, the third bit of the item
      makes it relative, and both ends of its logical range are signed. */
  function ScalarDef(items: seq<Item>, it: Item, position: nat): Def {
    Def(LastValue(items, 0x74) % 256, position % 0x1_0000, it.value / 4 % 2 == 1, false,
        LastSigned(items, 0x14), LastSigned(items, 0x24), 0, 0, 0)
  }

  lemma ItemPlaces(items: seq<Item>, it: Item)
    requires IsMainItem(it)
    ensures var r := Parse(items).regs;
            PlacesAfter(items + [it]) == Layout(Parse(items).marks + MainMarks(r, it, StartOfItem(items, it)))
    ensures ReportOf(items, it) == Key(KindOf(it.tag), Parse(items).regs.reportId)
    ensures IsScalar(items, it) <==> IsVariable(Parse(items).regs, it)
  {
    hide MainMarks, Layout;
    ParseSnoc(items, it);
    RegistersTell(items);
    EndIsTotal(items, ReportOf(items, it));
  }

  lemma ScalarPlaces(items: seq<Item>, it: Item)
    requires IsMainItem(it) && IsScalar(items, it) && (HasRange(items) || Listed(items) != [])
    ensures var r, key := Parse(items).regs, ReportOf(items, it);
            && HasUsages(r)
            && PlacesAfter(items + [it])
               == Layout(Parse(items).marks
                         + VariableMarks(r, key, Relative(it), StartOfItem(items, it), r.reportCount))
            && (forall i: nat {:trigger FieldDef(r, Relative(it), StartOfItem(items, it), i)} ::
                  FieldDef(r, Relative(it), StartOfItem(items, it), i)
                  == ScalarDef(items, it, StartOfItem(items, it) + LastValue(items, 0x74) * i))
  {
    hide Layout, Parse, MainEnds, VariableMarks;
    ItemPlaces(items, it);
    RegistersTell(items);
    hide StartOfItem, ReportOf, Listed;
  }

  lemma FieldOfRange(marks: seq<Mark>, r: Registers, key: Key, relative: bool, start: nat, i: nat)
    requires r.hasMinimum && r.hasMaximum && i < r.reportCount && (i == 0 || r.usageMinimum + i <= r.usageMaximum)
    requires Near(start + r.reportSize * i, key.id) || r.usageMinimum + i < r.usageMaximum
    ensures FieldGiven(Layout(marks), Layout(marks + VariableMarks(r, key, relative, start, r.reportCount)), key,
                       r.usageMinimum + i, FieldDef(r, relative, start, i), Near(start + r.reportSize * i, key.id))
  {
    hide Layout, VariableMarks, FieldGiven, FieldDef, Near;
    GivenAt(marks, r, key, relative, start, r.reportCount, i);
  }

  lemma FieldOfList(marks: seq<Mark>, r: Registers, key: Key, relative: bool, start: nat, i: nat)
    requires !(r.hasMinimum && r.hasMaximum) && i < r.reportCount && i < |r.usages|
    requires forall j :: 0 <= j < i ==> r.usages[j] != r.usages[i]
    requires Near(start + r.reportSize * i, key.id) ||
             (i + 1 < |r.usages| && forall j :: i < j < |r.usages| ==> r.usages[j] != r.usages[i])
    ensures FieldGiven(Layout(marks), Layout(marks + VariableMarks(r, key, relative, start, r.reportCount)), key,
                       r.usages[i], FieldDef(r, relative, start, i), Near(start + r.reportSize * i, key.id))
  {
    hide Layout, VariableMarks, FieldGiven, FieldDef, Near;
    GivenAt(marks, r, key, relative, start, r.reportCount, i);
  }

  /** A variable item with a usage range gives its field number i the usage that far above the minimum, up to the
      maximum, i field sizes behind its start; unless the usage had a place already, which it keeps, or the field
      starts beyond the first 64 bytes. */
  lemma RangeField(items: seq<Item>, it: Item, i: nat)
    requires IsMainItem(it) && IsScalar(items, it) && HasRange(items) && i < LastValue(items, 0x94)
    requires i == 0 || RangeEnd(items, 0x18).usage + i <= RangeEnd(items, 0x28).usage
    ensures var key, usage := ReportOf(items, it), RangeEnd(items, 0x18).usage + i;
            var position := StartOfItem(items, it) + LastValue(items, 0x74) * i;
            Near(position, key.id) || usage < RangeEnd(items, 0x28).usage ==>
              FieldGiven(PlacesAfter(items), PlacesAfter(items + [it]), key, usage, ScalarDef(items, it, position),
                         Near(position, key.id))
  {
    hide Layout, Parse, VariableMarks, StartOfItem, Near, ReportOf, Listed, FieldDef, ScalarDef, FieldGiven;
    var r, key, start := Parse(items).regs, ReportOf(items, it), StartOfItem(items, it);
    ScalarPlaces(items, it);
    RegistersTell(items);
    if Near(start + r.reportSize * i, key.id) || r.usageMinimum + i < r.usageMaximum {
      FieldOfRange(Parse(items).marks, r, key, Relative(it), start, i);
    }
  }

  /** One with a list of usages gives field number i the usage listed i-th since the last main item or collection, if
      it was not listed before. */
  lemma ListField(items: seq<Item>, it: Item, i: nat)
    requires IsMainItem(it) && IsScalar(items, it) && !HasRange(items) && i < LastValue(items, 0x94)
    requires i < |Listed(items)| && forall j :: 0 <= j < i ==> Listed(items)[j] != Listed(items)[i]
    ensures var key, usages := ReportOf(items, it), Listed(items);
            var position := StartOfItem(items, it) + LastValue(items, 0x74) * i;
            Near(position, key.id) ||
            (i + 1 < |usages| && forall j :: i < j < |usages| ==> usages[j] != usages[i]) ==>
              FieldGiven(PlacesAfter(items), PlacesAfter(items + [it]), key, usages[i], ScalarDef(items, it, position),
                         Near(position, key.id))
  {
    hide Layout, Parse, VariableMarks, StartOfItem, Near, ReportOf, Listed, FieldDef, ScalarDef, FieldGiven;
    var r, key, start := Parse(items).regs, ReportOf(items, it), StartOfItem(items, it);
    ScalarPlaces(items, it);
    RegistersTell(items);
    if Near(start + r.reportSize * i, key.id) ||
       (i + 1 < |r.usages| && forall j :: i < j < |r.usages| ==> r.usages[j] != r.usages[i]) {
      FieldOfList(Parse(items).marks, r, key, Relative(it), start, i);
    }
  }

  /** What is kept of an array's usage: the array's bits, the logical range with an unsigned maximum, the index that
      stands for the usage, how many elements there are, and how far a range reaches. */
  function IndexedDef(items: seq<Item>, it: Item, index: int, maximum: nat): Def {
    Def(LastValue(items, 0x74) % 256, StartOfItem(items, it) % 0x1_0000, it.value / 4 % 2 == 1, true,
        LastSigned(items, 0x14), UnsignedMaximum(items), index, LastValue(items, 0x94), maximum)
  }

  /** An array with a usage range places its lowest usage, which stands for the range. */
  lemma ArrayRange(items: seq<Item>, it: Item)
    requires IsMainItem(it) && it.value % 4 == 0 && !IsScalar(items, it) && HasRange(items)
    ensures var key, low, high := ReportOf(items, it), RangeEnd(items, 0x18).usage, RangeEnd(items, 0x28).usage;
            var reach := (low + UnsignedMaximum(items) - LastSigned(items, 0x14)) % 0x1_0000_0000;
            FieldGiven(PlacesAfter(items), PlacesAfter(items + [it]), key, low,
                       IndexedDef(items, it, LastSigned(items, 0x14), if high < reach then high else reach),
                       Near(StartOfItem(items, it), key.id))
  {
    hide Layout, Parse, MainEnds;
    var marks, r, key, start := Parse(items).marks, Parse(items).regs, ReportOf(items, it), StartOfItem(items, it);
    ItemPlaces(items, it);
    RegistersTell(items);
    hide StartOfItem, Near, ReportOf, Listed;
    var m := ArrayMark(r, key, Relative(it), start, r.usageMinimum, r.logicalMinimum, EffectiveMaximum(r));
    MarkOfArray(r, key, Relative(it), start, r.usageMinimum, r.logicalMinimum, EffectiveMaximum(r));
    PlacedOne(marks, m, key, r.usageMinimum);
  }

  /** One with a list places each of its usages, the i-th for the index that far above the logical minimum. */
  lemma ArrayList(items: seq<Item>, it: Item, i: nat)
    requires IsMainItem(it) && it.value % 4 == 0 && !IsScalar(items, it) && !HasRange(items)
    requires i < |Listed(items)| && forall j :: 0 <= j < i ==> Listed(items)[j] != Listed(items)[i]
    requires LastSigned(items, 0x14) + i <= UnsignedMaximum(items)
    ensures var key := ReportOf(items, it);
            FieldGiven(PlacesAfter(items), PlacesAfter(items + [it]), key, Listed(items)[i],
                       IndexedDef(items, it, LastSigned(items, 0x14) + i, 0), Near(StartOfItem(items, it), key.id))
  {
    hide Layout, Parse, MainEnds;
    var marks, r, key, start := Parse(items).marks, Parse(items).regs, ReportOf(items, it), StartOfItem(items, it);
    ItemPlaces(items, it);
    RegistersTell(items);
    hide StartOfItem, Near, ReportOf, Listed;
    IndexGivenAt(marks, r, key, Relative(it), start, IndexCount(r), i);
  }

  /** What a main item may give a place: usages of its report, its own. */
  predicate Names(items: seq<Item>, it: Item, key: Key, usage: nat) {
    && IsMainItem(it) && key == ReportOf(items, it) && (it.value % 4 == 0 || it.value % 4 == 2)
    && if HasRange(items) then
         var low, high := RangeEnd(items, 0x18).usage, RangeEnd(items, 0x28).usage;
         usage == low || (IsScalar(items, it) && low <= usage <= high)
       else usage in Listed(items)
  }

  predicate Unchanged(before: Places, after: Places, key: Key, usage: nat) {
    && (Has(after, key, usage) <==> Has(before, key, usage))
    && (Has(before, key, usage) ==> after[key][usage] == before[key][usage])
  }

  lemma UsagesInList(r: Registers, usage: nat)
    requires !(r.hasMinimum && r.hasMaximum) && r.usages != [] && usage !in r.usages
    ensures forall j: nat :: UsageOf(r, j) != usage && ValueAt(r.usages, j) != usage
  {
  }

  lemma UsagesInRange(r: Registers, usage: nat)
    requires r.hasMinimum && r.hasMaximum && usage != r.usageMinimum && !(r.usageMinimum <= usage <= r.usageMaximum)
    ensures forall j: nat :: UsageOf(r, j) != usage
  {
  }

  lemma VariableElsewhere(marks: seq<Mark>, r: Registers, key: Key, relative: bool, start: nat, k: Key, usage: nat)
    requires HasUsages(r)
    requires k != key || (if r.hasMinimum && r.hasMaximum
                          then usage != r.usageMinimum && !(r.usageMinimum <= usage <= r.usageMaximum)
                          else usage !in r.usages)
    ensures Unchanged(Layout(marks), Layout(marks + VariableMarks(r, key, relative, start, r.reportCount)), k, usage)
  {
    hide Layout, VariableMarks, UsageOf;
    if k == key {
      if r.hasMinimum && r.hasMaximum {
        UsagesInRange(r, usage);
      } else {
        UsagesInList(r, usage);
      }
    }
    NotYet(marks, r, key, relative, start, r.reportCount, k, usage);
  }

  lemma ArrayElsewhere(marks: seq<Mark>, r: Registers, key: Key, relative: bool, start: nat, k: Key, usage: nat)
    requires r.usages != [] && !(r.hasMinimum && r.hasMaximum) && (k != key || usage !in r.usages)
    ensures Unchanged(Layout(marks), Layout(marks + ArrayMarks(r, key, relative, start, IndexCount(r))), k, usage)
  {
    hide Layout, ArrayMarks, ValueAt, IndexCount;
    if k == key {
      UsagesInList(r, usage);
    }
    NoIndexYet(marks, r, key, relative, start, IndexCount(r), k, usage);
  }

  lemma MainElsewhere(marks: seq<Mark>, r: Registers, it: Item, start: nat, k: Key, usage: nat)
    requires k != Key(KindOf(it.tag), r.reportId) || !(it.value % 4 == 0 || it.value % 4 == 2) ||
             (if r.hasMinimum && r.hasMaximum
              then usage != r.usageMinimum && !(IsVariable(r, it) && r.usageMinimum <= usage <= r.usageMaximum)
              else usage !in r.usages)
    ensures Unchanged(Layout(marks), Layout(marks + MainMarks(r, it, start)), k, usage)
  {
    hide Layout, VariableMarks, ArrayMarks, EffectiveMaximum, IndexCount;
    var key := Key(KindOf(it.tag), r.reportId);
    assert marks + [] == marks;
    if IsVariable(r, it) {
      if HasUsages(r) {
        VariableElsewhere(marks, r, key, Relative(it), start, k, usage);
      }
    } else if it.value % 4 == 0 {
      if r.hasMinimum && r.hasMaximum {
        var m := ArrayMark(r, key, Relative(it), start, r.usageMinimum, r.logicalMinimum, EffectiveMaximum(r));
        PlacedOne(marks, m, k, usage);
      } else if r.usages != [] {
        ArrayElsewhere(marks, r, key, Relative(it), start, k, usage);
      }
    }
  }

  /** No item gives or changes any other place. */
  lemma NothingElse(items: seq<Item>, it: Item, key: Key, usage: nat)
    requires !Names(items, it, key, usage)
    ensures Unchanged(PlacesAfter(items), PlacesAfter(items + [it]), key, usage)
  {
    hide Layout, MainMarks, MainEnds, SetRegister;
    if IsMainItem(it) {
      ItemPlaces(items, it);
      RegistersTell(items);
      MainElsewhere(Parse(items).marks, Parse(items).regs, it, StartOfItem(items, it), key, usage);
    } else {
      ParseSnoc(items, it);
    }
  }
}
