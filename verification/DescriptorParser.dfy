/** The parser's loop over a report descriptor, with its registers, its sixteen-bit cursors and its usage maps. */
module DescriptorParser {
  import opened Bytes
  import opened DescriptorLayout
  import opened Sequences

  function Cursor(bitpos: map<Key, nat>, key: Key): nat {
    if key in bitpos then bitpos[key] else 0
  }

  /** The sixteen bits of each report's length that the firmware keeps. */
  function Wrapped(ends: map<Key, nat>): map<Key, nat> {
    map k | k in ends :: ends[k] % TWO16
  }

  lemma WrappedSet(ends: map<Key, nat>, key: Key, end: nat)
    ensures Wrapped(ends[key := end]) == Wrapped(ends)[key := end % TWO16]
    ensures Cursor(Wrapped(ends), key) == End(ends, key) % TWO16
  {
  }

  lemma AddWraps(a: nat, b: nat, size: nat)
    requires a == b % TWO16
    ensures (a + size) % TWO16 == (b + size) % TWO16
  {
    assert a + size == b + size - b / TWO16 * TWO16;
    WrapAgain(b + size, b / TWO16);
  }

  lemma WrapAgain(x: int, laps: nat)
    ensures (x - laps * TWO16) % TWO16 == x % TWO16
    decreases laps
  {
    if laps > 0 {
      WrapAgain(x, laps - 1);
    }
  }

  /** How far a report reaches after i fields. */
  function Reached(ends: map<Key, nat>, key: Key, size: nat, i: nat): map<Key, nat> {
    if i == 0 then ends else ends[key := FieldStart(End(ends, key), size, i)]
  }

  lemma ReachedNext(ends: map<Key, nat>, key: Key, size: nat, i: nat)
    ensures End(Reached(ends, key, size, i), key) == FieldStart(End(ends, key), size, i)
    ensures Reached(ends, key, size, i)[key := FieldStart(End(ends, key), size, i + 1)]
            == Reached(ends, key, size, i + 1)
  {
  }

  lemma VariableMarksNext(before: seq<Mark>, r: Registers, key: Key, relative: bool, start: nat, n: nat)
    requires HasUsages(r)
    ensures (before + VariableMarks(r, key, relative, start, n)) + OneMark(VariableMark(r, key, relative, start, n))
         == before + VariableMarks(r, key, relative, start, n + 1)
  {
  }

  lemma ArrayMarksNext(before: seq<Mark>, r: Registers, key: Key, relative: bool, start: nat, n: nat, usage: nat,
                       index: int)
    requires r.usages != [] && usage == ValueAt(r.usages, n) && index == r.logicalMinimum + n
    ensures (before + ArrayMarks(r, key, relative, start, n))
            + OneMark(ArrayMark(r, key, relative, start, usage, index, 0))
         == before + ArrayMarks(r, key, relative, start, n + 1)
  {
  }

  /** The next usage of the list; the last one is repeated. */
  method NextUsage(usages: seq<nat>, n: nat, last: nat, rest: seq<nat>) returns (usage: nat, others: seq<nat>)
    requires usages != [] && (n > 0 ==> last == ValueAt(usages, n - 1))
    requires rest == Rest(usages, n)
    ensures usage == ValueAt(usages, n) && others == Rest(usages, n + 1)
  {
    usage, others := last, rest;
    if rest != [] {
      usage, others := rest[0], rest[1..];
    }
  }

  function Rest(usages: seq<nat>, n: nat): seq<nat> {
    if n < |usages| then usages[n..] else []
  }

  class Parser {
    var regs: Registers
    var bitpos: map<Key, nat>
    var usageMap: map<Key, map<nat, Def>>

    /** How far each report really reaches, and every place given so far. */
    ghost var ends: map<Key, nat>
    ghost var marks: seq<Mark>

    ghost predicate Valid()
      reads this
    {
      usageMap == Layout(marks) && bitpos == Wrapped(ends)
    }

    ghost function Now(): State
      reads this
    {
      State(regs, ends, marks)
    }

    constructor ()
      ensures Valid() && Now() == START
    {
      regs, bitpos, usageMap := RESET, map[], map[];
      ends, marks := map[], [];
    }

    /** `mark_usage`: reports longer than 64 bytes are not handled, and a usage keeps its first place. */
    method MarkUsage(key: Key, usage: nat, def: Def, ghost m: Mark)
      requires Valid() && m.key == key && m.usage == usage && m.def == def
      modifies this`usageMap, this`marks
      ensures Valid() && marks == old(marks) + OneMark(m)
    {
      if def.bitpos >= 8 * (if key.id == 0 then 64 else 63) {
        return;
      }
      var usages := if key in usageMap then usageMap[key] else map[];
      if usage !in usages {
        usages := usages[usage := def];
      }
      usageMap := usageMap[key := usages];
      marks := marks + [m];
      assert marks[..|marks| - 1] == old(marks);
    }

    /** The cursor of a report moves on, in sixteen bits. */
    method Advance(key: Key, bits: nat)
      requires Valid()
      modifies this`bitpos, this`ends
      ensures Valid() && ends == old(ends)[key := End(old(ends), key) + bits]
    {
      WrappedSet(ends, key, End(ends, key) + bits);
      AddWraps(Cursor(bitpos, key), End(ends, key), bits);
      bitpos := bitpos[key := (Cursor(bitpos, key) + bits) % TWO16];
      ends := ends[key := End(ends, key) + bits];
    }

    /** One field of a variable item: its mark, and the cursor moves past it. */
    method PlaceField(key: Key, relative: bool, usage: nat, ghost i: nat, ghost start: nat)
      requires Valid() && HasUsages(regs) && usage == UsageOf(regs, i)
               && End(ends, key) == FieldStart(start, regs.reportSize, i)
      modifies this`usageMap, this`marks, this`bitpos, this`ends
      ensures Valid() && marks == old(marks) + OneMark(VariableMark(regs, key, relative, start, i))
      ensures ends == old(ends)[key := FieldStart(start, regs.reportSize, i + 1)]
    {
      WrappedSet(ends, key, 0);
      MarkUsage(key, usage,
                Def(regs.reportSize % 256, Cursor(bitpos, key), relative, false, regs.logicalMinimum,
                    regs.logicalMaximum, 0, 0, 0),
                VariableMark(regs, key, relative, start, i));
      Advance(key, regs.reportSize);
    }

    /** Every field of a variable item with a usage range: usages count up to the maximum. */
    method PlaceRange(key: Key, relative: bool)
      requires Valid() && regs.hasMinimum && regs.hasMaximum
      modifies this`usageMap, this`marks, this`bitpos, this`ends
      ensures Valid()
      ensures marks == old(marks) + VariableMarks(regs, key, relative, End(old(ends), key), regs.reportCount)
      ensures ends == Reached(old(ends), key, regs.reportSize, regs.reportCount)
    {
      var usage := regs.usageMinimum;
      ghost var first, before := ends, marks;
      assert marks == marks + [];
      for i := 0 to regs.reportCount
        invariant Valid() && usage == UsageOf(regs, i)
        invariant marks == before + VariableMarks(regs, key, relative, End(first, key), i)
        invariant ends == Reached(first, key, regs.reportSize, i)
      {
        ReachedNext(first, key, regs.reportSize, i);
        VariableMarksNext(before, regs, key, relative, End(first, key), i);
        PlaceField(key, relative, usage, i, End(first, key));
        if usage < regs.usageMaximum {
          usage := usage + 1;
        }
      }
    }

    /** Every field of a variable item with a list of usages: the last one is repeated. */
    method PlaceList(key: Key, relative: bool)
      requires Valid() && !(regs.hasMinimum && regs.hasMaximum) && regs.usages != []
      modifies this`usageMap, this`marks, this`bitpos, this`ends
      ensures Valid()
      ensures marks == old(marks) + VariableMarks(regs, key, relative, End(old(ends), key), regs.reportCount)
      ensures ends == Reached(old(ends), key, regs.reportSize, regs.reportCount)
    {
      var usage, rest := 0, regs.usages;
      ghost var first, before := ends, marks;
      assert marks == marks + [];
      for i := 0 to regs.reportCount
        invariant Valid() && rest == Rest(regs.usages, i)
        invariant i > 0 ==> usage == ValueAt(regs.usages, i - 1)
        invariant marks == before + VariableMarks(regs, key, relative, End(first, key), i)
        invariant ends == Reached(first, key, regs.reportSize, i)
      {
        usage, rest := NextUsage(regs.usages, i, usage, rest);
        ReachedNext(first, key, regs.reportSize, i);
        VariableMarksNext(before, regs, key, relative, End(first, key), i);
        PlaceField(key, relative, usage, i, End(first, key));
      }
    }

    /** A variable item: its fields, or nothing but its bits if it has no usages. */
    method PlaceVariables(it: Item)
      requires Valid() && IsVariable(regs, it)
      modifies this`usageMap, this`marks, this`bitpos, this`ends
      ensures Valid() && ends == MainEnds(regs, it, old(ends))
      ensures marks == old(marks) + MainMarks(regs, it, End(old(ends), MainKey(regs, it)))
    {
      var key := MainKey(regs, it);
      FieldStartIs(End(ends, key), regs.reportSize, regs.reportCount);
      if regs.hasMinimum && regs.hasMaximum {
        PlaceRange(key, Relative(it));
      } else if regs.usages != [] {
        PlaceList(key, Relative(it));
      } else {
        Advance(key, regs.reportSize * regs.reportCount);
      }
    }

    /** One usage of an array, at the array's field. */
    method PlaceIndex(key: Key, relative: bool, usage: nat, index: int, maximum: nat)
      requires Valid()
      modifies this`usageMap, this`marks
      ensures Valid()
      ensures marks == old(marks) + OneMark(ArrayMark(regs, key, relative, End(ends, key), usage, index, maximum))
    {
      WrappedSet(ends, key, 0);
      MarkUsage(key, usage,
                Def(regs.reportSize % 256, Cursor(bitpos, key), relative, true, regs.logicalMinimum,
                    regs.unsignedMaximum, index, regs.reportCount, maximum),
                ArrayMark(regs, key, relative, End(ends, key), usage, index, maximum));
    }

    /** The listed usages of an array. */
    method PlaceArrayList(key: Key, relative: bool)
      requires Valid() && regs.usages != []
      modifies this`usageMap, this`marks
      ensures Valid() && marks == old(marks) + ArrayMarks(regs, key, relative, End(ends, key), IndexCount(regs))
    {
      ghost var before := marks;
      var usage, rest := 0, regs.usages;
      assert marks == marks + [];
      for n := 0 to IndexCount(regs)
        invariant Valid() && rest == Rest(regs.usages, n)
        invariant n > 0 ==> usage == ValueAt(regs.usages, n - 1)
        invariant marks == before + ArrayMarks(regs, key, relative, End(ends, key), n)
      {
        usage, rest := NextUsage(regs.usages, n, usage, rest);
        var index := regs.logicalMinimum + n;
        ArrayMarksNext(before, regs, key, relative, End(ends, key), n, usage, index);
        PlaceIndex(key, relative, usage, index, 0);
      }
    }

    /** An array item, or a constant one, which has no usages. */
    method PlaceArray(it: Item)
      requires Valid() && !IsVariable(regs, it)
      modifies this`usageMap, this`marks, this`bitpos, this`ends
      ensures Valid() && ends == MainEnds(regs, it, old(ends))
      ensures marks == old(marks) + MainMarks(regs, it, End(old(ends), MainKey(regs, it)))
    {
      var key := MainKey(regs, it);
      assert marks == marks + [];
      if it.value % 4 == 0 {
        if regs.hasMinimum && regs.hasMaximum {
          PlaceIndex(key, Relative(it), regs.usageMinimum, regs.logicalMinimum, EffectiveMaximum(regs));
        } else if regs.usages != [] {
          PlaceArrayList(key, Relative(it));
        }
      }
      Advance(key, regs.reportSize * regs.reportCount);
    }

    /** An input, output or feature item. */
    method MainItem(it: Item)
      requires Valid() && IsMain(it.tag)
      modifies this
      ensures Valid() && Now() == Consume(old(Now()), it)
    {
      if IsVariable(regs, it) {
        PlaceVariables(it);
      } else {
        PlaceArray(it);
      }
      regs := NoLocals(regs);
    }

    /** Any item. */
    method OneItem(it: Item)
      requires Valid()
      modifies this
      ensures Valid() && Now() == Consume(old(Now()), it)
    {
      if IsMain(it.tag) {
        MainItem(it);
      } else {
        regs := SetRegister(regs, it);
      }
    }
  }

  lemma ItemsCut(bytes: seq<Byte>, idx: nat)
    requires idx < |bytes| && WellFormed(bytes[idx..])
    ensures idx + 1 + PayloadSize(bytes[idx]) <= |bytes|
    ensures var next := idx + 1 + PayloadSize(bytes[idx]);
            && WellFormed(bytes[next..])
            && Items(bytes[idx..]) == [FirstItem(bytes[idx..])] + Items(bytes[next..])
  {
    var n := PayloadSize(bytes[idx]);
    assert bytes[idx..][1 + n..] == bytes[idx + 1 + n..];
  }

  /** An item's value, lowest byte first. */
  method ReadValue(bytes: seq<Byte>, from: nat, size: nat) returns (value: nat)
    requires from + size <= |bytes| && size <= 4
    ensures value == FromLE(bytes[from..from + size])
  {
    value := 0;
    var i := size;
    while i > 0
      invariant 0 <= i <= size && value == FromLE(bytes[from + i..from + size])
    {
      i := i - 1;
      value := bytes[from + i] + 256 * value;
      assert bytes[from + i..from + size][1..] == bytes[from + i + 1..from + size];
    }
  }

  /** The next item. */
  method ReadItem(bytes: seq<Byte>, idx: nat) returns (it: Item, next: nat)
    requires idx < |bytes| && WellFormed(bytes[idx..])
    ensures idx < next <= |bytes| && WellFormed(bytes[next..]) && Items(bytes[idx..]) == [it] + Items(bytes[next..])
  {
    ItemsCut(bytes, idx);
    var prefix := bytes[idx];
    var size := PayloadSize(prefix);
    var value := ReadValue(bytes, idx + 1, size);
    ghost var rest := bytes[idx..];
    assert rest[1..1 + size] == bytes[idx + 1..idx + 1 + size];
    it, next := Item(prefix - prefix % 4, size, value), idx + 1 + size;
    assert it == FirstItem(rest);
  }

  /** `parse_descriptor`: for a well-formed descriptor, the registers, cursors and usage maps that its items give, and
      the whole bytes of every report, its bits counted modulo 65536. */
  method ParseDescriptor(bytes: seq<Byte>) returns (p: Parser, sizes: map<Key, nat>)
    requires WellFormed(bytes)
    ensures fresh(p) && p.Valid() && p.Now() == Parse(Items(bytes))
    ensures forall k :: k in sizes ==> sizes[k] == TotalBits(Items(bytes), k) % TWO16 / 8
    ensures forall k :: k in sizes <==> k in Parse(Items(bytes)).ends
  {
    p := new Parser();
    var idx: nat := 0;
    ghost var done: seq<Item> := [];
    assert bytes[0..] == bytes && [] + Items(bytes) == Items(bytes);
    while idx < |bytes|
      invariant idx <= |bytes| && WellFormed(bytes[idx..]) && fresh(p)
      invariant Items(bytes) == done + Items(bytes[idx..])
      invariant p.Valid() && p.Now() == Parse(done)
      decreases |bytes| - idx
    {
      var it, next := ReadItem(bytes, idx);
      Regroup(done, [it], Items(bytes[next..]));
      ParseSnoc(done, it);
      p.OneItem(it);
      done := done + [it];
      idx := next;
    }
    assert bytes[idx..] == [] && done + [] == done;
    sizes := map k | k in p.bitpos :: p.bitpos[k] / 8;
    forall k | k in sizes
      ensures sizes[k] == TotalBits(done, k) % TWO16 / 8
    {
      EndIsTotal(done, k);
    }
  }
}
