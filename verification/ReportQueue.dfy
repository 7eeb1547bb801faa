/** The report buffers of `remapper.cc` and the code that works on them in place. */
module ReportQueue {
  import opened Bytes
  import opened ReportBits
  import opened ReportPipeline
  import opened ReportFields
  import opened PipelineRuns
  import opened Rings

  const MAX_REPORT_SIZE: nat := 64

  /** A usage's value, as every loop below reads it. */
  method Read(u: Usage, data: array<Octet>, len: nat) returns (value: int)
    requires 1 <= u.size <= 32 && len <= data.Length
    ensures value == ReadField(u, data[..len])
  {
    var raw := GetBitsOf(data, len, u.bitpos, u.size);
    DecodeIsReading(raw, u.size, u.logicalMinimum < 0);
    value := if u.logicalMinimum < 0 then SignExtendHidValue(raw, u.size) else AsInt32(raw);
  }

  ghost predicate WidthsOk(usages: seq<Usage>) {
    forall j :: 0 <= j < |usages| ==> 1 <= usages[j].size <= 32
  }

  ghost predicate BitByBit(f: FieldAccess) {
    f == BIT_FIELDS
  }

  /** Our descriptor, read and written bit by bit. */
  ghost predicate Real(cfg: Config) {
    WidthsOk(cfg.usages) && BitByBit(cfg.fields)
  }

  lemma RealIsBitByBit(cfg: Config)
    requires Real(cfg)
    ensures cfg.fields == BIT_FIELDS
  {
    assert BitByBit(cfg.fields);
  }

  method ReportNeedsToBeSent(layout: Layout, report: array<Octet>, prev: array<Octet>) returns (needed: bool)
    requires |layout.relative| == |layout.absolute| <= report.Length && |layout.relative| <= prev.Length
    ensures var n := |layout.relative|; needed == NeedsToBeSent(layout, report[..n], prev[..n])
  {
    var n := |layout.relative|;
    for i := 0 to n
      invariant forall x :: 0 <= x < i ==> !Shows(report[..n][x], prev[..n][x], layout.relative[x], layout.absolute[x])
    {
      assert report[..n][i] == report[i] && prev[..n][i] == prev[i];
      if Shows(report[i], prev[i], layout.relative[i], layout.absolute[i]) {
        return true;
      }
    }
    return false;
  }

  method DifferOnAbsolute(mask: seq<Octet>, a: array<Octet>, b: array<Octet>) returns (differ: bool)
    requires |mask| <= a.Length && |mask| <= b.Length
    ensures differ <==> Masked(a[..|mask|], mask) != Masked(b[..|mask|], mask)
  {
    var n := |mask|;
    for i := 0 to n
      invariant forall x :: 0 <= x < i ==> Masked(a[..n], mask)[x] == Masked(b[..n], mask)[x]
    {
      assert Masked(a[..n], mask)[i] == a[i] & mask[i] && Masked(b[..n], mask)[i] == b[i] & mask[i];
      if a[i] & mask[i] != b[i] & mask[i] {
        return true;
      }
    }
    return false;
  }

  /** The first loop: may every field hold its sum? */
  method SumsFit(cfg: Config, id: nat, prev: array<Octet>, report: array<Octet>, len: nat) returns (fits: bool)
    requires Real(cfg) && len <= prev.Length && len <= report.Length
    ensures fits == AggregateFits(cfg, id, prev[..len], report[..len])
  {
    hide ReadField, BitByBit;
    RealIsBitByBit(cfg);
    for j := 0 to |cfg.usages|
      invariant forall i :: 0 <= i < j && cfg.usages[i].reportId == id ==>
        SumFits(cfg.fields, cfg.usages[i], prev[..len], report[..len])
    {
      if cfg.usages[j].reportId == id {
        var val1 := Read(cfg.usages[j], report, len);
        var val2 := Read(cfg.usages[j], prev, len);
        if val1 + val2 < cfg.usages[j].logicalMinimum || val1 + val2 > cfg.usages[j].logicalMaximum {
          assert !SumFits(cfg.fields, cfg.usages[j], prev[..len], report[..len]);
          return false;
        }
      }
    }
    return true;
  }

  /** One field's turn in the second loop. */
  method AddFieldInto(f: FieldAccess, u: Usage, prev: array<Octet>, report: array<Octet>, len: nat)
    requires BitByBit(f) && 1 <= u.size <= 32 && len <= prev.Length && len <= report.Length && prev != report
    modifies prev
    ensures prev[..len] == AddField(f, u, old(prev[..len]), report[..len])
    ensures prev[len..] == old(prev[len..])
  {
    var val1 := Read(u, report, len);
    if val1 != 0 {
      var val2 := Read(u, prev, len);
      PutBitsInto(prev, len, u.bitpos, u.size, val1 + val2);
    }
  }

  /** `aggregate_relative`. */
  method AggregateRelative(cfg: Config, id: nat, prev: array<Octet>, report: array<Octet>, len: nat) returns (ok: bool)
    requires ShapeOk(cfg) && Real(cfg)
    requires len <= prev.Length && len <= report.Length && prev != report
    modifies prev
    ensures ok == AggregateFits(cfg, id, old(prev[..len]), report[..len])
    ensures prev[..len] == if ok then AggregateFrom(cfg, id, old(prev[..len]), report[..len], 0) else old(prev[..len])
    ensures prev[len..] == old(prev[len..])
  {
    ok := SumsFit(cfg, id, prev, report, len);
    if !ok {
      return;
    }
    for j := 0 to |cfg.usages|
      invariant AggregateFrom(cfg, id, prev[..len], report[..len], j)
             == AggregateFrom(cfg, id, old(prev[..len]), report[..len], 0)
      invariant prev[len..] == old(prev[len..])
    {
      if cfg.usages[j].reportId == id {
        AddFieldInto(cfg.fields, cfg.usages[j], prev, report, len);
      }
    }
  }

  /** One field's turn in moving accumulated movement, in place. */
  method MoveFieldInto(cfg: Config, u: Usage, data: array<Octet>, a: int)
    requires Real(cfg) && 1 <= u.size <= 32
    modifies data
    ensures data[..] == MoveField(cfg.fields, u, old(data[..]), a)
  {
    RealIsBitByBit(cfg);
    assert data[..data.Length] == data[..];
    var existing := Read(u, data, data.Length);
    var truncated := Thousandths(a);
    if truncated != 0 {
      PutBitsInto(data, data.Length, u.bitpos, u.size, existing + truncated);
      assert data[..data.Length] == data[..];
    }
  }

  method Clear(data: array<Octet>)
    modifies data
    ensures data[..] == Blank(data.Length)
  {
    for i := 0 to data.Length
      invariant forall x :: 0 <= x < i ==> data[x] == 0
    {
      data[i] := 0;
    }
  }

  method CopyReport(dst: array<Octet>, src: array<Octet>)
    requires src.Length <= dst.Length && src != dst
    modifies dst
    ensures dst[..src.Length] == src[..]
  {
    for i := 0 to src.Length
      invariant dst[..i] == src[..i]
    {
      dst[i] := src[i];
    }
    assert src[..src.Length] == src[..];
  }

  ghost function Contents(buffers: seq<array<Octet>>): (r: seq<seq<Octet>>)
    reads buffers
    ensures |r| == |buffers|
    ensures forall i :: 0 <= i < |buffers| ==> r[i] == buffers[i][..]
  {
    seq(|buffers|, i requires 0 <= i < |buffers| reads buffers => buffers[i][..])
  }

  /** Zeroed buffers of these sizes. */
  method MakeBuffers(sizes: seq<nat>) returns (buffers: seq<array<Octet>>)
    ensures |buffers| == |sizes|
    ensures forall i :: 0 <= i < |sizes| ==> fresh(buffers[i]) && buffers[i][..] == Blank(sizes[i])
    ensures forall i, j :: 0 <= i < j < |sizes| ==> buffers[i] != buffers[j]
  {
    buffers := [];
    for n := 0 to |sizes|
      invariant |buffers| == n
      invariant forall i :: 0 <= i < n ==> fresh(buffers[i]) && buffers[i][..] == Blank(sizes[i])
      invariant forall i, j :: 0 <= i < j < n ==> buffers[i] != buffers[j]
    {
      var buffer := new Octet[sizes[n]](_ => 0);
      assert buffer[..] == Blank(sizes[n]);
      buffers := buffers + [buffer];
    }
  }

  /** Every buffer of the three tables is an object of its own. */
  ghost predicate Separate(a: seq<array<Octet>>, b: seq<array<Octet>>, c: seq<array<Octet>>) {
    && (forall i, j :: 0 <= i < j < |a| ==> a[i] != a[j])
    && (forall i, j :: 0 <= i < j < |b| ==> b[i] != b[j])
    && (forall i, j :: 0 <= i < j < |c| ==> c[i] != c[j])
    && (forall i, j :: 0 <= i < |a| && 0 <= j < |b| ==> a[i] != b[j])
    && (forall i, j :: 0 <= i < |a| && 0 <= j < |c| ==> a[i] != c[j])
    && (forall i, j :: 0 <= i < |b| && 0 <= j < |c| ==> b[i] != c[j])
  }

  /** A working and a last queued report for every id, and the ring's slots, each large enough. */
  ghost predicate Tables(cfg: Config, a: seq<array<Octet>>, b: seq<array<Octet>>, c: seq<array<Octet>>) {
    && |a| == |b| == |cfg.layouts| && |c| == OR_BUFSIZE
    && (forall id :: 0 <= id < |cfg.layouts| ==> a[id].Length == b[id].Length == Size(cfg, id))
    && (forall i, id :: 0 <= i < OR_BUFSIZE && 0 <= id < |cfg.layouts| ==> Size(cfg, id) <= c[i].Length)
    && Separate(a, b, c)
  }

  method MakeTables(cfg: Config) returns (a: seq<array<Octet>>, b: seq<array<Octet>>, c: seq<array<Octet>>)
    requires forall id :: 0 <= id < |cfg.layouts| ==> Size(cfg, id) <= MAX_REPORT_SIZE
    ensures Tables(cfg, a, b, c)
    ensures Contents(a) == Contents(b) == Start(cfg).pipe.working
    ensures fresh(a) && fresh(b) && fresh(c)
  {
    var sizes: seq<nat> := seq(|cfg.layouts|, id requires 0 <= id < |cfg.layouts| => Size(cfg, id));
    a := MakeBuffers(sizes);
    b := MakeBuffers(sizes);
    c := MakeBuffers(seq(OR_BUFSIZE, _ => MAX_REPORT_SIZE));
    assert forall id :: 0 <= id < |cfg.layouts| ==> a[id].Length == |a[id][..]| && b[id].Length == |b[id][..]|;
    assert forall i :: 0 <= i < OR_BUFSIZE ==> c[i].Length == |c[i][..]|;
  }

  /** The reports in the ring's slots; a report is as long as its id says. */
  ghost function ReportsIn(cfg: Config, ids: seq<nat>, data: seq<seq<Octet>>): (r: seq<Report>)
    requires |ids| == |data| && forall i :: 0 <= i < |ids| ==> ids[i] < |cfg.layouts| && Size(cfg, ids[i]) <= |data[i]|
    ensures |r| == |ids|
    ensures forall i :: 0 <= i < |ids| ==> r[i] == Report(ids[i], data[i][..Size(cfg, ids[i])])
  {
    seq(|ids|, i requires 0 <= i < |ids| => Report(ids[i], data[i][..Size(cfg, ids[i])]))
  }

  /** The tail of a ring, and what merging into it means. */
  lemma MergeAtTail(cfg: Config, p: Pipe, id: nat, slots: seq<Report>, head: nat, items: nat)
    requires ShapeOk(cfg) && PipeOk(cfg, p) && id < |cfg.layouts|
    requires |slots| == OR_BUFSIZE && head < OR_BUFSIZE && 0 < items <= OR_BUFSIZE
             && p.queue == Ring(slots, head, items)
    ensures var last, report := slots[Wrap(head + items - 1, OR_BUFSIZE)], p.working[id];
            && ReportOk(cfg, last)
            && (Merges(cfg, p, id) <==> last.id == id && Absolute(cfg, id, last.data) == Absolute(cfg, id, report)
                                        && AggregateFits(cfg, id, last.data, report))
    ensures Merges(cfg, p, id) ==>
              var last := Wrap(head + items - 1, OR_BUFSIZE);
              var grown := Report(id, AggregateFrom(cfg, id, slots[last].data, p.working[id], 0));
              Merged(cfg, p, id) == p.(queue := Ring(slots[last := grown], head, items))
  {
    var last := Wrap(head + items - 1, OR_BUFSIZE);
    assert p.queue[items - 1] == slots[last];
    assert ReportOk(cfg, p.queue[items - 1]);
    if Merges(cfg, p, id) {
      RingAmend(slots, head, items, Report(id, AggregateFrom(cfg, id, slots[last].data, p.working[id], 0)));
    }
  }

  lemma PushAtTail(cfg: Config, p: Pipe, id: nat, slots: seq<Report>, head: nat, items: nat)
    requires ShapeOk(cfg) && PipeOk(cfg, p) && id < |cfg.layouts|
    requires |slots| == OR_BUFSIZE && head < OR_BUFSIZE && items < OR_BUFSIZE && p.queue == Ring(slots, head, items)
    ensures var report := p.working[id];
            var grown := slots[Wrap(head + items, OR_BUFSIZE) := Report(id, report)];
            Pushed(cfg, p, id) == p.(queue := Ring(grown, head, items + 1), prev := p.prev[id := report])
  {
    RingPush(slots, head, items, Report(id, p.working[id]));
  }

  lemma StartIsEmpty(cfg: Config)
    requires ShapeOk(cfg)
    ensures var p := Start(cfg).pipe; PipeOk(cfg, p) && p.queue == [] && p.prev == p.working
  {
  }

  class Pipeline {
    const cfg: Config
    const reports: seq<array<Octet>>
    const prevReports: seq<array<Octet>>
    const outgoing: seq<array<Octet>>
    var outgoingIds: seq<nat>
    var orHead: nat
    var orTail: nat
    var orItems: nat
    var accumulated: seq<int>

    /** What the buffers hold. */
    ghost var working: seq<seq<Octet>>
    ghost var prev: seq<seq<Octet>>
    ghost var slots: seq<Report>

    /** What never changes: the buffers are there, each of its own, and large enough. */
    ghost predicate Built() {
      Tables(cfg, reports, prevReports, outgoing)
    }

    /** The ghost fields tell the buffers' contents. */
    ghost predicate Mirrors(w: seq<seq<Octet>>, p: seq<seq<Octet>>, s: seq<Report>)
      reads this`outgoingIds, reports, prevReports, outgoing
    {
      && Built()
      && |outgoingIds| == OR_BUFSIZE && (forall i :: 0 <= i < OR_BUFSIZE ==> outgoingIds[i] < |cfg.layouts|)
      && w == Contents(reports) && p == Contents(prevReports) && s == ReportsIn(cfg, outgoingIds, Contents(outgoing))
    }

    ghost predicate FieldsOk()
      reads this
    {
      && ShapeOk(cfg)
      && |working| == |prev| == |cfg.layouts|
      && (forall id :: 0 <= id < |cfg.layouts| ==> |working[id]| == |prev[id]| == Size(cfg, id))
      && |slots| == OR_BUFSIZE && (forall i :: 0 <= i < OR_BUFSIZE ==> ReportOk(cfg, slots[i]))
      && orHead < OR_BUFSIZE && orItems <= OR_BUFSIZE && orTail == Wrap(orHead + orItems, OR_BUFSIZE)
      && |accumulated| == |cfg.usages|
    }

    ghost predicate Valid()
      reads this, reports, prevReports, outgoing
    {
      FieldsOk() && Mirrors(working, prev, slots)
    }

    ghost function State(): (p: Pipe)
      requires FieldsOk()
      reads this
      ensures PipeOk(cfg, p)
    {
      Pipe(working, prev, Ring(slots, orHead, orItems), accumulated)
    }

    /** Nothing moved, nothing queued. */
    constructor (config: Config)
      requires ShapeOk(config) && config.layouts != []
      requires forall id :: 0 <= id < |config.layouts| ==> Size(config, id) <= MAX_REPORT_SIZE
      ensures Valid() && cfg == config && State() == Start(config).pipe
      ensures fresh(reports) && fresh(prevReports) && fresh(outgoing)
    {
      hide Separate, Tables, Start, ReportsIn, Contents;
      StartIsEmpty(config);
      cfg := config;
      var a, b, c := MakeTables(config);
      reports, prevReports, outgoing := a, b, c;
      outgoingIds := seq(OR_BUFSIZE, _ => 0);
      orHead, orTail, orItems := 0, 0, 0;
      accumulated := Start(config).pipe.acc;
      working, prev := Start(config).pipe.working, Start(config).pipe.prev;
      slots := ReportsIn(config, seq(OR_BUFSIZE, _ => 0), Contents(c));
      new;
      assert FieldsOk();
      assert Mirrors(working, prev, slots);
      assert Ring(slots, 0, 0) == [];
    }

    /** Accumulated movement of one usage moves into its working report. */
    method MoveInto(u: Usage, a: int)
      requires Valid() && Real(cfg) && u in cfg.usages
      modifies this`working, reports
      ensures Valid() && working == old(working)[u.reportId := MoveField(cfg.fields, u, old(working)[u.reportId], a)]
    {
      hide State, MoveField, ReportsIn, Contents;
      assert Mirrors(working, prev, slots);
      MoveFieldInto(cfg, u, reports[u.reportId], a);
      working := working[u.reportId := reports[u.reportId][..]];
      assert Mirrors(working, prev, slots);
    }

    method ClearReport(id: nat)
      requires Valid() && id < |cfg.layouts|
      modifies this`working, reports
      ensures Valid() && working == old(working)[id := Blank(Size(cfg, id))]
    {
      hide State, ReportsIn, Contents;
      assert Mirrors(working, prev, slots);
      Clear(reports[id]);
      working := working[id := reports[id][..]];
      assert Mirrors(working, prev, slots);
    }

    method RememberReport(id: nat)
      requires Valid() && id < |cfg.layouts|
      modifies this`prev, prevReports
      ensures Valid() && prev == old(prev)[id := working[id]]
    {
      hide State, ReportsIn, Contents, Absolute, ShapeOk;
      assert Mirrors(working, prev, slots);
      CopyReport(prevReports[id], reports[id]);
      assert prevReports[id][..] == prevReports[id][..reports[id].Length] == working[id];
      prev := prev[id := reports[id][..]];
      assert Mirrors(working, prev, slots);
    }

    /** The ghost fields follow a change of one slot's buffer. */
    ghost method NoteSlot(slot: nat)
      requires Built() && FieldsOk() && |outgoingIds| == OR_BUFSIZE && slot < OR_BUFSIZE
      requires forall i :: 0 <= i < OR_BUFSIZE ==> outgoingIds[i] < |cfg.layouts|
      requires working == Contents(reports) && prev == Contents(prevReports)
      requires var now := ReportsIn(cfg, outgoingIds, Contents(outgoing)); slots == now[slot := slots[slot]]
      modifies this`slots
      ensures Valid()
      ensures slots == old(slots)[slot := Report(outgoingIds[slot], outgoing[slot][..Size(cfg, outgoingIds[slot])])]
    {
      hide State, Contents, Separate;
      slots := ReportsIn(cfg, outgoingIds, Contents(outgoing));
      assert Mirrors(working, prev, slots);
    }

    /** A slot of the ring takes the working report in as it is. */
    method StoreReport(slot: nat, id: nat)
      requires Valid() && slot < OR_BUFSIZE && id < |cfg.layouts|
      modifies this`outgoingIds, this`slots, outgoing
      ensures Valid() && slots == old(slots)[slot := Report(id, working[id])]
    {
      assert Mirrors(working, prev, slots);
      outgoingIds := outgoingIds[slot := id];
      CopyReport(outgoing[slot], reports[id]);
      NoteSlot(slot);
    }

    /** The state in a slot differs from the working report's. */
    method SlotDiffers(slot: nat, id: nat) returns (differ: bool)
      requires Valid() && slot < OR_BUFSIZE && id < |cfg.layouts| && slots[slot].id == id
      ensures differ <==> Absolute(cfg, id, slots[slot].data) != Absolute(cfg, id, working[id])
    {
      assert Mirrors(working, prev, slots);
      assert reports[id][..Size(cfg, id)] == working[id] && outgoing[slot][..Size(cfg, id)] == slots[slot].data;
      differ := DifferOnAbsolute(cfg.layouts[id].absolute, outgoing[slot], reports[id]);
    }

    /** Adding a working report's fields to a slot's changes no other buffer. */
    method AggregateBuffers(slot: nat, id: nat) returns (ok: bool)
      requires Built() && ShapeOk(cfg) && Real(cfg) && slot < OR_BUFSIZE && id < |cfg.layouts|
      modifies outgoing[slot]
      ensures var n := Size(cfg, id);
              && ok == AggregateFits(cfg, id, old(outgoing[slot][..n]), reports[id][..])
              && outgoing[slot][..n] == if ok then AggregateFrom(cfg, id, old(outgoing[slot][..n]), reports[id][..], 0)
                                        else old(outgoing[slot][..n])
    {
      assert reports[id][..Size(cfg, id)] == reports[id][..];
      ok := AggregateRelative(cfg, id, outgoing[slot], reports[id], Size(cfg, id));
    }

    /** A slot of the ring takes the working report in on top of its own, if its fields can. */
    method AggregateIntoSlot(slot: nat, id: nat) returns (ok: bool)
      requires Valid() && Real(cfg) && slot < OR_BUFSIZE && id < |cfg.layouts| && slots[slot].id == id
      modifies this`slots, outgoing
      ensures Valid() && ok == AggregateFits(cfg, id, old(slots[slot].data), working[id])
      ensures !ok ==> slots == old(slots)
      ensures ok ==> slots == old(slots)[
                                slot := Report(id, AggregateFrom(cfg, id, old(slots[slot].data), working[id], 0))]
    {
      assert Mirrors(working, prev, slots);
      ok := AggregateBuffers(slot, id);
      NoteSlot(slot);
    }

    method IsDue(id: nat) returns (needed: bool)
      requires Valid() && id < |cfg.layouts|
      ensures needed == Due(cfg, State(), id)
    {
      assert Mirrors(working, prev, slots);
      assert reports[id][..Size(cfg, id)] == working[id] && prevReports[id][..Size(cfg, id)] == prev[id];
      needed := ReportNeedsToBeSent(cfg.layouts[id], reports[id], prevReports[id]);
    }

    method IdOf(slot: nat) returns (id: nat)
      requires Valid() && slot < OR_BUFSIZE
      ensures id == slots[slot].id
    {
      assert Mirrors(working, prev, slots);
      id := outgoingIds[slot];
    }

    /** One usage's turn in moving accumulated movement into the working reports. */
    method MoveUsage(j: nat)
      requires Valid() && Real(cfg) && j < |cfg.usages|
      modifies this`accumulated, this`working, reports
      ensures Valid() && State() == MoveOne(cfg, old(State()), j)
    {
      hide Mirrors, Real, ShapeOk, Ring;
      var a := accumulated[j];
      if a == 0 {
        return;
      }
      accumulated := accumulated[j := a - Thousandths(a) * 1000];
      MoveInto(cfg.usages[j], a);
    }

    /** The same, seen from the whole loop. */
    method MoveNext(j: nat, ghost p: Pipe, ghost target: Pipe) returns (ghost next: Pipe)
      requires Valid() && Real(cfg) && j < |cfg.usages| && State() == p && MoveFrom(cfg, p, j) == target
      modifies this`accumulated, this`working, reports
      ensures Valid() && State() == next && MoveFrom(cfg, next, j + 1) == target
    {
      hide Mirrors, Real, MoveOne, ShapeOk, Ring;
      next := MoveOne(cfg, p, j);
      MoveUsage(j);
    }

    method MoveAccumulated()
      requires Valid() && Real(cfg)
      modifies this`accumulated, this`working, reports
      ensures Valid() && State() == MoveFrom(cfg, old(State()), 0)
    {
      hide Mirrors, Real, MoveOne, ShapeOk, Ring;
      ghost var target := MoveFrom(cfg, State(), 0);
      ghost var p := State();
      for j := 0 to |cfg.usages|
        invariant Valid() && PipeOk(cfg, p) && State() == p && MoveFrom(cfg, p, j) == target
      {
        p := MoveNext(j, p, target);
      }
      assert p == target;
    }

    /** The report takes the place behind the tail. */
    method PushReport(id: nat)
      requires Valid() && id < |cfg.layouts| && orItems < OR_BUFSIZE
      modifies this, outgoing, prevReports
      ensures Valid() && State() == Pushed(cfg, old(State()), id)
    {
      hide Mirrors, Blank;
      PushAtTail(cfg, State(), id, slots, orHead, orItems);
      StoreReport(orTail, id);
      RememberReport(id);
      orTail := Wrap(orTail + 1, OR_BUFSIZE);
      orItems := orItems + 1;
    }

    /** The tail takes the report in, if it can. */
    method MergeIntoTail(id: nat) returns (merged: bool)
      requires Valid() && Real(cfg) && id < |cfg.layouts|
      modifies this`slots, outgoing
      ensures Valid() && merged == Merges(cfg, old(State()), id)
      ensures State() == if merged then Merged(cfg, old(State()), id) else old(State())
    {
      hide Mirrors, Real, Merged, AggregateFrom, AggregateFits;
      if orItems == 0 {
        return false;
      }
      var last := Wrap(orTail + OR_BUFSIZE - 1, OR_BUFSIZE);
      assert last == Wrap(orHead + orItems - 1, OR_BUFSIZE);
      MergeAtTail(cfg, State(), id, slots, orHead, orItems);
      var lastId := IdOf(last);
      if lastId != id {
        return false;
      }
      var differ := SlotDiffers(last, id);
      if differ {
        return false;
      }
      merged := AggregateIntoSlot(last, id);
    }

    /** One report id's turn; a full ring refuses it. */
    method QueueReport(id: nat) returns (full: bool)
      requires Valid() && Real(cfg) && id < |cfg.layouts|
      modifies this, reports, prevReports, outgoing
      ensures Valid() && full == Overflows(cfg, old(State()), id)
      ensures State() == if full then old(State()) else QueueOne(cfg, old(State()), id)
    {
      hide FieldsOk, Mirrors, Real, Merges, Merged, Pushed, Due;
      var needed := IsDue(id);
      if needed {
        if orItems == OR_BUFSIZE {
          return true;
        }
        var merged := MergeIntoTail(id);
        if !merged {
          PushReport(id);
        }
      }
      ClearReport(id);
      return false;
    }

    /** Every report id's turn, until the ring is full. */
    method QueueReports()
      requires Valid() && Real(cfg)
      modifies this, reports, prevReports, outgoing
      ensures Valid() && State() == QueueFrom(cfg, old(State()), 0)
    {
      hide Mirrors, Real, QueueOne, Overflows, Ring;
      ghost var p := State();
      ghost var target := QueueFrom(cfg, p, 0);
      for i := 0 to |cfg.reportIds|
        invariant Valid() && State() == p
        invariant QueueFrom(cfg, p, i) == target
      {
        var full := QueueReport(cfg.reportIds[i]);
        if full {
          break;
        }
        p := QueueOne(cfg, p, cfg.reportIds[i]);
      }
    }

    /** The end of `process_mapping`. */
    method EndOfFrame()
      requires Valid() && Real(cfg)
      modifies this, reports, prevReports, outgoing
      ensures Valid() && State() == EndFrame(cfg, old(State()))
    {
      hide Mirrors, Real, QueueFrom, MoveFrom, ShapeOk;
      MoveAccumulated();
      QueueReports();
    }

    /** The oldest report's bytes. */
    method HeadReport() returns (out: seq<Octet>)
      requires Valid() && orItems > 0
      ensures out == State().queue[0].data
    {
      assert Mirrors(working, prev, slots);
      out := outgoing[orHead][..Size(cfg, outgoingIds[orHead])];
    }

    /** `send_report`, the endpoint taking the report or not. */
    method SendReport(taken: bool) returns (sent: bool, out: seq<Octet>)
      requires Valid()
      modifies this`orHead, this`orItems
      ensures Valid() && sent == (taken && old(State()).queue != [])
      ensures old(State()).queue != [] ==> out == old(State()).queue[0].data
      ensures State() == old(State()).(queue := old(State()).queue[if sent then 1 else 0..])
    {
      hide Mirrors;
      out := [];
      sent := orItems > 0 && taken;
      if orItems > 0 {
        out := HeadReport();
        RingPop(slots, orHead, orItems);
      }
      if sent {
        orHead := Wrap(orHead + 1, OR_BUFSIZE);
        orItems := orItems - 1;
      }
    }
  }
}
