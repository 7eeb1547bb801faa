/** The outgoing report pipeline of `remapper.cc`: movement in thousandths, moved into report fields, queued
    in a ring of eight, merged into its tail when that loses nothing, and sent when the endpoint is free. */
module ReportPipeline {
  import opened Bytes
  import opened ReportBits

  const OR_BUFSIZE: nat := 8

  /** A relative usage of our own descriptor: its report, its field and its logical range. */
  datatype Usage = Usage(reportId: nat, bitpos: nat, size: nat, logicalMinimum: int, logicalMaximum: int)

  /** The masks of one report; their length is the report's size. */
  datatype Layout = Layout(relative: seq<Octet>, absolute: seq<Octet>)

  /** Writing a field leaves a report's size alone. */
  type FieldWriter = write: (Usage, seq<Octet>, int) -> seq<Octet> | forall u, d, v :: |write(u, d, v)| == |d|
    witness (u, d, v) => d

  /** How a field is read and written, and what it reads back after a number was written to it. */
  datatype FieldAccess = FieldAccess(
    read: (Usage, seq<Octet>) -> int,
    write: FieldWriter,
    kept: (Usage, int) -> int)

  datatype Config = Config(layouts: seq<Layout>, reportIds: seq<nat>, usages: seq<Usage>, fields: FieldAccess)

  datatype Report = Report(id: nat, data: seq<Octet>)

  /** Working and last queued contents by report id, the queue, and each usage's thousandths left over. */
  datatype Pipe = Pipe(working: seq<seq<Octet>>, prev: seq<seq<Octet>>, queue: seq<Report>, acc: seq<int>)

  function Size(cfg: Config, id: nat): nat
    requires id < |cfg.layouts|
  {
    |cfg.layouts[id].relative|
  }

  /** An empty report. */
  function Blank(n: nat): seq<Octet> {
    seq(n, _ => 0)
  }

  /** The masked state `differ_on_absolute` compares. */
  function Absolute(cfg: Config, id: nat, data: seq<Octet>): seq<Octet>
    requires id < |cfg.layouts| && |data| == |cfg.layouts[id].absolute|
  {
    Masked(data, cfg.layouts[id].absolute)
  }

  // ---- well-formed configurations and states -----------------------------------------

  ghost predicate ShapeOk(cfg: Config) {
    && (forall id :: 0 <= id < |cfg.layouts| ==> |cfg.layouts[id].absolute| == Size(cfg, id))
    && (forall i :: 0 <= i < |cfg.reportIds| ==> cfg.reportIds[i] < |cfg.layouts|)
    && (forall j :: 0 <= j < |cfg.usages| ==> cfg.usages[j].reportId < |cfg.layouts|)
  }

  /** Nothing shows under a mask. */
  ghost predicate Still(data: seq<Octet>, mask: seq<Octet>)
    requires |data| == |mask|
  {
    forall i :: 0 <= i < |data| ==> data[i] & mask[i] == 0
  }

  /** The laws of field access the pipeline relies on, for one usage. */
  ghost predicate FieldLaws(cfg: Config, u: Usage)
    requires ShapeOk(cfg) && u.reportId < |cfg.layouts|
  {
    var f := cfg.fields;
    && (forall d, v {:trigger f.write(u, d, v)} :: |d| == Size(cfg, u.reportId) ==>
          && f.read(u, f.write(u, d, v)) == f.kept(u, v)
          && Absolute(cfg, u.reportId, f.write(u, d, v)) == Absolute(cfg, u.reportId, d))
    && (forall v {:trigger f.kept(u, v)} :: u.logicalMinimum <= v <= u.logicalMaximum ==> f.kept(u, v) == v)
    && (forall d {:trigger f.read(u, d)} ::
          |d| == Size(cfg, u.reportId) && Still(d, cfg.layouts[u.reportId].relative) ==> f.read(u, d) == 0)
  }

  ghost predicate Independent(cfg: Config, u: Usage, v: Usage) {
    var f := cfg.fields;
    u.reportId == v.reportId ==>
      && (forall d, x {:trigger f.write(u, d, x)} :: f.read(v, f.write(u, d, x)) == f.read(v, d))
      && (forall d, x {:trigger f.write(v, d, x)} :: f.read(u, f.write(v, d, x)) == f.read(u, d))
  }

  ghost predicate ConfigOk(cfg: Config) {
    && ShapeOk(cfg)
    && (forall j :: 0 <= j < |cfg.usages| ==> FieldLaws(cfg, cfg.usages[j]))
    && (forall j, k :: 0 <= j < k < |cfg.usages| ==> Independent(cfg, cfg.usages[j], cfg.usages[k]))
  }

  ghost predicate ReportOk(cfg: Config, r: Report) {
    r.id < |cfg.layouts| && |r.data| == Size(cfg, r.id)
  }

  ghost predicate PipeOk(cfg: Config, p: Pipe) {
    && |p.working| == |p.prev| == |cfg.layouts|
    && (forall id :: 0 <= id < |cfg.layouts| ==> |p.working[id]| == |p.prev[id]| == Size(cfg, id))
    && (forall i :: 0 <= i < |p.queue| ==> ReportOk(cfg, p.queue[i]))
    && |p.queue| <= OR_BUFSIZE
    && |p.acc| == |cfg.usages|
  }

  // ---- accumulated movement into the working reports ----------------------------------

  /** The whole units of an amount in thousandths. */
  function Thousandths(a: int): int {
    Quotient(a, 1000)
  }

  /** Whole units move from an accumulator into a field. */
  function MoveField(f: FieldAccess, u: Usage, data: seq<Octet>, a: int): seq<Octet> {
    if Thousandths(a) == 0 then data else f.write(u, data, f.read(u, data) + Thousandths(a))
  }

  /** What of a moved amount the field does not keep. */
  function FieldLoss(f: FieldAccess, u: Usage, data: seq<Octet>, a: int): int {
    if Thousandths(a) == 0 then 0
    else f.read(u, data) + Thousandths(a) - f.kept(u, f.read(u, data) + Thousandths(a))
  }

  /** One usage's turn. */
  function MoveOne(cfg: Config, p: Pipe, j: nat): (r: Pipe)
    requires ShapeOk(cfg) && PipeOk(cfg, p) && j < |cfg.usages|
    ensures PipeOk(cfg, r)
  {
    var u := cfg.usages[j];
    var id := u.reportId;
    p.(acc := p.acc[j := Remainder(p.acc[j], 1000)],
       working := p.working[id := MoveField(cfg.fields, u, p.working[id], p.acc[j])])
  }

  function MoveFrom(cfg: Config, p: Pipe, j: nat): (r: Pipe)
    requires ShapeOk(cfg) && PipeOk(cfg, p) && j <= |cfg.usages|
    ensures PipeOk(cfg, r)
    decreases |cfg.usages| - j
  {
    if j == |cfg.usages| then p else MoveFrom(cfg, MoveOne(cfg, p, j), j + 1)
  }

  // ---- queueing ------------------------------------------------------------------------

  /** A byte holds movement, or a state other than the one last queued. */
  predicate Shows(report: Octet, prev: Octet, relative: Octet, absolute: Octet) {
    report & relative != 0 || report & absolute != prev & absolute
  }

  /** `needs_to_be_sent`. */
  predicate NeedsToBeSent(layout: Layout, report: seq<Octet>, prev: seq<Octet>)
    requires |report| == |prev| == |layout.relative| == |layout.absolute|
  {
    exists i :: 0 <= i < |report| && Shows(report[i], prev[i], layout.relative[i], layout.absolute[i])
  }

  /** The first loop of `aggregate_relative`: no field may leave its logical range. */
  predicate SumFits(f: FieldAccess, u: Usage, prev: seq<Octet>, report: seq<Octet>) {
    u.logicalMinimum <= f.read(u, report) + f.read(u, prev) <= u.logicalMaximum
  }

  predicate AggregateFits(cfg: Config, id: nat, prev: seq<Octet>, report: seq<Octet>) {
    forall j :: 0 <= j < |cfg.usages| && cfg.usages[j].reportId == id ==>
      SumFits(cfg.fields, cfg.usages[j], prev, report)
  }

  /** One usage's turn in the second loop. */
  function AddField(f: FieldAccess, u: Usage, prev: seq<Octet>, report: seq<Octet>): seq<Octet> {
    if f.read(u, report) == 0 then prev else f.write(u, prev, f.read(u, report) + f.read(u, prev))
  }

  /** The second loop of `aggregate_relative`, from usage j on. */
  function AggregateFrom(cfg: Config, id: nat, prev: seq<Octet>, report: seq<Octet>, j: nat): (r: seq<Octet>)
    requires ShapeOk(cfg) && j <= |cfg.usages|
    ensures |r| == |prev|
    decreases |cfg.usages| - j
  {
    if j == |cfg.usages| then prev
    else
      AggregateFrom(cfg, id,
                    if cfg.usages[j].reportId == id then AddField(cfg.fields, cfg.usages[j], prev, report) else prev,
                    report, j + 1)
  }

  /** The tail may take this report in. */
  predicate Merges(cfg: Config, p: Pipe, id: nat)
    requires ShapeOk(cfg) && PipeOk(cfg, p) && id < |cfg.layouts|
  {
    && p.queue != []
    && p.queue[|p.queue| - 1].id == id
    && assert ReportOk(cfg, p.queue[|p.queue| - 1]);
       Absolute(cfg, id, p.queue[|p.queue| - 1].data) == Absolute(cfg, id, p.working[id])
    && AggregateFits(cfg, id, p.queue[|p.queue| - 1].data, p.working[id])
  }

  function Merged(cfg: Config, p: Pipe, id: nat): (r: Pipe)
    requires ShapeOk(cfg) && PipeOk(cfg, p) && id < |cfg.layouts| && Merges(cfg, p, id)
    ensures PipeOk(cfg, r)
  {
    var n := |p.queue| - 1;
    assert ReportOk(cfg, p.queue[n]);
    p.(queue := p.queue[n := Report(id, AggregateFrom(cfg, id, p.queue[n].data, p.working[id], 0))])
  }

  function Pushed(cfg: Config, p: Pipe, id: nat): (r: Pipe)
    requires ShapeOk(cfg) && PipeOk(cfg, p) && id < |cfg.layouts| && |p.queue| < OR_BUFSIZE
    ensures PipeOk(cfg, r)
  {
    p.(queue := p.queue + [Report(id, p.working[id])], prev := p.prev[id := p.working[id]])
  }

  function Cleared(cfg: Config, p: Pipe, id: nat): (r: Pipe)
    requires ShapeOk(cfg) && PipeOk(cfg, p) && id < |cfg.layouts|
    ensures PipeOk(cfg, r)
  {
    p.(working := p.working[id := Blank(Size(cfg, id))])
  }

  predicate Due(cfg: Config, p: Pipe, id: nat)
    requires ShapeOk(cfg) && PipeOk(cfg, p) && id < |cfg.layouts|
  {
    NeedsToBeSent(cfg.layouts[id], p.working[id], p.prev[id])
  }

  /** The report must be queued and the ring is full: the frame ends here. */
  predicate Overflows(cfg: Config, p: Pipe, id: nat)
    requires ShapeOk(cfg) && PipeOk(cfg, p) && id < |cfg.layouts|
  {
    Due(cfg, p, id) && |p.queue| == OR_BUFSIZE
  }

  /** One report id's turn, when it can be completed. */
  function QueueOne(cfg: Config, p: Pipe, id: nat): (r: Pipe)
    requires ShapeOk(cfg) && PipeOk(cfg, p) && id < |cfg.layouts| && !Overflows(cfg, p, id)
    ensures PipeOk(cfg, r)
  {
    var queued :=
      if !Due(cfg, p, id) then p
      else if Merges(cfg, p, id) then Merged(cfg, p, id)
      else Pushed(cfg, p, id);
    Cleared(cfg, queued, id)
  }

  function QueueFrom(cfg: Config, p: Pipe, i: nat): (r: Pipe)
    requires ShapeOk(cfg) && PipeOk(cfg, p) && i <= |cfg.reportIds|
    ensures PipeOk(cfg, r)
    decreases |cfg.reportIds| - i
  {
    if i == |cfg.reportIds| || Overflows(cfg, p, cfg.reportIds[i]) then p
    else QueueFrom(cfg, QueueOne(cfg, p, cfg.reportIds[i]), i + 1)
  }

  /** The end of `process_mapping`. */
  function EndFrame(cfg: Config, p: Pipe): (r: Pipe)
    requires ShapeOk(cfg) && PipeOk(cfg, p)
    ensures PipeOk(cfg, r)
  {
    QueueFrom(cfg, MoveFrom(cfg, p, 0), 0)
  }

  // ---- merging adds every field -----------------------------------------------------------

  /** Writing one usage's field is invisible to another's. */
  lemma ReadElsewhere(cfg: Config, j: nat, k: nat, data: seq<Octet>, value: int)
    requires ConfigOk(cfg) && j < |cfg.usages| && k < |cfg.usages| && j != k
    requires cfg.usages[j].reportId == cfg.usages[k].reportId
    ensures var f := cfg.fields;
            f.read(cfg.usages[k], f.write(cfg.usages[j], data, value)) == f.read(cfg.usages[k], data)
  {
    if j < k {
      assert Independent(cfg, cfg.usages[j], cfg.usages[k]);
    } else {
      assert Independent(cfg, cfg.usages[k], cfg.usages[j]);
    }
  }

  ghost predicate SumsFitFrom(cfg: Config, id: nat, prev: seq<Octet>, report: seq<Octet>, j: nat) {
    forall i :: j <= i < |cfg.usages| && cfg.usages[i].reportId == id ==>
      SumFits(cfg.fields, cfg.usages[i], prev, report)
  }

  /** One turn of the second loop, seen from any usage of the report. */
  lemma AddFieldSeen(cfg: Config, j: nat, k: nat, prev: seq<Octet>, report: seq<Octet>)
    requires ConfigOk(cfg) && j < |cfg.usages| && k < |cfg.usages|
    requires cfg.usages[j].reportId == cfg.usages[k].reportId
    requires |prev| == Size(cfg, cfg.usages[j].reportId)
             && (j == k ==> SumFits(cfg.fields, cfg.usages[j], prev, report))
    ensures var f := cfg.fields;
            f.read(cfg.usages[k], AddField(f, cfg.usages[j], prev, report))
            == f.read(cfg.usages[k], prev) + (if j == k then f.read(cfg.usages[k], report) else 0)
  {
    var f, u := cfg.fields, cfg.usages[j];
    assert FieldLaws(cfg, u);
    if j != k {
      ReadElsewhere(cfg, j, k, prev, f.read(u, report) + f.read(u, prev));
    }
  }

  lemma SumsFitNext(cfg: Config, id: nat, prev: seq<Octet>, report: seq<Octet>, j: nat)
    requires ConfigOk(cfg) && j < |cfg.usages| && cfg.usages[j].reportId == id && |prev| == Size(cfg, id)
    requires SumsFitFrom(cfg, id, prev, report, j)
    ensures SumsFitFrom(cfg, id, AddField(cfg.fields, cfg.usages[j], prev, report), report, j + 1)
  {
    forall i | j + 1 <= i < |cfg.usages| && cfg.usages[i].reportId == id
      ensures SumFits(cfg.fields, cfg.usages[i], AddField(cfg.fields, cfg.usages[j], prev, report), report)
    {
      AddFieldSeen(cfg, j, i, prev, report);
      assert SumFits(cfg.fields, cfg.usages[i], prev, report);
    }
  }

  /** Merging adds, field by field. */
  lemma {:induction false} AggregateAdds(cfg: Config, id: nat, prev: seq<Octet>, report: seq<Octet>, j: nat, k: nat)
    requires ConfigOk(cfg) && id < |cfg.layouts| && |prev| == Size(cfg, id)
    requires j <= |cfg.usages| && k < |cfg.usages| && cfg.usages[k].reportId == id
    requires SumsFitFrom(cfg, id, prev, report, j)
    ensures var f, u := cfg.fields, cfg.usages[k];
            f.read(u, AggregateFrom(cfg, id, prev, report, j))
            == f.read(u, prev) + (if j <= k then f.read(u, report) else 0)
    decreases |cfg.usages| - j
  {
    if j < |cfg.usages| {
      assert FieldLaws(cfg, cfg.usages[j]);
      if cfg.usages[j].reportId == id {
        SumsFitNext(cfg, id, prev, report, j);
        AggregateAdds(cfg, id, AddField(cfg.fields, cfg.usages[j], prev, report), report, j + 1, k);
        AddFieldSeen(cfg, j, k, prev, report);
      } else {
        AggregateAdds(cfg, id, prev, report, j + 1, k);
      }
    }
  }

  lemma {:induction false} AggregateKeepsAbsolute(cfg: Config, id: nat, prev: seq<Octet>, report: seq<Octet>, j: nat)
    requires ConfigOk(cfg) && id < |cfg.layouts| && |prev| == Size(cfg, id) && j <= |cfg.usages|
    ensures Absolute(cfg, id, AggregateFrom(cfg, id, prev, report, j)) == Absolute(cfg, id, prev)
    decreases |cfg.usages| - j
  {
    if j < |cfg.usages| {
      assert FieldLaws(cfg, cfg.usages[j]);
      if cfg.usages[j].reportId == id {
        AggregateKeepsAbsolute(cfg, id, AddField(cfg.fields, cfg.usages[j], prev, report), report, j + 1);
      } else {
        AggregateKeepsAbsolute(cfg, id, prev, report, j + 1);
      }
    }
  }

  // ---- moving loses nothing that is kept ------------------------------------------------------

  /** What usage j's turn loses. */
  function Loss(cfg: Config, p: Pipe, j: nat): int
    requires ShapeOk(cfg) && PipeOk(cfg, p) && j < |cfg.usages|
  {
    FieldLoss(cfg.fields, cfg.usages[j], p.working[cfg.usages[j].reportId], p.acc[j])
  }

  /** A usage's movement not yet sent: in its working report and in the queue. */
  function WorkingValue(cfg: Config, p: Pipe, k: nat): int
    requires ShapeOk(cfg) && PipeOk(cfg, p) && k < |cfg.usages|
  {
    cfg.fields.read(cfg.usages[k], p.working[cfg.usages[k].reportId])
  }

  lemma MoveOneBalances(cfg: Config, p: Pipe, j: nat, k: nat)
    requires ConfigOk(cfg) && PipeOk(cfg, p) && j < |cfg.usages| && k < |cfg.usages|
    ensures var r := MoveOne(cfg, p, j);
            1000 * (WorkingValue(cfg, r, k) + (if j == k then Loss(cfg, p, j) else 0)) + r.acc[k]
            == 1000 * WorkingValue(cfg, p, k) + p.acc[k]
  {
    var f, u := cfg.fields, cfg.usages[j];
    assert FieldLaws(cfg, u);
    if j != k && u.reportId == cfg.usages[k].reportId {
      ReadElsewhere(cfg, j, k, p.working[u.reportId], f.read(u, p.working[u.reportId]) + Thousandths(p.acc[j]));
    }
  }

  lemma RemainderIsSmall(a: int)
    ensures -1000 < Remainder(a, 1000) < 1000
  {
  }

  lemma MoveOneRemainder(cfg: Config, p: Pipe, j: nat)
    requires ShapeOk(cfg) && PipeOk(cfg, p) && j < |cfg.usages|
    ensures -1000 < MoveOne(cfg, p, j).acc[j] < 1000
  {
    RemainderIsSmall(p.acc[j]);
  }

  /** Movement does not touch the absolute state of any report. */
  lemma MoveOneKeepsState(cfg: Config, p: Pipe, j: nat, id: nat)
    requires ConfigOk(cfg) && PipeOk(cfg, p) && j < |cfg.usages| && id < |cfg.layouts|
    ensures Absolute(cfg, id, MoveOne(cfg, p, j).working[id]) == Absolute(cfg, id, p.working[id])
  {
    assert FieldLaws(cfg, cfg.usages[j]);
  }

  // ---- queueing loses nothing ------------------------------------------------------------------

  /** A usage's movement in a sequence of reports. */
  function FieldSum(f: FieldAccess, u: Usage, rs: seq<Report>): int {
    if rs == [] then 0
    else FieldSum(f, u, rs[..|rs| - 1]) + (if rs[|rs| - 1].id == u.reportId then f.read(u, rs[|rs| - 1].data) else 0)
  }

  lemma FieldSumSnoc(f: FieldAccess, u: Usage, rs: seq<Report>, r: Report)
    ensures FieldSum(f, u, rs + [r]) == FieldSum(f, u, rs) + (if r.id == u.reportId then f.read(u, r.data) else 0)
  {
    assert (rs + [r])[..|rs|] == rs;
  }

  lemma {:induction false} FieldSumCons(f: FieldAccess, u: Usage, rs: seq<Report>)
    requires rs != []
    ensures FieldSum(f, u, rs)
         == (if rs[0].id == u.reportId then f.read(u, rs[0].data) else 0) + FieldSum(f, u, rs[1..])
  {
    var n := |rs| - 1;
    if n > 0 {
      FieldSumCons(f, u, rs[..n]);
      assert rs[1..][..n - 1] == rs[..n][1..];
    } else {
      assert rs[..0] == [] && rs[1..] == [];
    }
  }

  function InFlight(cfg: Config, p: Pipe, k: nat): int
    requires ShapeOk(cfg) && PipeOk(cfg, p) && k < |cfg.usages|
  {
    WorkingValue(cfg, p, k) + FieldSum(cfg.fields, cfg.usages[k], p.queue)
  }

  lemma BlankIsStill(mask: seq<Octet>)
    ensures Still(Blank(|mask|), mask)
  {
    forall i | 0 <= i < |mask|
      ensures Blank(|mask|)[i] & mask[i] == 0
    {
      NothingInZero(mask[i]);
    }
  }

  /** A report that needs no sending holds no movement and no new state. */
  lemma NotDueIsStill(cfg: Config, p: Pipe, id: nat)
    requires ShapeOk(cfg) && PipeOk(cfg, p) && id < |cfg.layouts| && !Due(cfg, p, id)
    ensures Still(p.working[id], cfg.layouts[id].relative)
    ensures Absolute(cfg, id, p.working[id]) == Absolute(cfg, id, p.prev[id])
  {
  }

  lemma ClearedValue(cfg: Config, p: Pipe, id: nat, k: nat)
    requires ConfigOk(cfg) && PipeOk(cfg, p) && id < |cfg.layouts| && k < |cfg.usages|
    ensures WorkingValue(cfg, Cleared(cfg, p, id), k)
         == if cfg.usages[k].reportId == id then 0 else WorkingValue(cfg, p, k)
  {
    assert FieldLaws(cfg, cfg.usages[k]);
    BlankIsStill(cfg.layouts[id].relative);
  }

  lemma MergedSum(cfg: Config, p: Pipe, id: nat, k: nat)
    requires ConfigOk(cfg) && PipeOk(cfg, p) && id < |cfg.layouts| && k < |cfg.usages| && Merges(cfg, p, id)
    ensures FieldSum(cfg.fields, cfg.usages[k], Merged(cfg, p, id).queue)
         == FieldSum(cfg.fields, cfg.usages[k], p.queue)
            + (if cfg.usages[k].reportId == id then WorkingValue(cfg, p, k) else 0)
  {
    var f, u, n := cfg.fields, cfg.usages[k], |p.queue| - 1;
    var tail := p.queue[n];
    assert ReportOk(cfg, tail);
    var grown := Report(id, AggregateFrom(cfg, id, tail.data, p.working[id], 0));
    assert p.queue == p.queue[..n] + [tail];
    assert Merged(cfg, p, id).queue == p.queue[..n] + [grown];
    FieldSumSnoc(f, u, p.queue[..n], tail);
    FieldSumSnoc(f, u, p.queue[..n], grown);
    if u.reportId == id {
      AggregateAdds(cfg, id, tail.data, p.working[id], 0, k);
    }
  }

  /** One report id's turn, merged, queued or not needed, loses and invents no movement. */
  lemma QueueOneConserves(cfg: Config, p: Pipe, id: nat, k: nat)
    requires ConfigOk(cfg) && PipeOk(cfg, p) && id < |cfg.layouts| && k < |cfg.usages| && !Overflows(cfg, p, id)
    ensures InFlight(cfg, QueueOne(cfg, p, id), k) == InFlight(cfg, p, k)
    ensures QueueOne(cfg, p, id).acc == p.acc
  {
    hide FieldSum, Merges;
    if !Due(cfg, p, id) {
      NotDueIsStill(cfg, p, id);
      assert FieldLaws(cfg, cfg.usages[k]);
      ClearedValue(cfg, p, id, k);
    } else if Merges(cfg, p, id) {
      MergedSum(cfg, p, id, k);
      ClearedValue(cfg, Merged(cfg, p, id), id, k);
    } else {
      FieldSumSnoc(cfg.fields, cfg.usages[k], p.queue, Report(id, p.working[id]));
      ClearedValue(cfg, Pushed(cfg, p, id), id, k);
    }
  }
}
