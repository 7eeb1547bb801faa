/** When a report takes a place of its own in the queue, and when it joins the newest one: in terms of the reports'
    bytes and fields alone. */
module PipelineMerging {
  import opened Bytes
  import opened Sequences
  import opened ReportBits
  import opened ReportPipeline
  import opened PipelineRuns
  import opened PipelineOrder

  /** The working report holds movement, or a state other than the one last queued. */
  ghost predicate HasNews(cfg: Config, p: Pipe, id: nat)
    requires ShapeOk(cfg) && PipeOk(cfg, p) && id < |cfg.layouts|
  {
    exists i :: 0 <= i < Size(cfg, id) &&
      (p.working[id][i] & cfg.layouts[id].relative[i] != 0
       || p.working[id][i] & cfg.layouts[id].absolute[i] != p.prev[id][i] & cfg.layouts[id].absolute[i])
  }

  /** The newest queued report has this id, the same buttons and keys, and room for the movement in every field. */
  ghost predicate FitsTail(cfg: Config, p: Pipe, id: nat)
    requires ShapeOk(cfg) && PipeOk(cfg, p) && id < |cfg.layouts|
  {
    p.queue != [] &&
    var tail, report, f := p.queue[|p.queue| - 1], p.working[id], cfg.fields;
    && tail.id == id && |tail.data| == |report|
    && (forall i :: 0 <= i < |report| ==>
          tail.data[i] & cfg.layouts[id].absolute[i] == report[i] & cfg.layouts[id].absolute[i])
    && (forall j :: 0 <= j < |cfg.usages| && cfg.usages[j].reportId == id ==>
          var u := cfg.usages[j]; u.logicalMinimum <= f.read(u, tail.data) + f.read(u, report) <= u.logicalMaximum)
  }

  lemma DueExactly(cfg: Config, p: Pipe, id: nat)
    requires ShapeOk(cfg) && PipeOk(cfg, p) && id < |cfg.layouts|
    ensures Due(cfg, p, id) <==> HasNews(cfg, p, id)
  {
    if HasNews(cfg, p, id) {
      var i :| 0 <= i < Size(cfg, id) &&
        (p.working[id][i] & cfg.layouts[id].relative[i] != 0
         || p.working[id][i] & cfg.layouts[id].absolute[i] != p.prev[id][i] & cfg.layouts[id].absolute[i]);
      assert Shows(p.working[id][i], p.prev[id][i], cfg.layouts[id].relative[i], cfg.layouts[id].absolute[i]);
    }
  }

  lemma MergesExactly(cfg: Config, p: Pipe, id: nat)
    requires ShapeOk(cfg) && PipeOk(cfg, p) && id < |cfg.layouts|
    ensures Merges(cfg, p, id) <==> FitsTail(cfg, p, id)
  {
    if p.queue != [] && p.queue[|p.queue| - 1].id == id {
      var tail, report := p.queue[|p.queue| - 1].data, p.working[id];
      assert ReportOk(cfg, p.queue[|p.queue| - 1]);
      SameMasked(tail, report, cfg.layouts[id].absolute);
      FitsExactly(cfg, id, tail, report);
    }
  }

  lemma SameMasked(a: seq<Octet>, b: seq<Octet>, mask: seq<Octet>)
    requires |a| == |b| == |mask|
    ensures Masked(a, mask) == Masked(b, mask) <==> forall i :: 0 <= i < |a| ==> a[i] & mask[i] == b[i] & mask[i]
  {
    if Masked(a, mask) == Masked(b, mask) {
      forall i | 0 <= i < |a|
        ensures a[i] & mask[i] == b[i] & mask[i]
      {
        assert Masked(a, mask)[i] == Masked(b, mask)[i];
      }
    }
  }

  lemma FitsExactly(cfg: Config, id: nat, prev: seq<Octet>, report: seq<Octet>)
    ensures AggregateFits(cfg, id, prev, report) <==>
            forall j :: 0 <= j < |cfg.usages| && cfg.usages[j].reportId == id ==>
              var u, f := cfg.usages[j], cfg.fields;
              u.logicalMinimum <= f.read(u, prev) + f.read(u, report) <= u.logicalMaximum
  {
  }

  /** With room in the ring of eight, a report id's turn takes a place exactly when the report has news that the newest
      queued report cannot take in; every report before that one stays as it is, and the working report is cleared. */
  lemma TakesPlaceExactly(cfg: Config, p: Pipe, id: nat)
    requires ShapeOk(cfg) && PipeOk(cfg, p) && id < |cfg.layouts| && |p.queue| < 8
    ensures !Overflows(cfg, p, id)
    ensures var q, n := QueueOne(cfg, p, id).queue, |p.queue|;
            && (HasNews(cfg, p, id) && !FitsTail(cfg, p, id) ==> q == p.queue + [Report(id, p.working[id])])
            && (!HasNews(cfg, p, id) ==> q == p.queue)
            && (FitsTail(cfg, p, id) ==> |q| == n && q[..n - 1] == p.queue[..n - 1] && q[n - 1].id == id)
    ensures var r, cleared := QueueOne(cfg, p, id), seq(|p.working[id]|, _ => 0 as Octet);
            && r.working == p.working[id := cleared] && r.acc == p.acc
            && r.prev == if HasNews(cfg, p, id) && !FitsTail(cfg, p, id) then p.prev[id := p.working[id]] else p.prev
  {
    hide Merges, Due, HasNews, FitsTail, AggregateFrom;
    DueExactly(cfg, p, id);
    MergesExactly(cfg, p, id);
    if FitsTail(cfg, p, id) {
      TailOfFitting(cfg, p, id);
    }
  }

  lemma TailOfFitting(cfg: Config, p: Pipe, id: nat)
    requires ShapeOk(cfg) && PipeOk(cfg, p) && id < |cfg.layouts| && FitsTail(cfg, p, id)
    ensures p.queue != [] && p.queue[|p.queue| - 1].id == id
  {
  }

  /** A report with news finds the ring full exactly when eight are queued; then nothing changes, mergeable or not. */
  lemma FullExactly(cfg: Config, p: Pipe, id: nat)
    requires ShapeOk(cfg) && PipeOk(cfg, p) && id < |cfg.layouts|
    ensures Overflows(cfg, p, id) <==> HasNews(cfg, p, id) && |p.queue| == 8
  {
    DueExactly(cfg, p, id);
  }

  // ---- frames -----------------------------------------------------------------------------------------

  /** From number i on, the only report ids with news are those that join the newest queued report. */
  ghost predicate OnlyJoin(cfg: Config, p: Pipe, i: nat)
    requires ShapeOk(cfg) && PipeOk(cfg, p)
  {
    forall x :: i <= x < |cfg.reportIds| ==>
      HasNews(cfg, p, cfg.reportIds[x]) ==> FitsTail(cfg, p, cfg.reportIds[x])
  }

  lemma TurnElsewhere(cfg: Config, p: Pipe, turn: nat, id: nat)
    requires ShapeOk(cfg) && PipeOk(cfg, p) && turn < |cfg.layouts| && id < |cfg.layouts| && id != turn
    requires !Overflows(cfg, p, turn)
    ensures QueueOne(cfg, p, turn).working[id] == p.working[id] && QueueOne(cfg, p, turn).prev[id] == p.prev[id]
  {
    hide Due, Merges, AggregateFrom;
  }

  lemma ElsewhereNews(cfg: Config, p: Pipe, turn: nat, id: nat)
    requires ShapeOk(cfg) && PipeOk(cfg, p) && turn < |cfg.layouts| && id < |cfg.layouts| && id != turn
    requires !Overflows(cfg, p, turn)
    ensures HasNews(cfg, QueueOne(cfg, p, turn), id) <==> HasNews(cfg, p, id)
    ensures QueueOne(cfg, p, turn).queue == p.queue && FitsTail(cfg, p, id) ==>
              FitsTail(cfg, QueueOne(cfg, p, turn), id)
  {
    hide QueueOne, Overflows;
    TurnElsewhere(cfg, p, turn, id);
  }

  lemma TurnOnlyJoins(cfg: Config, p: Pipe, i: nat)
    requires ShapeOk(cfg) && PipeOk(cfg, p) && DistinctIds(cfg) && i < |cfg.reportIds| && OnlyJoin(cfg, p, i)
    requires !Overflows(cfg, p, cfg.reportIds[i])
    ensures var q := QueueOne(cfg, p, cfg.reportIds[i]); |q.queue| == |p.queue| && OnlyJoin(cfg, q, i + 1)
  {
    hide HasNews, FitsTail, QueueOne, Overflows;
    var id := cfg.reportIds[i];
    var q := QueueOne(cfg, p, id);
    if |p.queue| < 8 {
      TakesPlaceExactly(cfg, p, id);
    } else {
      FullExactly(cfg, p, id);
      QuietTurn(cfg, p, id);
    }
    forall x | i < x < |cfg.reportIds| && HasNews(cfg, q, cfg.reportIds[x])
      ensures FitsTail(cfg, q, cfg.reportIds[x])
    {
      ElsewhereNews(cfg, p, id, cfg.reportIds[x]);
      if HasNews(cfg, p, id) {
        TailOfFitting(cfg, p, id);
        TailOfFitting(cfg, p, cfg.reportIds[x]);
      }
    }
  }

  lemma QuietTurn(cfg: Config, p: Pipe, id: nat)
    requires ShapeOk(cfg) && PipeOk(cfg, p) && id < |cfg.layouts| && !HasNews(cfg, p, id) && !Overflows(cfg, p, id)
    ensures QueueOne(cfg, p, id).queue == p.queue
  {
    hide HasNews;
    DueExactly(cfg, p, id);
  }

  lemma {:induction false} TurnsOnlyJoin(cfg: Config, p: Pipe, i: nat)
    requires ShapeOk(cfg) && PipeOk(cfg, p) && DistinctIds(cfg) && i <= |cfg.reportIds| && OnlyJoin(cfg, p, i)
    ensures |QueueFrom(cfg, p, i).queue| == |p.queue|
    decreases |cfg.reportIds| - i
  {
    hide OnlyJoin, QueueOne, Overflows;
    if i < |cfg.reportIds| && !Overflows(cfg, p, cfg.reportIds[i]) {
      TurnOnlyJoins(cfg, p, i);
      TurnsOnlyJoin(cfg, QueueOne(cfg, p, cfg.reportIds[i]), i + 1);
    }
  }

  // ---- runs while the endpoint refuses ------------------------------------------------------------------

  /** From event n on, the endpoint takes nothing, and every frame, its movement moved in, only joins. */
  ghost predicate OnlyJoining(cfg: Config, es: seq<Event>, n: nat)
    requires ShapeOk(cfg)
    decreases |es|
  {
    |es| <= n ||
    var before, e := es[..|es| - 1], es[|es| - 1];
    && OnlyJoining(cfg, before, n)
    && e != Send(true)
    && (e.Frame? ==> OnlyJoin(cfg, MoveFrom(cfg, After(cfg, before).pipe, 0), 0))
  }

  /** However many frames go by while the endpoint refuses, movement with unchanged buttons and every sum in range takes
      no further place in the ring. */
  lemma {:induction false} SteadyMotionTakesNoPlace(cfg: Config, es: seq<Event>, n: nat)
    requires ShapeOk(cfg) && DistinctIds(cfg) && n <= |es| && OnlyJoining(cfg, es, n)
    ensures |After(cfg, es).pipe.queue| == |After(cfg, es[..n]).pipe.queue|
    decreases |es|
  {
    if |es| == n {
      assert es[..n] == es;
    } else {
      hide OnlyJoin, QueueFrom, MoveFrom;
      var before, e := es[..|es| - 1], es[|es| - 1];
      SteadyMotionTakesNoPlace(cfg, before, n);
      assert before[..n] == es[..n];
      if e.Frame? {
        var p := After(cfg, before).pipe;
        MoveFromKeeps(cfg, p, 0);
        TurnsOnlyJoin(cfg, MoveFrom(cfg, p, 0), 0);
      }
    }
  }

  // ---- a pointer moving while the endpoint refuses -------------------------------------------------------

  /** The report of usage j is the newest in the queue with the buttons that `data` has; nothing else moves or changes.
      */
  ghost predicate OnlyPointer(cfg: Config, p: Pipe, j: nat, data: seq<Octet>) {
    && ShapeOk(cfg) && PipeOk(cfg, p) && DistinctIds(cfg) && j < |cfg.usages|
    && var id, n := cfg.usages[j].reportId, |p.queue|;
    && |data| == Size(cfg, id) && Still(data, cfg.layouts[id].relative)
    && SameButtons(cfg, id, p.prev[id], data)
    && 0 < n < 8 && p.queue[n - 1].id == id && SameButtons(cfg, id, p.queue[n - 1].data, data)
    && (forall x :: 0 <= x < |cfg.reportIds| && cfg.reportIds[x] != id ==> Idle(cfg, p, cfg.reportIds[x]))
    && p.acc[j] == 0 && OthersStill(cfg, p, j)
    && (forall k :: 0 <= k < |cfg.usages| && k != j && cfg.usages[k].reportId == id ==>
          InRange(cfg.usages[k], cfg.fields.read(cfg.usages[k], p.queue[n - 1].data)))
  }

  ghost predicate SameButtons(cfg: Config, id: nat, a: seq<Octet>, b: seq<Octet>) {
    && ShapeOk(cfg) && id < |cfg.layouts| && |a| == |b| == Size(cfg, id)
    && forall i :: 0 <= i < |a| ==> a[i] & cfg.layouts[id].absolute[i] == b[i] & cfg.layouts[id].absolute[i]
  }

  ghost predicate Idle(cfg: Config, p: Pipe, id: nat)
    requires ShapeOk(cfg) && PipeOk(cfg, p) && id < |cfg.layouts|
  {
    !HasNews(cfg, p, id) && p.working[id] == Blank(Size(cfg, id))
  }

  /** No other usage has a whole unit to move. */
  ghost predicate OthersStill(cfg: Config, p: Pipe, j: nat)
    requires PipeOk(cfg, p)
  {
    forall k :: 0 <= k < |cfg.usages| && k != j ==> -1000 < p.acc[k] < 1000
  }

  predicate InRange(u: Usage, v: int) {
    u.logicalMinimum <= v <= u.logicalMaximum
  }

  /** The pointer moves by d units, the buttons are written, and the frame ends. */
  function Moved(cfg: Config, p: Pipe, j: nat, data: seq<Octet>, d: int): (r: Pipe)
    requires ShapeOk(cfg) && PipeOk(cfg, p) && j < |cfg.usages| && |data| == Size(cfg, cfg.usages[j].reportId)
    ensures PipeOk(cfg, r)
  {
    EndFrame(cfg, p.(acc := p.acc[j := p.acc[j] + 1000 * d], working := p.working[cfg.usages[j].reportId := data]))
  }

  lemma {:induction false} OthersDoNotMove(cfg: Config, p: Pipe, j: nat, i: nat)
    requires ShapeOk(cfg) && PipeOk(cfg, p) && i <= |cfg.usages| && j < |cfg.usages| && OthersStill(cfg, p, j)
    ensures MoveFrom(cfg, p, i) == if i <= j then MoveOne(cfg, p, j) else p
    decreases |cfg.usages| - i
  {
    if i < |cfg.usages| {
      if i == j {
        var q := MoveOne(cfg, p, j);
        OthersDoNotMove(cfg, q, j, i + 1);
      } else {
        StillStays(cfg, p, i);
        OthersDoNotMove(cfg, p, j, i + 1);
      }
    }
  }

  lemma StillStays(cfg: Config, p: Pipe, k: nat)
    requires ShapeOk(cfg) && PipeOk(cfg, p) && k < |cfg.usages| && -1000 < p.acc[k] < 1000
    ensures MoveOne(cfg, p, k) == p
  {
    assert p.acc[k := p.acc[k]] == p.acc;
    var id := cfg.usages[k].reportId;
    assert p.working[id := p.working[id]] == p.working;
  }

  lemma IdleTurn(cfg: Config, p: Pipe, id: nat)
    requires ShapeOk(cfg) && PipeOk(cfg, p) && id < |cfg.layouts| && Idle(cfg, p, id)
    ensures !Overflows(cfg, p, id) && QueueOne(cfg, p, id) == p
  {
    hide Due, Merges, HasNews;
    DueExactly(cfg, p, id);
    assert p.working[id := p.working[id]] == p.working;
  }

  ghost predicate IdleFrom(cfg: Config, p: Pipe, id: nat, i: nat)
    requires ShapeOk(cfg) && PipeOk(cfg, p)
  {
    forall x :: i <= x < |cfg.reportIds| && cfg.reportIds[x] != id ==> Idle(cfg, p, cfg.reportIds[x])
  }

  /** With all others idle, a frame is the one report's turn. */
  lemma {:induction false} OnlyOneTurn(cfg: Config, p: Pipe, y: nat, i: nat)
    requires ShapeOk(cfg) && PipeOk(cfg, p) && DistinctIds(cfg) && y < |cfg.reportIds| && i <= |cfg.reportIds|
    requires !Overflows(cfg, p, cfg.reportIds[y]) && IdleFrom(cfg, p, cfg.reportIds[y], i)
    ensures QueueFrom(cfg, p, i) == if i <= y then QueueOne(cfg, p, cfg.reportIds[y]) else p
    decreases |cfg.reportIds| - i
  {
    hide Idle, Overflows, QueueOne;
    if i < |cfg.reportIds| {
      if i == y {
        IdleRest(cfg, p, y);
        AllIdle(cfg, QueueOne(cfg, p, cfg.reportIds[y]), y + 1);
      } else {
        IdleTurn(cfg, p, cfg.reportIds[i]);
        OnlyOneTurn(cfg, p, y, i + 1);
      }
    }
  }

  lemma IdleRest(cfg: Config, p: Pipe, y: nat)
    requires ShapeOk(cfg) && PipeOk(cfg, p) && DistinctIds(cfg) && y < |cfg.reportIds|
    requires !Overflows(cfg, p, cfg.reportIds[y]) && IdleFrom(cfg, p, cfg.reportIds[y], y)
    ensures forall x :: y < x < |cfg.reportIds| ==> Idle(cfg, QueueOne(cfg, p, cfg.reportIds[y]), cfg.reportIds[x])
  {
    hide HasNews, QueueOne, Overflows;
    forall x | y < x < |cfg.reportIds|
      ensures Idle(cfg, QueueOne(cfg, p, cfg.reportIds[y]), cfg.reportIds[x])
    {
      ElsewhereNews(cfg, p, cfg.reportIds[y], cfg.reportIds[x]);
      TurnElsewhere(cfg, p, cfg.reportIds[y], cfg.reportIds[x]);
      assert Idle(cfg, p, cfg.reportIds[x]);
    }
  }

  lemma {:induction false} AllIdle(cfg: Config, p: Pipe, i: nat)
    requires ShapeOk(cfg) && PipeOk(cfg, p) && i <= |cfg.reportIds|
    requires forall x :: i <= x < |cfg.reportIds| ==> Idle(cfg, p, cfg.reportIds[x])
    ensures QueueFrom(cfg, p, i) == p
    decreases |cfg.reportIds| - i
  {
    hide Idle, Overflows, QueueOne;
    if i < |cfg.reportIds| {
      IdleTurn(cfg, p, cfg.reportIds[i]);
      AllIdle(cfg, p, i + 1);
    }
  }

  /** A field with d units and everything else at rest. */
  ghost predicate OnlyMovement(cfg: Config, j: nat, data: seq<Octet>, d: int) {
    && ShapeOk(cfg) && j < |cfg.usages| && |data| == Size(cfg, cfg.usages[j].reportId)
    && forall k :: 0 <= k < |cfg.usages| && cfg.usages[k].reportId == cfg.usages[j].reportId ==>
         cfg.fields.read(cfg.usages[k], data) == if k == j then d else 0
  }

  lemma WholeUnits(d: int)
    ensures Thousandths(1000 * d) == d && Remainder(1000 * d, 1000) == 0
  {
  }

  lemma UnitsWritten(cfg: Config, j: nat, data: seq<Octet>, d: int)
    requires ConfigOk(cfg) && j < |cfg.usages| && |data| == Size(cfg, cfg.usages[j].reportId)
    requires Still(data, cfg.layouts[cfg.usages[j].reportId].relative) && InRange(cfg.usages[j], d)
    ensures var id, moved := cfg.usages[j].reportId, MoveField(cfg.fields, cfg.usages[j], data, 1000 * d);
            SameButtons(cfg, id, moved, data) && OnlyMovement(cfg, j, moved, d)
  {
    hide Thousandths, Independent, Still;
    var u := cfg.usages[j];
    var id, moved := u.reportId, MoveField(cfg.fields, u, data, 1000 * d);
    assert FieldLaws(cfg, u);
    WholeUnits(d);
    SameMasked(moved, data, cfg.layouts[id].absolute);
    forall k | 0 <= k < |cfg.usages| && cfg.usages[k].reportId == id
      ensures cfg.fields.read(cfg.usages[k], moved) == if k == j then d else 0
    {
      UnitsSeen(cfg, j, k, data, d);
    }
  }

  lemma UnitsSeen(cfg: Config, j: nat, k: nat, data: seq<Octet>, d: int)
    requires ConfigOk(cfg) && j < |cfg.usages| && |data| == Size(cfg, cfg.usages[j].reportId)
    requires Still(data, cfg.layouts[cfg.usages[j].reportId].relative) && InRange(cfg.usages[j], d)
    requires k < |cfg.usages| && cfg.usages[k].reportId == cfg.usages[j].reportId
    ensures cfg.fields.read(cfg.usages[k], MoveField(cfg.fields, cfg.usages[j], data, 1000 * d))
            == if k == j then d else 0
  {
    hide Thousandths, Independent, Still;
    WholeUnits(d);
    assert FieldLaws(cfg, cfg.usages[j]);
    assert FieldLaws(cfg, cfg.usages[k]);
    if k != j && d != 0 {
      ReadElsewhere(cfg, j, k, data, d);
    }
  }

  /** A report of nothing but d units joins a tail with the same buttons and room for them. */
  lemma UnitsJoin(cfg: Config, p: Pipe, j: nat, d: int)
    requires ConfigOk(cfg) && PipeOk(cfg, p) && 0 < |p.queue| < 8 && j < |cfg.usages|
    requires var id, tail := cfg.usages[j].reportId, p.queue[|p.queue| - 1];
             && tail.id == id && OnlyMovement(cfg, j, p.working[id], d)
             && SameButtons(cfg, id, tail.data, p.working[id]) && SameButtons(cfg, id, p.prev[id], p.working[id])
             && forall k :: 0 <= k < |cfg.usages| && cfg.usages[k].reportId == id ==>
                  InRange(cfg.usages[k], cfg.fields.read(cfg.usages[k], tail.data) + if k == j then d else 0)
    ensures var id, n := cfg.usages[j].reportId, |p.queue|;
            !Overflows(cfg, p, id) && Joined(cfg, p, QueueOne(cfg, p, id), j, d)
  {
    hide Merges, HasNews, FitsTail, AggregateFrom;
    var id, n := cfg.usages[j].reportId, |p.queue|;
    FitsBecause(cfg, p, j, d);
    DueExactly(cfg, p, id);
    MergesExactly(cfg, p, id);
    if Due(cfg, p, id) {
      MergedUnits(cfg, p, j, d);
    } else {
      NoNewsNoUnits(cfg, p, j, d);
    }
  }

  /** The newest report's field j has d units more; the rest of the ring and of that report says the same. */
  ghost predicate Joined(cfg: Config, p: Pipe, q: Pipe, j: nat, d: int)
    requires ShapeOk(cfg) && PipeOk(cfg, p) && PipeOk(cfg, q) && j < |cfg.usages| && p.queue != []
  {
    var id, n := cfg.usages[j].reportId, |p.queue|;
    && |q.queue| == n && q.queue[..n - 1] == p.queue[..n - 1] && q.queue[n - 1].id == p.queue[n - 1].id == id
    && SameButtons(cfg, id, q.queue[n - 1].data, p.queue[n - 1].data)
    && q.prev == p.prev
    && forall k :: 0 <= k < |cfg.usages| && cfg.usages[k].reportId == id ==>
         cfg.fields.read(cfg.usages[k], q.queue[n - 1].data)
         == cfg.fields.read(cfg.usages[k], p.queue[n - 1].data) + if k == j then d else 0
  }

  lemma FitsBecause(cfg: Config, p: Pipe, j: nat, d: int)
    requires ConfigOk(cfg) && PipeOk(cfg, p) && 0 < |p.queue| && j < |cfg.usages|
    requires var id, tail := cfg.usages[j].reportId, p.queue[|p.queue| - 1];
             && tail.id == id && OnlyMovement(cfg, j, p.working[id], d)
             && SameButtons(cfg, id, tail.data, p.working[id])
             && forall k :: 0 <= k < |cfg.usages| && cfg.usages[k].reportId == id ==>
                  InRange(cfg.usages[k], cfg.fields.read(cfg.usages[k], tail.data) + if k == j then d else 0)
    ensures FitsTail(cfg, p, cfg.usages[j].reportId)
  {
    hide FieldLaws, Independent;
    var id, tail := cfg.usages[j].reportId, p.queue[|p.queue| - 1];
    forall k | 0 <= k < |cfg.usages| && cfg.usages[k].reportId == id
      ensures InRange(cfg.usages[k],
                      cfg.fields.read(cfg.usages[k], tail.data) + cfg.fields.read(cfg.usages[k], p.working[id]))
    {
    }
  }

  lemma MergedUnits(cfg: Config, p: Pipe, j: nat, d: int)
    requires ConfigOk(cfg) && PipeOk(cfg, p) && j < |cfg.usages|
    requires OnlyMovement(cfg, j, p.working[cfg.usages[j].reportId], d)
    requires Merges(cfg, p, cfg.usages[j].reportId)
    ensures Joined(cfg, p, Merged(cfg, p, cfg.usages[j].reportId), j, d)
  {
    hide FieldLaws, Independent, AggregateFrom;
    var id, n := cfg.usages[j].reportId, |p.queue|;
    assert ReportOk(cfg, p.queue[n - 1]);
    var tail := p.queue[n - 1].data;
    var grown := AggregateFrom(cfg, id, tail, p.working[id], 0);
    AggregateKeepsAbsolute(cfg, id, tail, p.working[id], 0);
    SameMasked(grown, tail, cfg.layouts[id].absolute);
    forall k | 0 <= k < |cfg.usages| && cfg.usages[k].reportId == id
      ensures cfg.fields.read(cfg.usages[k], grown)
              == cfg.fields.read(cfg.usages[k], tail) + if k == j then d else 0
    {
      AggregateAdds(cfg, id, tail, p.working[id], 0, k);
    }
  }

  lemma NoNewsNoUnits(cfg: Config, p: Pipe, j: nat, d: int)
    requires ConfigOk(cfg) && PipeOk(cfg, p) && j < |cfg.usages|
    requires OnlyMovement(cfg, j, p.working[cfg.usages[j].reportId], d)
    requires !Due(cfg, p, cfg.usages[j].reportId)
    ensures d == 0
  {
    var id := cfg.usages[j].reportId;
    assert FieldLaws(cfg, cfg.usages[j]);
    NotDueIsStill(cfg, p, id);
  }

  /** The pipe before the one turn that does anything. */
  function Loaded(cfg: Config, p: Pipe, j: nat, data: seq<Octet>, d: int): (r: Pipe)
    requires ShapeOk(cfg) && PipeOk(cfg, p) && j < |cfg.usages| && |data| == Size(cfg, cfg.usages[j].reportId)
    ensures PipeOk(cfg, r)
  {
    var u := cfg.usages[j];
    p.(acc := p.acc[j := 0], working := p.working[u.reportId := MoveField(cfg.fields, u, data, 1000 * d)])
  }

  lemma LoadedByFrame(cfg: Config, p: Pipe, j: nat, data: seq<Octet>, d: int)
    requires ShapeOk(cfg) && PipeOk(cfg, p) && j < |cfg.usages| && |data| == Size(cfg, cfg.usages[j].reportId)
    requires p.acc[j] == 0 && OthersStill(cfg, p, j)
    ensures Moved(cfg, p, j, data, d) == QueueFrom(cfg, Loaded(cfg, p, j, data, d), 0)
  {
    hide MoveFrom, QueueFrom;
    WholeUnits(d);
    var id := cfg.usages[j].reportId;
    var before := p.(acc := p.acc[j := 1000 * d], working := p.working[id := data]);
    OthersDoNotMove(cfg, before, j, 0);
    assert before.acc[j := 0] == p.acc[j := 0];
    var moved := MoveField(cfg.fields, cfg.usages[j], data, 1000 * d);
    assert before.working[id := moved] == p.working[id := moved];
  }

  lemma QuietElsewhere(cfg: Config, p: Pipe, q: Pipe, id: nat)
    requires ShapeOk(cfg) && PipeOk(cfg, p) && PipeOk(cfg, q) && IdleFrom(cfg, p, id, 0)
    requires forall x :: 0 <= x < |cfg.layouts| && x != id ==> q.working[x] == p.working[x] && q.prev[x] == p.prev[x]
    ensures IdleFrom(cfg, q, id, 0)
  {
    forall x | 0 <= x < |cfg.reportIds| && cfg.reportIds[x] != id
      ensures Idle(cfg, q, cfg.reportIds[x])
    {
      assert Idle(cfg, p, cfg.reportIds[x]);
    }
  }

  lemma TurnKeepsRest(cfg: Config, p: Pipe, id: nat)
    requires ShapeOk(cfg) && PipeOk(cfg, p) && id < |cfg.layouts| && !Overflows(cfg, p, id)
    ensures QueueOne(cfg, p, id).acc == p.acc
    ensures IdleFrom(cfg, p, id, 0) ==> IdleFrom(cfg, QueueOne(cfg, p, id), id, 0)
  {
    hide IdleFrom, AggregateFrom, Due, Merges;
    if IdleFrom(cfg, p, id, 0) {
      QuietElsewhere(cfg, p, QueueOne(cfg, p, id), id);
    }
  }

  /** A frame in which the pointer moves by d units, with unchanged buttons, joins the newest queued report. */
  lemma FrameOfUnits(cfg: Config, p: Pipe, j: nat, data: seq<Octet>, d: int)
    requires ConfigOk(cfg) && OnlyPointer(cfg, p, j, data) && cfg.usages[j].reportId in cfg.reportIds
    requires InRange(cfg.usages[j], d) && InRange(cfg.usages[j], Newest(cfg, p, j) + d)
    ensures var q := Moved(cfg, p, j, data, d); OnlyPointer(cfg, q, j, data) && Joined(cfg, p, q, j, d)
  {
    hide Moved, Idle, QueueOne, QueueFrom, Overflows, FieldLaws, Independent, MoveField, Still, DistinctIds, Blank;
    var id := cfg.usages[j].reportId;
    var y :| 0 <= y < |cfg.reportIds| && cfg.reportIds[y] == id;
    var loaded := Loaded(cfg, p, j, data, d);
    LoadedByFrame(cfg, p, j, data, d);
    UnitsWritten(cfg, j, data, d);
    UnitsJoin(cfg, loaded, j, d);
    QuietElsewhere(cfg, p, loaded, id);
    OnlyOneTurn(cfg, loaded, y, 0);
    TurnKeepsRest(cfg, loaded, id);
  }

  // As a run.

  /** Frame by frame, the pointer moves by so many units, the buttons are those of `data`, and the endpoint refuses. */
  function Movement(j: nat, id: nat, data: seq<Octet>, ds: seq<int>): seq<Event> {
    if ds == [] then []
    else Movement(j, id, data, ds[..|ds| - 1])
         + [Accumulate(j, 1000 * ds[|ds| - 1]), Write(id, data), Frame, Send(false)]
  }

  function Total(ds: seq<int>): int {
    if ds == [] then 0 else Total(ds[..|ds| - 1]) + ds[|ds| - 1]
  }

  /** What the newest queued report has for usage j. */
  function Newest(cfg: Config, p: Pipe, j: nat): int
    requires j < |cfg.usages|
  {
    if p.queue == [] then 0 else cfg.fields.read(cfg.usages[j], p.queue[|p.queue| - 1].data)
  }

  /** Each movement and each partial sum is in the usage's logical range. */
  predicate StaysInRange(u: Usage, start: int, ds: seq<int>) {
    ds == [] ||
    (StaysInRange(u, start, ds[..|ds| - 1]) && InRange(u, ds[|ds| - 1]) && InRange(u, start + Total(ds)))
  }

  /** However often a pointer moves while the endpoint refuses, with unchanged buttons and all partial sums in range,
      its movement stays in one queued report, which holds all of it. */
  lemma MovementIsOneReport(cfg: Config, es: seq<Event>, j: nat, data: seq<Octet>, ds: seq<int>)
    requires ConfigOk(cfg) && OnlyPointer(cfg, After(cfg, es).pipe, j, data)
    requires cfg.usages[j].reportId in cfg.reportIds
    requires StaysInRange(cfg.usages[j], Newest(cfg, After(cfg, es).pipe, j), ds)
    ensures var p, q := After(cfg, es).pipe, After(cfg, es + Movement(j, cfg.usages[j].reportId, data, ds)).pipe;
            Joined(cfg, p, q, j, Total(ds)) && OnlyPointer(cfg, q, j, data)
  {
    MovementJoins(cfg, es, j, data, ds);
  }

  lemma {:induction false} MovementJoins(cfg: Config, es: seq<Event>, j: nat, data: seq<Octet>, ds: seq<int>)
    requires ConfigOk(cfg) && ShapeOk(cfg) && After(cfg, es).pipe.queue != []
    requires OnlyPointer(cfg, After(cfg, es).pipe, j, data)
    requires j < |cfg.usages| && cfg.usages[j].reportId < |cfg.layouts|
    requires |data| == Size(cfg, cfg.usages[j].reportId) && cfg.usages[j].reportId in cfg.reportIds
    requires StaysInRange(cfg.usages[j], Newest(cfg, After(cfg, es).pipe, j), ds)
    ensures var p, q := After(cfg, es).pipe, After(cfg, es + Movement(j, cfg.usages[j].reportId, data, ds)).pipe;
            Joined(cfg, p, q, j, Total(ds)) && OnlyPointer(cfg, q, j, data)
  {
    hide OnlyPointer, Joined, ConfigOk, ShapeOk, After, InRange, Size;
    var id := cfg.usages[j].reportId;
    if ds == [] {
      assert es + Movement(j, id, data, ds) == es;
      NothingJoined(cfg, After(cfg, es).pipe, j, data);
    } else {
      var before, d := ds[..|ds| - 1], ds[|ds| - 1];
      MovementJoins(cfg, es, j, data, before);
      var p, q := After(cfg, es).pipe, After(cfg, es + Movement(j, id, data, before)).pipe;
      JoinedAgain(cfg, p, q, j, data, Total(before), d);
      OneMovementMore(cfg, es, j, data, ds);
    }
  }

  lemma OneMovementMore(cfg: Config, es: seq<Event>, j: nat, data: seq<Octet>, ds: seq<int>)
    requires ShapeOk(cfg) && j < |cfg.usages| && |data| == Size(cfg, cfg.usages[j].reportId) && ds != []
    ensures var id, n := cfg.usages[j].reportId, |ds| - 1;
            After(cfg, es + Movement(j, id, data, ds)).pipe
            == Moved(cfg, After(cfg, es + Movement(j, id, data, ds[..n])).pipe, j, data, ds[n])
  {
    hide After, Moved;
    var id, before, d := cfg.usages[j].reportId, ds[..|ds| - 1], ds[|ds| - 1];
    FourEvents(cfg, es + Movement(j, id, data, before), j, data, d);
    Regroup(es, Movement(j, id, data, before), [Accumulate(j, 1000 * d), Write(id, data), Frame, Send(false)]);
  }

  lemma NothingJoined(cfg: Config, p: Pipe, j: nat, data: seq<Octet>)
    requires OnlyPointer(cfg, p, j, data)
    ensures Joined(cfg, p, p, j, 0)
  {
  }

  lemma JoinedAgain(cfg: Config, p: Pipe, q: Pipe, j: nat, data: seq<Octet>, sum: int, d: int)
    requires ConfigOk(cfg) && OnlyPointer(cfg, p, j, data) && OnlyPointer(cfg, q, j, data)
    requires cfg.usages[j].reportId in cfg.reportIds
    requires Joined(cfg, p, q, j, sum) && InRange(cfg.usages[j], d)
    requires InRange(cfg.usages[j], Newest(cfg, p, j) + (sum + d))
    ensures var r := Moved(cfg, q, j, data, d); OnlyPointer(cfg, r, j, data) && Joined(cfg, p, r, j, sum + d)
  {
    hide Moved, FieldLaws, Independent, Idle;
    FrameOfUnits(cfg, q, j, data, d);
  }

  lemma FourEvents(cfg: Config, es: seq<Event>, j: nat, data: seq<Octet>, d: int)
    requires ShapeOk(cfg) && j < |cfg.usages| && |data| == Size(cfg, cfg.usages[j].reportId)
    ensures After(cfg, es + [Accumulate(j, 1000 * d), Write(cfg.usages[j].reportId, data), Frame, Send(false)]).pipe
            == Moved(cfg, After(cfg, es).pipe, j, data, d)
  {
    hide After, EndFrame;
    var a, b := Accumulate(j, 1000 * d), Write(cfg.usages[j].reportId, data);
    AfterSnoc(cfg, es, a);
    AfterSnoc(cfg, es + [a], b);
    AfterSnoc(cfg, es + [a] + [b], Frame);
    AfterSnoc(cfg, es + [a] + [b] + [Frame], Send(false));
    assert es + [a, b, Frame, Send(false)] == es + [a] + [b] + [Frame] + [Send(false)];
  }
}
