/** Runs of the outgoing report pipeline, continued: buttons and keys. What goes out tells the same changes of state, in
    the same order, as the frames did. */
module PipelineOrder {
  import opened ReportBits
  import opened ReportPipeline
  import opened PipelineRuns
  import opened Sequences

  /** The absolute states of one report id, from the empty report on, repeats left out. */
  ghost function Changes(cfg: Config, id: nat, rs: seq<Report>): (r: seq<seq<Octet>>)
    requires ShapeOk(cfg) && id < |cfg.layouts| && forall i :: 0 <= i < |rs| ==> ReportOk(cfg, rs[i])
    ensures r != []
  {
    if rs == [] then [Absolute(cfg, id, Blank(Size(cfg, id)))] else
      var n := |rs| - 1;
      var before := Changes(cfg, id, rs[..n]);
      assert ReportOk(cfg, rs[n]);
      if rs[n].id != id || Absolute(cfg, id, rs[n].data) == before[|before| - 1] then before
      else before + [Absolute(cfg, id, rs[n].data)]
  }

  ghost function LastState(cfg: Config, id: nat, rs: seq<Report>): seq<Octet>
    requires ShapeOk(cfg) && id < |cfg.layouts| && forall i :: 0 <= i < |rs| ==> ReportOk(cfg, rs[i])
  {
    var c := Changes(cfg, id, rs);
    c[|c| - 1]
  }

  lemma ChangesSnoc(cfg: Config, id: nat, rs: seq<Report>, r: Report)
    requires ShapeOk(cfg) && id < |cfg.layouts| && ReportOk(cfg, r)
    requires forall i :: 0 <= i < |rs| ==> ReportOk(cfg, rs[i])
    ensures Changes(cfg, id, rs + [r])
         == if r.id != id || Absolute(cfg, id, r.data) == LastState(cfg, id, rs) then Changes(cfg, id, rs)
            else Changes(cfg, id, rs) + [Absolute(cfg, id, r.data)]
  {
    assert (rs + [r])[..|rs|] == rs;
  }

  /** The last state of a report id is the last one of its reports, if it has any. */
  lemma LastStateSnoc(cfg: Config, id: nat, rs: seq<Report>, r: Report)
    requires ShapeOk(cfg) && id < |cfg.layouts| && ReportOk(cfg, r)
    requires forall i :: 0 <= i < |rs| ==> ReportOk(cfg, rs[i])
    ensures LastState(cfg, id, rs + [r]) == if r.id == id then Absolute(cfg, id, r.data) else LastState(cfg, id, rs)
  {
    ChangesSnoc(cfg, id, rs, r);
  }

  /** What went out, or will, tells the same story as what was handed over, and `prev` knows how it ends. */
  ghost predicate Faithful(cfg: Config, sent: seq<Report>, p: Pipe, handled: seq<Report>, id: nat)
    requires ShapeOk(cfg) && PipeOk(cfg, p) && id < |cfg.layouts|
    requires forall i :: 0 <= i < |sent| ==> ReportOk(cfg, sent[i])
    requires forall i :: 0 <= i < |handled| ==> ReportOk(cfg, handled[i])
  {
    && Changes(cfg, id, sent + p.queue) == Changes(cfg, id, handled)
    && LastState(cfg, id, sent + p.queue) == Absolute(cfg, id, p.prev[id])
  }

  /** A report taking its predecessor's place, with the same id and state, changes nothing. */
  lemma ReplaceLast(cfg: Config, id: nat, rs: seq<Report>, a: Report, b: Report)
    requires ShapeOk(cfg) && id < |cfg.layouts| && ReportOk(cfg, a) && ReportOk(cfg, b) && a.id == b.id
    requires Absolute(cfg, a.id, a.data) == Absolute(cfg, a.id, b.data)
    requires forall i :: 0 <= i < |rs| ==> ReportOk(cfg, rs[i])
    ensures Changes(cfg, id, rs + [a]) == Changes(cfg, id, rs + [b])
  {
    ChangesSnoc(cfg, id, rs, a);
    ChangesSnoc(cfg, id, rs, b);
  }

  lemma MergedFaithful(cfg: Config, sent: seq<Report>, p: Pipe, turn: nat, id: nat)
    requires ConfigOk(cfg) && PipeOk(cfg, p) && turn < |cfg.layouts| && id < |cfg.layouts| && Merges(cfg, p, turn)
    requires forall i :: 0 <= i < |sent| ==> ReportOk(cfg, sent[i])
    ensures Changes(cfg, id, sent + Merged(cfg, p, turn).queue) == Changes(cfg, id, sent + p.queue)
    ensures LastState(cfg, turn, sent + p.queue) == Absolute(cfg, turn, p.working[turn])
  {
    var n := |p.queue| - 1;
    var tail := p.queue[n];
    assert ReportOk(cfg, tail);
    var grown := Report(turn, AggregateFrom(cfg, turn, tail.data, p.working[turn], 0));
    AggregateKeepsAbsolute(cfg, turn, tail.data, p.working[turn], 0);
    assert sent + p.queue == (sent + p.queue[..n]) + [tail];
    assert sent + Merged(cfg, p, turn).queue == (sent + p.queue[..n]) + [grown];
    ReplaceLast(cfg, id, sent + p.queue[..n], tail, grown);
    LastStateSnoc(cfg, turn, sent + p.queue[..n], tail);
  }

  /** One report id's turn keeps every id's story. */
  lemma QueueOneFaithful(cfg: Config, sent: seq<Report>, p: Pipe, handled: seq<Report>, turn: nat, id: nat)
    requires ConfigOk(cfg) && PipeOk(cfg, p) && turn < |cfg.layouts| && id < |cfg.layouts|
    requires forall i :: 0 <= i < |sent| ==> ReportOk(cfg, sent[i])
    requires forall i :: 0 <= i < |handled| ==> ReportOk(cfg, handled[i])
    requires !Overflows(cfg, p, turn) && Faithful(cfg, sent, p, handled, id)
    ensures Faithful(cfg, sent, QueueOne(cfg, p, turn), handled + [Report(turn, p.working[turn])], id)
  {
    hide Changes, Absolute;
    var now := Report(turn, p.working[turn]);
    ChangesSnoc(cfg, id, handled, now);
    if !Due(cfg, p, turn) {
      NotDueIsStill(cfg, p, turn);
    } else if Merges(cfg, p, turn) {
      MergedFaithful(cfg, sent, p, turn, id);
    } else {
      assert sent + (p.queue + [now]) == (sent + p.queue) + [now];
      ChangesSnoc(cfg, id, sent + p.queue, now);
      LastStateSnoc(cfg, id, sent + p.queue, now);
    }
  }

  lemma {:induction false} QueueFromFaithful(cfg: Config, sent: seq<Report>, p: Pipe, handled: seq<Report>, i: nat,
                                             id: nat)
    requires ConfigOk(cfg) && PipeOk(cfg, p) && i <= |cfg.reportIds| && id < |cfg.layouts|
    requires forall x :: 0 <= x < |sent| ==> ReportOk(cfg, sent[x])
    requires forall x :: 0 <= x < |handled| ==> ReportOk(cfg, handled[x])
    requires Faithful(cfg, sent, p, handled, id)
    ensures Faithful(cfg, sent, QueueFrom(cfg, p, i), handled + HandledFrom(cfg, p, i), id)
    decreases |cfg.reportIds| - i
  {
    hide QueueOne, Faithful, Overflows;
    if i == |cfg.reportIds| || Overflows(cfg, p, cfg.reportIds[i]) {
      assert handled + HandledFrom(cfg, p, i) == handled;
    } else {
      var turn := cfg.reportIds[i];
      var now, next := Report(turn, p.working[turn]), QueueOne(cfg, p, turn);
      QueueOneFaithful(cfg, sent, p, handled, turn, id);
      QueueFromFaithful(cfg, sent, next, handled + [now], i + 1, id);
      Regroup(handled, [now], HandledFrom(cfg, next, i + 1));
    }
  }

  ghost predicate WorldFaithful(cfg: Config, w: World, id: nat)
    requires ShapeOk(cfg) && WorldOk(cfg, w) && id < |cfg.layouts|
  {
    Faithful(cfg, w.sent, w.pipe, w.handled, id)
  }

  lemma StepFaithful(cfg: Config, w: World, e: Event, id: nat)
    requires ConfigOk(cfg) && WorldOk(cfg, w) && Enabled(cfg, e) && id < |cfg.layouts|
    requires WorldFaithful(cfg, w, id)
    ensures WorldFaithful(cfg, Step(cfg, w, e), id)
  {
    match e
    case Accumulate(_, _) =>
    case Write(_, _) =>
    case Frame =>
      MoveFromKeeps(cfg, w.pipe, 0);
      QueueFromFaithful(cfg, w.sent, MoveFrom(cfg, w.pipe, 0), w.handled, 0, id);
    case Send(taken) =>
      if taken && w.pipe.queue != [] {
        assert (w.sent + [w.pipe.queue[0]]) + w.pipe.queue[1..] == w.sent + w.pipe.queue;
      }
  }

  /** Over every run, no press or release of a report handed over is lost, invented or swapped. */
  lemma {:induction false} StatesKeepTheirOrder(cfg: Config, es: seq<Event>, id: nat)
    requires ConfigOk(cfg) && id < |cfg.layouts|
    ensures WorldFaithful(cfg, After(cfg, es), id)
  {
    if es == [] {
      assert [] + After(cfg, es).pipe.queue == [];
    } else {
      var w, e := After(cfg, es[..|es| - 1]), es[|es| - 1];
      StatesKeepTheirOrder(cfg, es[..|es| - 1], id);
      if Enabled(cfg, e) {
        StepFaithful(cfg, w, e, id);
      }
    }
  }

  // ---- what a frame hands over --------------------------------------------------------------------

  ghost predicate DistinctIds(cfg: Config) {
    forall x, y :: 0 <= x < y < |cfg.reportIds| ==> cfg.reportIds[x] != cfg.reportIds[y]
  }

  /** A turn leaves other working reports alone and takes at most one place in the ring. */
  lemma QueueOneElsewhere(cfg: Config, p: Pipe, turn: nat, id: nat)
    requires ShapeOk(cfg) && PipeOk(cfg, p) && turn < |cfg.layouts| && id < |cfg.layouts| && !Overflows(cfg, p, turn)
    ensures id != turn ==> QueueOne(cfg, p, turn).working[id] == p.working[id]
    ensures |p.queue| <= |QueueOne(cfg, p, turn).queue| <= |p.queue| + 1
  {
  }

  /** A frame hands over the working reports as they stood, in order of report ids. */
  lemma {:induction false} HandsOverInOrder(cfg: Config, p: Pipe, i: nat, x: nat)
    requires ShapeOk(cfg) && PipeOk(cfg, p) && DistinctIds(cfg) && i <= |cfg.reportIds|
    requires x < |HandledFrom(cfg, p, i)|
    ensures i + x < |cfg.reportIds|
    ensures var id := cfg.reportIds[i + x]; HandledFrom(cfg, p, i)[x] == Report(id, p.working[id])
    decreases x
  {
    hide Due, Merges, Merged, Pushed;
    if x > 0 {
      var turn := cfg.reportIds[i];
      HandsOverInOrder(cfg, QueueOne(cfg, p, turn), i + 1, x - 1);
      QueueOneElsewhere(cfg, p, turn, cfg.reportIds[i + x]);
    }
  }

  lemma {:induction false} MoveFromKeepsState(cfg: Config, p: Pipe, j: nat, id: nat)
    requires ConfigOk(cfg) && PipeOk(cfg, p) && j <= |cfg.usages| && id < |cfg.layouts|
    ensures Absolute(cfg, id, MoveFrom(cfg, p, j).working[id]) == Absolute(cfg, id, p.working[id])
    decreases |cfg.usages| - j
  {
    hide MoveOne, FieldLaws, Independent;
    if j < |cfg.usages| {
      MoveOneKeepsState(cfg, p, j, id);
      MoveFromKeepsState(cfg, MoveOne(cfg, p, j), j + 1, id);
    }
  }

  // Which frames hand over all.

  /** How many report ids from number i on have something to send. */
  function DueFrom(cfg: Config, p: Pipe, i: nat): nat
    requires ShapeOk(cfg) && PipeOk(cfg, p) && i <= |cfg.reportIds|
    decreases |cfg.reportIds| - i
  {
    if i == |cfg.reportIds| then 0
    else (if Due(cfg, p, cfg.reportIds[i]) then 1 else 0) + DueFrom(cfg, p, i + 1)
  }

  /** The first of them merges into the newest queued report. */
  predicate FirstMerges(cfg: Config, p: Pipe, i: nat)
    requires ShapeOk(cfg) && PipeOk(cfg, p) && i <= |cfg.reportIds|
    decreases |cfg.reportIds| - i
  {
    i < |cfg.reportIds| &&
    if Due(cfg, p, cfg.reportIds[i]) then Merges(cfg, p, cfg.reportIds[i]) else FirstMerges(cfg, p, i + 1)
  }

  /** The ring has a place for each report that is due when its turn comes: only the first can do without one, and even
      that one is refused by a full ring. */
  predicate HasRoom(cfg: Config, p: Pipe, i: nat)
    requires ShapeOk(cfg) && PipeOk(cfg, p) && i <= |cfg.reportIds|
  {
    var due := DueFrom(cfg, p, i);
    due == 0 ||
    (|p.queue| < OR_BUFSIZE && |p.queue| + due - 1 - (if FirstMerges(cfg, p, i) then 1 else 0) < OR_BUFSIZE)
  }

  /** As far as report ids from number i on can tell, the same working and last queued reports. */
  ghost predicate Alike(cfg: Config, p: Pipe, q: Pipe, i: nat)
    requires ShapeOk(cfg) && PipeOk(cfg, p) && PipeOk(cfg, q)
  {
    forall x :: i <= x < |cfg.reportIds| ==>
      && p.working[cfg.reportIds[x]] == q.working[cfg.reportIds[x]]
      && p.prev[cfg.reportIds[x]] == q.prev[cfg.reportIds[x]]
  }

  lemma {:induction false} AlikeDue(cfg: Config, p: Pipe, q: Pipe, i: nat)
    requires ShapeOk(cfg) && PipeOk(cfg, p) && PipeOk(cfg, q) && i <= |cfg.reportIds| && Alike(cfg, p, q, i)
    ensures DueFrom(cfg, p, i) == DueFrom(cfg, q, i)
    ensures p.queue == q.queue ==> FirstMerges(cfg, p, i) == FirstMerges(cfg, q, i)
    decreases |cfg.reportIds| - i
  {
    if i < |cfg.reportIds| {
      AlikeDue(cfg, p, q, i + 1);
    }
  }

  lemma TurnIsAlike(cfg: Config, p: Pipe, i: nat)
    requires ShapeOk(cfg) && PipeOk(cfg, p) && DistinctIds(cfg) && i < |cfg.reportIds|
    requires !Overflows(cfg, p, cfg.reportIds[i])
    ensures Alike(cfg, p, QueueOne(cfg, p, cfg.reportIds[i]), i + 1)
  {
  }

  /** A report id's turn that was due leaves a report of its own at the end of the queue. */
  lemma DueTurn(cfg: Config, p: Pipe, id: nat)
    requires ShapeOk(cfg) && PipeOk(cfg, p) && id < |cfg.layouts| && Due(cfg, p, id) && !Overflows(cfg, p, id)
    ensures var q := QueueOne(cfg, p, id).queue;
            |q| == |p.queue| + (if Merges(cfg, p, id) then 0 else 1) && q != [] && q[|q| - 1].id == id
  {
  }

  lemma {:induction false} NoneMerges(cfg: Config, p: Pipe, i: nat)
    requires ShapeOk(cfg) && PipeOk(cfg, p) && i <= |cfg.reportIds| && p.queue != []
    requires forall x :: i <= x < |cfg.reportIds| ==> cfg.reportIds[x] != p.queue[|p.queue| - 1].id
    ensures !FirstMerges(cfg, p, i)
    decreases |cfg.reportIds| - i
  {
    if i < |cfg.reportIds| {
      NoneMerges(cfg, p, i + 1);
    }
  }

  /** One turn uses up what room it needs. */
  lemma RoomNext(cfg: Config, p: Pipe, i: nat)
    requires ShapeOk(cfg) && PipeOk(cfg, p) && DistinctIds(cfg) && i < |cfg.reportIds|
    requires !Overflows(cfg, p, cfg.reportIds[i])
    ensures HasRoom(cfg, QueueOne(cfg, p, cfg.reportIds[i]), i + 1) <==> HasRoom(cfg, p, i)
  {
    var id := cfg.reportIds[i];
    var next := QueueOne(cfg, p, id);
    TurnIsAlike(cfg, p, i);
    AlikeDue(cfg, p, next, i + 1);
    if Due(cfg, p, id) {
      DueTurn(cfg, p, id);
      NoneMerges(cfg, next, i + 1);
    }
  }

  /** The turns of a frame are all completed exactly when the ring has room for them. */
  lemma {:induction false} HandsOverAllExactly(cfg: Config, p: Pipe, i: nat)
    requires ShapeOk(cfg) && PipeOk(cfg, p) && DistinctIds(cfg) && i <= |cfg.reportIds|
    ensures |HandledFrom(cfg, p, i)| == |cfg.reportIds| - i <==> HasRoom(cfg, p, i)
    decreases |cfg.reportIds| - i
  {
    if i < |cfg.reportIds| && !Overflows(cfg, p, cfg.reportIds[i]) {
      RoomNext(cfg, p, i);
      HandsOverAllExactly(cfg, QueueOne(cfg, p, cfg.reportIds[i]), i + 1);
    }
  }

  /** The working reports as they stand when a frame ends, in order of report ids. */
  function Presented(cfg: Config, p: Pipe): (r: seq<Report>)
    requires ShapeOk(cfg) && PipeOk(cfg, p)
    ensures forall x :: 0 <= x < |r| ==> ReportOk(cfg, r[x])
  {
    seq(|cfg.reportIds|, x requires 0 <= x < |cfg.reportIds| => Report(cfg.reportIds[x], p.working[cfg.reportIds[x]]))
  }

  /** The frame's end finds room for every report. */
  predicate FindsRoom(cfg: Config, p: Pipe)
    requires ShapeOk(cfg) && PipeOk(cfg, p)
  {
    HasRoom(cfg, MoveFrom(cfg, p, 0), 0)
  }

  /** Two sequences of reports with the same ids and states, one by one. */
  ghost predicate SameStates(cfg: Config, a: seq<Report>, b: seq<Report>) {
    && ShapeOk(cfg) && |a| == |b|
    && forall x :: 0 <= x < |a| ==>
         && ReportOk(cfg, a[x]) && ReportOk(cfg, b[x]) && a[x].id == b[x].id
         && Absolute(cfg, a[x].id, a[x].data) == Absolute(cfg, a[x].id, b[x].data)
  }

  /** The x-th report handed over is the x-th one presented, its movement apart. */
  lemma HandsOverState(cfg: Config, p: Pipe, q: Pipe, x: nat)
    requires ConfigOk(cfg) && PipeOk(cfg, p) && DistinctIds(cfg) && q == MoveFrom(cfg, p, 0)
    requires x < |HandledFrom(cfg, q, 0)|
    ensures x < |cfg.reportIds|
    ensures var r, s := HandledFrom(cfg, q, 0)[x], Presented(cfg, p)[x];
            ReportOk(cfg, r) && r.id == s.id && Absolute(cfg, r.id, r.data) == Absolute(cfg, r.id, s.data)
  {
    hide HandledFrom, MoveFrom;
    HandsOverInOrder(cfg, q, 0, x);
    MoveFromKeepsState(cfg, p, 0, cfg.reportIds[x]);
  }

  /** A frame that finds room - and only such a frame - hands over, for every report id in turn, the absolute state that
      its working report had as the frame ended. */
  lemma FrameHandsOverEveryState(cfg: Config, p: Pipe)
    requires ConfigOk(cfg) && PipeOk(cfg, p) && DistinctIds(cfg)
    ensures SameStates(cfg, HandledFrom(cfg, MoveFrom(cfg, p, 0), 0), Presented(cfg, p)) <==> FindsRoom(cfg, p)
  {
    hide DueFrom, FirstMerges, HandledFrom, MoveFrom, HasRoom;
    var q := MoveFrom(cfg, p, 0);
    HandsOverAllExactly(cfg, q, 0);
    forall x | 0 <= x < |HandledFrom(cfg, q, 0)|
      ensures x < |cfg.reportIds|
      ensures var r, s := HandledFrom(cfg, q, 0)[x], Presented(cfg, p)[x];
              ReportOk(cfg, r) && r.id == s.id && Absolute(cfg, r.id, r.data) == Absolute(cfg, r.id, s.data)
    {
      HandsOverState(cfg, p, q, x);
    }
  }

  // ---- a run in which no frame finds the queue full ----------------------------------------------

  /** What the frames of a run presented. */
  ghost function Story(cfg: Config, es: seq<Event>): (r: seq<Report>)
    requires ShapeOk(cfg)
    ensures forall x :: 0 <= x < |r| ==> ReportOk(cfg, r[x])
  {
    if es == [] then [] else
      var before := Story(cfg, es[..|es| - 1]);
      if es[|es| - 1].Frame? then before + Presented(cfg, After(cfg, es[..|es| - 1]).pipe) else before
  }

  ghost predicate NeverFull(cfg: Config, es: seq<Event>)
    requires ShapeOk(cfg)
  {
    es == [] ||
    (NeverFull(cfg, es[..|es| - 1]) && (es[|es| - 1].Frame? ==> FindsRoom(cfg, After(cfg, es[..|es| - 1]).pipe)))
  }

  lemma SameStatesAppend(cfg: Config, a: seq<Report>, b: seq<Report>, c: seq<Report>, d: seq<Report>)
    requires SameStates(cfg, a, b) && SameStates(cfg, c, d)
    ensures SameStates(cfg, a + c, b + d)
  {
  }

  /** Equal states make equal changes. */
  lemma {:induction false} SameChanges(cfg: Config, id: nat, a: seq<Report>, b: seq<Report>)
    requires SameStates(cfg, a, b) && id < |cfg.layouts|
    ensures Changes(cfg, id, a) == Changes(cfg, id, b)
  {
    if a != [] {
      SameChanges(cfg, id, a[..|a| - 1], b[..|b| - 1]);
    }
  }

  lemma {:induction false} HandledIsStory(cfg: Config, es: seq<Event>)
    requires ConfigOk(cfg) && DistinctIds(cfg) && NeverFull(cfg, es)
    ensures SameStates(cfg, After(cfg, es).handled, Story(cfg, es))
  {
    if es != [] {
      var w, e := After(cfg, es[..|es| - 1]), es[|es| - 1];
      HandledIsStory(cfg, es[..|es| - 1]);
      if e.Frame? {
        FrameHandsOverEveryState(cfg, w.pipe);
        SameStatesAppend(cfg, w.handled, Story(cfg, es[..|es| - 1]),
                         HandledFrom(cfg, MoveFrom(cfg, w.pipe, 0), 0), Presented(cfg, w.pipe));
      }
    }
  }

  /** In every run in which no frame finds the queue full, what was sent and what is queued tell, for every report id,
      the changes of state that the frames told: no press or release is lost, invented or swapped by merging. */
  lemma FramesAreToldInOrder(cfg: Config, es: seq<Event>, id: nat)
    requires ConfigOk(cfg) && DistinctIds(cfg) && NeverFull(cfg, es) && id < |cfg.layouts|
    ensures var w := After(cfg, es);
            (forall x :: 0 <= x < |w.sent + w.pipe.queue| ==> ReportOk(cfg, (w.sent + w.pipe.queue)[x])) &&
            Changes(cfg, id, w.sent + w.pipe.queue) == Changes(cfg, id, Story(cfg, es))
  {
    StatesKeepTheirOrder(cfg, es, id);
    HandledIsStory(cfg, es);
    SameChanges(cfg, id, After(cfg, es).handled, Story(cfg, es));
  }
}
