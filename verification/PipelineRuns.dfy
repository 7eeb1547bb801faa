/** Runs of the outgoing report pipeline: movement arrives, buttons change, frames end, and the endpoint takes
    the oldest queued report or refuses it, in any order. */
module PipelineRuns {
  import opened Bytes
  import opened ReportBits
  import opened ReportPipeline

  /** A mapped movement, bits written into a working report by anything else, the end of a frame, and the endpoint's
      answer to the oldest report. */
  datatype Event =
    | Accumulate(usage: nat, amount: int)
    | Write(id: nat, data: seq<Octet>)
    | Frame
    | Send(taken: bool)

  /** The pipeline, with what a run has done: reports sent, report states handed over by completed turns, thousandths
      accumulated, units written straight into a field, and units that a field could not keep. */
  datatype World = World(
    pipe: Pipe, sent: seq<Report>, handled: seq<Report>, moved: seq<int>, injected: seq<int>, lost: seq<int>)

  function Start(cfg: Config): World {
    var blank := seq(|cfg.layouts|, id requires 0 <= id < |cfg.layouts| => Blank(Size(cfg, id)));
    var none := seq(|cfg.usages|, _ => 0);
    World(Pipe(blank, blank, [], none), [], [], none, none, none)
  }

  ghost predicate WorldOk(cfg: Config, w: World) {
    && PipeOk(cfg, w.pipe)
    && |w.moved| == |w.injected| == |w.lost| == |cfg.usages|
    && (forall i :: 0 <= i < |w.sent| ==> ReportOk(cfg, w.sent[i]))
    && (forall i :: 0 <= i < |w.handled| ==> ReportOk(cfg, w.handled[i]))
  }

  /** The event names a usage, or a report and contents of its size. */
  predicate Enabled(cfg: Config, e: Event)
    requires ShapeOk(cfg)
  {
    match e
    case Accumulate(j, _) => j < |cfg.usages|
    case Write(id, data) => id < |cfg.layouts| && |data| == Size(cfg, id)
    case Frame => true
    case Send(_) => true
  }

  /** The states that the queueing loop hands over, from report id number i on, up to a full ring. */
  function HandledFrom(cfg: Config, p: Pipe, i: nat): (r: seq<Report>)
    requires ShapeOk(cfg) && PipeOk(cfg, p) && i <= |cfg.reportIds|
    ensures forall x :: 0 <= x < |r| ==> ReportOk(cfg, r[x])
    decreases |cfg.reportIds| - i
  {
    if i == |cfg.reportIds| || Overflows(cfg, p, cfg.reportIds[i]) then []
    else
      var id := cfg.reportIds[i];
      [Report(id, p.working[id])] + HandledFrom(cfg, QueueOne(cfg, p, id), i + 1)
  }

  function Written(cfg: Config, p: Pipe, id: nat, data: seq<Octet>): (r: Pipe)
    requires ShapeOk(cfg) && PipeOk(cfg, p) && Enabled(cfg, Write(id, data))
    ensures PipeOk(cfg, r)
  {
    p.(working := p.working[id := data])
  }

  /** What a write adds to the movement a field holds, or takes from it. */
  function Injection(cfg: Config, p: Pipe, id: nat, data: seq<Octet>, k: nat): int
    requires ShapeOk(cfg) && PipeOk(cfg, p) && Enabled(cfg, Write(id, data)) && k < |cfg.usages|
  {
    var u := cfg.usages[k];
    if u.reportId == id then cfg.fields.read(u, data) - cfg.fields.read(u, p.working[id]) else 0
  }

  function Injections(cfg: Config, w: World, id: nat, data: seq<Octet>): (r: seq<int>)
    requires ShapeOk(cfg) && WorldOk(cfg, w) && Enabled(cfg, Write(id, data))
    ensures |r| == |cfg.usages|
  {
    seq(|cfg.usages|, k requires 0 <= k < |cfg.usages| => w.injected[k] + Injection(cfg, w.pipe, id, data, k))
  }

  function Losses(cfg: Config, w: World): (r: seq<int>)
    requires ShapeOk(cfg) && WorldOk(cfg, w)
    ensures |r| == |cfg.usages|
  {
    seq(|cfg.usages|, k requires 0 <= k < |cfg.usages| => w.lost[k] + Loss(cfg, w.pipe, k))
  }

  function Step(cfg: Config, w: World, e: Event): (r: World)
    requires ShapeOk(cfg) && WorldOk(cfg, w) && Enabled(cfg, e)
    ensures WorldOk(cfg, r)
  {
    match e
    case Accumulate(j, amount) =>
      w.(pipe := w.pipe.(acc := w.pipe.acc[j := w.pipe.acc[j] + amount]), moved := w.moved[j := w.moved[j] + amount])
    case Write(id, data) =>
      w.(pipe := Written(cfg, w.pipe, id, data), injected := Injections(cfg, w, id, data))
    case Frame =>
      w.(pipe := EndFrame(cfg, w.pipe),
         handled := w.handled + HandledFrom(cfg, MoveFrom(cfg, w.pipe, 0), 0),
         lost := Losses(cfg, w))
    case Send(taken) =>
      if taken && w.pipe.queue != [] then
        w.(pipe := w.pipe.(queue := w.pipe.queue[1..]), sent := w.sent + [w.pipe.queue[0]])
      else w
  }

  /** The world after a run; an event for which there is no such usage or report is none. */
  ghost function After(cfg: Config, es: seq<Event>): (r: World)
    requires ShapeOk(cfg)
    ensures WorldOk(cfg, r)
  {
    if es == [] then Start(cfg) else
      var w, e := After(cfg, es[..|es| - 1]), es[|es| - 1];
      if Enabled(cfg, e) then Step(cfg, w, e) else w
  }

  lemma AfterSnoc(cfg: Config, es: seq<Event>, e: Event)
    requires ShapeOk(cfg) && Enabled(cfg, e)
    ensures After(cfg, es + [e]) == Step(cfg, After(cfg, es), e)
  {
    hide Step;
    assert (es + [e])[..|es|] == es;
  }

  // ---- no motion is lost or invented -------------------------------------------------------

  lemma {:induction false} MoveFromKeeps(cfg: Config, p: Pipe, j: nat)
    requires ShapeOk(cfg) && PipeOk(cfg, p) && j <= |cfg.usages|
    ensures MoveFrom(cfg, p, j).queue == p.queue && MoveFrom(cfg, p, j).prev == p.prev
    decreases |cfg.usages| - j
  {
    if j < |cfg.usages| {
      MoveFromKeeps(cfg, MoveOne(cfg, p, j), j + 1);
    }
  }

  /** Another usage's turn is invisible. */
  lemma MoveOneElsewhere(cfg: Config, p: Pipe, j: nat, k: nat)
    requires ConfigOk(cfg) && PipeOk(cfg, p) && j < |cfg.usages| && k < |cfg.usages| && j != k
    ensures var r := MoveOne(cfg, p, j);
            WorkingValue(cfg, r, k) == WorkingValue(cfg, p, k) && r.acc[k] == p.acc[k]
    ensures Loss(cfg, MoveOne(cfg, p, j), k) == Loss(cfg, p, k)
  {
    MoveOneBalances(cfg, p, j, k);
  }

  lemma {:induction false} MoveFromPassed(cfg: Config, p: Pipe, j: nat, k: nat)
    requires ConfigOk(cfg) && PipeOk(cfg, p) && k < j <= |cfg.usages|
    ensures var r := MoveFrom(cfg, p, j);
            WorkingValue(cfg, r, k) == WorkingValue(cfg, p, k) && r.acc[k] == p.acc[k]
    decreases |cfg.usages| - j
  {
    hide MoveOne, Loss, WorkingValue, FieldLaws, Independent, ShapeOk;
    if j < |cfg.usages| {
      MoveOneElsewhere(cfg, p, j, k);
      MoveFromPassed(cfg, MoveOne(cfg, p, j), j + 1, k);
    }
  }

  /** A usage's own turn settles its account. */
  lemma OwnTurnSettles(cfg: Config, p: Pipe, k: nat, account: int)
    requires ConfigOk(cfg) && PipeOk(cfg, p) && k < |cfg.usages|
    requires account == 1000 * (WorkingValue(cfg, p, k) - Loss(cfg, p, k)) + p.acc[k]
    ensures var q := MoveOne(cfg, p, k); 1000 * WorkingValue(cfg, q, k) + q.acc[k] == account && -1000 < q.acc[k] < 1000
  {
    MoveOneBalances(cfg, p, k, k);
    MoveOneRemainder(cfg, p, k);
  }

  lemma {:induction false} MoveFromSettles(cfg: Config, p: Pipe, j: nat, k: nat, account: int)
    requires ConfigOk(cfg) && PipeOk(cfg, p) && j <= k < |cfg.usages|
    requires account == 1000 * (WorkingValue(cfg, p, k) - Loss(cfg, p, k)) + p.acc[k]
    ensures var r := MoveFrom(cfg, p, j); 1000 * WorkingValue(cfg, r, k) + r.acc[k] == account
    ensures -1000 < MoveFrom(cfg, p, j).acc[k] < 1000
    decreases k - j
  {
    hide MoveOne, Loss, WorkingValue, FieldLaws, Independent, ShapeOk;
    if j == k {
      OwnTurnSettles(cfg, p, k, account);
      MoveFromPassed(cfg, MoveOne(cfg, p, k), k + 1, k);
    } else {
      MoveOneElsewhere(cfg, p, j, k);
      MoveFromSettles(cfg, MoveOne(cfg, p, j), j + 1, k, account);
    }
  }

  /** Moving balances, whatever turns come before and after a usage's own. */
  lemma MoveFromBalances(cfg: Config, p: Pipe, k: nat)
    requires ConfigOk(cfg) && PipeOk(cfg, p) && k < |cfg.usages|
    ensures var r := MoveFrom(cfg, p, 0);
            1000 * (WorkingValue(cfg, r, k) + Loss(cfg, p, k)) + r.acc[k] == 1000 * WorkingValue(cfg, p, k) + p.acc[k]
    ensures -1000 < MoveFrom(cfg, p, 0).acc[k] < 1000
  {
    MoveFromSettles(cfg, p, 0, k, 1000 * (WorkingValue(cfg, p, k) - Loss(cfg, p, k)) + p.acc[k]);
  }

  lemma {:induction false} QueueFromConserves(cfg: Config, p: Pipe, i: nat, k: nat)
    requires ConfigOk(cfg) && PipeOk(cfg, p) && i <= |cfg.reportIds| && k < |cfg.usages|
    ensures InFlight(cfg, QueueFrom(cfg, p, i), k) == InFlight(cfg, p, k)
    ensures QueueFrom(cfg, p, i).acc == p.acc
    decreases |cfg.reportIds| - i
  {
    if i < |cfg.reportIds| && !Overflows(cfg, p, cfg.reportIds[i]) {
      QueueOneConserves(cfg, p, cfg.reportIds[i], k);
      QueueFromConserves(cfg, QueueOne(cfg, p, cfg.reportIds[i]), i + 1, k);
    }
  }

  lemma {:induction false} MoveFromRest(cfg: Config, p: Pipe, j: nat, k: nat)
    requires ShapeOk(cfg) && PipeOk(cfg, p) && j <= |cfg.usages| && k < |cfg.usages|
    ensures MoveFrom(cfg, p, j).acc[k] == if j <= k then Remainder(p.acc[k], 1000) else p.acc[k]
    decreases |cfg.usages| - j
  {
    if j < |cfg.usages| {
      MoveFromRest(cfg, MoveOne(cfg, p, j), j + 1, k);
    }
  }

  lemma RemainderTowardsZero(a: int)
    ensures var b := Remainder(a, 1000);
            (a - b) % 1000 == 0 && ((0 <= b < 1000 && b <= a) || (-1000 < b <= 0 && a <= b))
  {
  }

  /** Whole units are taken towards zero: what a frame leaves over is on the side the movement was on. */
  lemma RestIsTowardsZero(cfg: Config, p: Pipe, k: nat)
    requires ConfigOk(cfg) && PipeOk(cfg, p) && k < |cfg.usages|
    ensures var a, b := p.acc[k], EndFrame(cfg, p).acc[k];
            (a - b) % 1000 == 0 && ((0 <= b < 1000 && b <= a) || (-1000 < b <= 0 && a <= b))
  {
    hide Remainder, MoveFrom, QueueFrom, FieldLaws, Independent;
    MoveFromRest(cfg, p, 0, k);
    RemainderTowardsZero(p.acc[k]);
    QueueFromConserves(cfg, MoveFrom(cfg, p, 0), 0, k);
  }

  /** One frame, whether or not the ring fills up on the way. */
  lemma FrameConserves(cfg: Config, p: Pipe, k: nat)
    requires ConfigOk(cfg) && PipeOk(cfg, p) && k < |cfg.usages|
    ensures var r := EndFrame(cfg, p);
            && 1000 * (InFlight(cfg, r, k) + Loss(cfg, p, k)) + r.acc[k] == 1000 * InFlight(cfg, p, k) + p.acc[k]
            && -1000 < r.acc[k] < 1000
  {
    MoveFromKeeps(cfg, p, 0);
    MoveFromBalances(cfg, p, k);
    QueueFromConserves(cfg, MoveFrom(cfg, p, 0), 0, k);
  }

  /** The ledger of one usage. */
  ghost predicate Balanced(cfg: Config, w: World, k: nat)
    requires ShapeOk(cfg) && WorldOk(cfg, w) && k < |cfg.usages|
  {
    w.moved[k] + 1000 * w.injected[k]
    == 1000 * (FieldSum(cfg.fields, cfg.usages[k], w.sent) + InFlight(cfg, w.pipe, k) + w.lost[k]) + w.pipe.acc[k]
  }

  /** A write changes what is in flight by what it injects. */
  lemma WriteInjects(cfg: Config, p: Pipe, id: nat, data: seq<Octet>, k: nat)
    requires ShapeOk(cfg) && PipeOk(cfg, p) && Enabled(cfg, Write(id, data)) && k < |cfg.usages|
    ensures var r := Written(cfg, p, id, data);
            InFlight(cfg, r, k) == InFlight(cfg, p, k) + Injection(cfg, p, id, data, k) && r.acc == p.acc
  {
  }

  lemma SendBalances(cfg: Config, w: World, k: nat)
    requires ConfigOk(cfg) && WorldOk(cfg, w) && k < |cfg.usages| && w.pipe.queue != []
    requires Balanced(cfg, w, k)
    ensures Balanced(cfg, Step(cfg, w, Send(true)), k)
  {
    FieldSumCons(cfg.fields, cfg.usages[k], w.pipe.queue);
    FieldSumSnoc(cfg.fields, cfg.usages[k], w.sent, w.pipe.queue[0]);
  }

  lemma StepBalances(cfg: Config, w: World, e: Event, k: nat)
    requires ConfigOk(cfg) && WorldOk(cfg, w) && Enabled(cfg, e) && k < |cfg.usages|
    requires Balanced(cfg, w, k)
    ensures Balanced(cfg, Step(cfg, w, e), k)
  {
    match e
    case Accumulate(j, amount) =>
    case Write(id, data) =>
      WriteInjects(cfg, w.pipe, id, data, k);
    case Frame =>
      FrameConserves(cfg, w.pipe, k);
    case Send(taken) =>
      if taken && w.pipe.queue != [] {
        SendBalances(cfg, w, k);
      }
  }

  lemma StartBalances(cfg: Config, k: nat)
    requires ConfigOk(cfg) && k < |cfg.usages|
    ensures Balanced(cfg, Start(cfg), k)
  {
    var u := cfg.usages[k];
    assert FieldLaws(cfg, u);
    BlankIsStill(cfg.layouts[u.reportId].relative);
  }

  /** Over every run, whatever is written into the reports: what was accumulated or written straight into a field is
      what was sent, what is queued, what is in the working report, what fields could not keep, and a remainder. */
  lemma {:induction false} MotionIsAccountedFor(cfg: Config, es: seq<Event>, k: nat)
    requires ConfigOk(cfg) && k < |cfg.usages|
    ensures Balanced(cfg, After(cfg, es), k)
  {
    if es == [] {
      StartBalances(cfg, k);
    } else {
      var w, e := After(cfg, es[..|es| - 1]), es[|es| - 1];
      MotionIsAccountedFor(cfg, es[..|es| - 1], k);
      if Enabled(cfg, e) {
        StepBalances(cfg, w, e, k);
      }
    }
  }

  // ---- and when none is lost or invented ------------------------------------------------------

  /** What was accumulated, and nothing else, is what was sent, is queued, is in the working report or remains. */
  ghost predicate Conserved(cfg: Config, w: World, k: nat)
    requires ShapeOk(cfg) && WorldOk(cfg, w) && k < |cfg.usages|
  {
    w.moved[k] == 1000 * (FieldSum(cfg.fields, cfg.usages[k], w.sent) + InFlight(cfg, w.pipe, k)) + w.pipe.acc[k]
  }

  /** The event leaves a usage's movement alone: a write leaves its field as it was, and a frame moves no more into
      the field than it keeps. */
  ghost predicate Harmless(cfg: Config, w: World, e: Event, k: nat)
    requires ShapeOk(cfg) && WorldOk(cfg, w) && k < |cfg.usages|
  {
    match e
    case Accumulate(_, _) => true
    case Write(id, data) => Enabled(cfg, e) ==> Injection(cfg, w.pipe, id, data, k) == 0
    case Frame => Loss(cfg, w.pipe, k) == 0
    case Send(_) => true
  }

  /** What was invented in sum, more than lost. */
  ghost function Drift(cfg: Config, w: World, k: nat): int
    requires ShapeOk(cfg) && WorldOk(cfg, w) && k < |cfg.usages|
  {
    w.injected[k] - w.lost[k]
  }

  /** Movement is conserved exactly when as much was written straight into the field as the field did not keep; losses
      apart, exactly when nothing was written there in sum. */
  lemma ConservedExactly(cfg: Config, es: seq<Event>, k: nat)
    requires ConfigOk(cfg) && k < |cfg.usages|
    ensures Conserved(cfg, After(cfg, es), k) <==> Drift(cfg, After(cfg, es), k) == 0
    ensures var w := After(cfg, es);
            w.moved[k] == 1000 * (FieldSum(cfg.fields, cfg.usages[k], w.sent) + InFlight(cfg, w.pipe, k) + w.lost[k])
                          + w.pipe.acc[k]
            <==> w.injected[k] == 0
  {
    hide After, FieldSum, InFlight;
    MotionIsAccountedFor(cfg, es, k);
  }

  lemma StepDrifts(cfg: Config, w: World, e: Event, k: nat)
    requires ShapeOk(cfg) && WorldOk(cfg, w) && Enabled(cfg, e) && k < |cfg.usages|
    ensures Drift(cfg, Step(cfg, w, e), k) == Drift(cfg, w, k) <==> Harmless(cfg, w, e, k)
  {
  }

  ghost predicate AllHarmless(cfg: Config, es: seq<Event>, k: nat)
    requires ShapeOk(cfg) && k < |cfg.usages|
  {
    es == [] || (AllHarmless(cfg, es[..|es| - 1], k) && Harmless(cfg, After(cfg, es[..|es| - 1]), es[|es| - 1], k))
  }

  ghost predicate AlwaysConserved(cfg: Config, es: seq<Event>, k: nat)
    requires ShapeOk(cfg) && k < |cfg.usages|
  {
    Conserved(cfg, After(cfg, es), k) && (es == [] || AlwaysConserved(cfg, es[..|es| - 1], k))
  }

  /** Movement is conserved all through a run exactly when every event of the run is harmless. */
  lemma {:induction false} MotionIsConserved(cfg: Config, es: seq<Event>, k: nat)
    requires ConfigOk(cfg) && k < |cfg.usages|
    ensures AlwaysConserved(cfg, es, k) <==> AllHarmless(cfg, es, k)
  {
    ConservedExactly(cfg, es, k);
    if es != [] {
      var w, e := After(cfg, es[..|es| - 1]), es[|es| - 1];
      MotionIsConserved(cfg, es[..|es| - 1], k);
      ConservedExactly(cfg, es[..|es| - 1], k);
      if Enabled(cfg, e) {
        StepDrifts(cfg, w, e, k);
      }
    }
  }
}
