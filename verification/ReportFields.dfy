/** The bit fields of a real descriptor give the pipeline the field access it relies on. */
module ReportFields {
  import opened ReportBits
  import opened ReportPipeline
  import opened PipelineRuns

  /** The top bit counts as a sign: the logical minimum says so, or the value fills an `int32_t`. */
  predicate Signed(u: Usage) {
    u.logicalMinimum < 0 || u.size == 32
  }

  function ReadField(u: Usage, data: seq<Octet>): int {
    Reading(GetBits(data, u.bitpos, u.size), u.size, Signed(u))
  }

  function WriteField(u: Usage, data: seq<Octet>, value: int): (r: seq<Octet>)
    ensures |r| == |data|
  {
    PutBits(data, u.bitpos, u.size, value)
  }

  function KeptByField(u: Usage, value: int): int {
    Reading(Cut(value, u.size), u.size, Signed(u))
  }

  const BIT_FIELDS: FieldAccess := FieldAccess(ReadField, (u, d, v) => WriteField(u, d, v), KeptByField)

  /** The field lies within a report of this size and has a width the firmware can handle. */
  predicate Inside(u: Usage, len: nat) {
    1 <= u.size <= 32 && u.bitpos + u.size <= 8 * len
  }

  predicate Holds(u: Usage, value: int)
    requires 1 <= u.size <= 32
  {
    Representable(value, u.size, u.logicalMinimum < 0)
  }

  /** A field of a well-formed descriptor: its logical range fits its width, the relative mask covers it
      and the absolute mask leaves it out. */
  ghost predicate FieldOk(layout: Layout, u: Usage) {
    && |layout.absolute| == |layout.relative|
    && Inside(u, |layout.relative|)
    && Holds(u, u.logicalMinimum) && Holds(u, u.logicalMaximum)
    && (forall q :: u.bitpos <= q < u.bitpos + u.size ==> BitAt(layout.relative, q))
    && (forall q :: u.bitpos <= q < u.bitpos + u.size ==> !BitAt(layout.absolute, q))
  }

  ghost predicate DescriptorOk(cfg: Config) {
    && ShapeOk(cfg)
    && cfg.fields == BIT_FIELDS
    && (forall j :: 0 <= j < |cfg.usages| ==> FieldOk(cfg.layouts[cfg.usages[j].reportId], cfg.usages[j]))
    && (forall j, k :: 0 <= j < k < |cfg.usages| && cfg.usages[j].reportId == cfg.usages[k].reportId ==>
          Disjoint(cfg.usages[j].bitpos, cfg.usages[j].size, cfg.usages[k].bitpos, cfg.usages[k].size))
  }

  lemma WriteReads(u: Usage, data: seq<Octet>, value: int)
    requires Inside(u, |data|)
    ensures ReadField(u, WriteField(u, data, value)) == KeptByField(u, value)
  {
    PutBitsGet(data, u.bitpos, u.size, value);
  }

  /** A field keeps a number exactly when its width can hold it. */
  lemma KeptExactly(u: Usage, value: int)
    requires 1 <= u.size <= 32
    ensures KeptByField(u, value) == value <==> Holds(u, value)
  {
    FieldHolds(value, u.size, u.logicalMinimum < 0);
  }

  lemma KeptInRange(u: Usage, value: int)
    requires 1 <= u.size <= 32 && Holds(u, u.logicalMinimum) && Holds(u, u.logicalMaximum)
    requires u.logicalMinimum <= value <= u.logicalMaximum
    ensures KeptByField(u, value) == value
  {
    KeptExactly(u, value);
  }

  lemma StillReadsZero(u: Usage, data: seq<Octet>, layout: Layout)
    requires FieldOk(layout, u) && |data| == |layout.relative| && Still(data, layout.relative)
    ensures ReadField(u, data) == 0
  {
    FieldClear(data, layout.relative, u.bitpos, u.size);
  }

  lemma FieldIsLawful(cfg: Config, u: Usage)
    requires ShapeOk(cfg) && cfg.fields == BIT_FIELDS && u.reportId < |cfg.layouts|
    requires FieldOk(cfg.layouts[u.reportId], u)
    ensures FieldLaws(cfg, u)
  {
    var f, layout := cfg.fields, cfg.layouts[u.reportId];
    forall d, v
      ensures |f.write(u, d, v)| == |d|
      ensures |d| == Size(cfg, u.reportId) ==>
                && f.read(u, f.write(u, d, v)) == f.kept(u, v)
                && Absolute(cfg, u.reportId, f.write(u, d, v)) == Absolute(cfg, u.reportId, d)
    {
      if |d| == Size(cfg, u.reportId) {
        WriteReads(u, d, v);
        PutBitsMasked(d, layout.absolute, u.bitpos, u.size, v);
      }
    }
    forall v | u.logicalMinimum <= v <= u.logicalMaximum
      ensures f.kept(u, v) == v
    {
      KeptInRange(u, v);
    }
    forall d | |d| == Size(cfg, u.reportId) && Still(d, layout.relative)
      ensures f.read(u, d) == 0
    {
      StillReadsZero(u, d, layout);
    }
  }

  lemma DisjointIndependent(cfg: Config, u: Usage, v: Usage)
    requires cfg.fields == BIT_FIELDS && Disjoint(u.bitpos, u.size, v.bitpos, v.size)
    ensures Independent(cfg, u, v)
  {
    var f := cfg.fields;
    forall d, x
      ensures f.read(v, f.write(u, d, x)) == f.read(v, d)
      ensures f.read(u, f.write(v, d, x)) == f.read(u, d)
    {
      PutBitsFrame(d, u.bitpos, u.size, x, v.bitpos, v.size);
      PutBitsFrame(d, v.bitpos, v.size, x, u.bitpos, u.size);
    }
  }

  /** A well-formed descriptor makes a well-formed pipeline. */
  lemma DescriptorIsLawful(cfg: Config)
    requires DescriptorOk(cfg)
    ensures ConfigOk(cfg)
  {
    forall j | 0 <= j < |cfg.usages|
      ensures FieldLaws(cfg, cfg.usages[j])
    {
      FieldIsLawful(cfg, cfg.usages[j]);
    }
    forall j, k | 0 <= j < k < |cfg.usages|
      ensures Independent(cfg, cfg.usages[j], cfg.usages[k])
    {
      if cfg.usages[j].reportId == cfg.usages[k].reportId {
        DisjointIndependent(cfg, cfg.usages[j], cfg.usages[k]);
      }
    }
  }

  lemma LossByKept(f: FieldAccess, u: Usage, data: seq<Octet>, a: int)
    ensures var sum := f.read(u, data) + Thousandths(a);
            FieldLoss(f, u, data, a) == 0 <==> Thousandths(a) == 0 || f.kept(u, sum) == sum
  {
  }

  /** Moving loses something exactly when there is a whole unit to move and the field's width cannot hold the sum. */
  lemma LossExactly(u: Usage, data: seq<Octet>, a: int)
    requires 1 <= u.size <= 32
    ensures FieldLoss(BIT_FIELDS, u, data, a) == 0
       <==> Thousandths(a) == 0 || Holds(u, ReadField(u, data) + Thousandths(a))
  {
    LossByKept(BIT_FIELDS, u, data, a);
    KeptExactly(u, ReadField(u, data) + Thousandths(a));
  }

  // ---- runs, with real bit fields ------------------------------------------------------------------

  /** Writing bits outside a usage's field, as buttons and keys do, injects no movement. */
  lemma WriteLeavesMotion(cfg: Config, p: Pipe, id: nat, bitpos: nat, size: nat, value: int, k: nat)
    requires ShapeOk(cfg) && cfg.fields == BIT_FIELDS && PipeOk(cfg, p) && id < |cfg.layouts| && k < |cfg.usages|
    requires cfg.usages[k].reportId == id ==> Disjoint(bitpos, size, cfg.usages[k].bitpos, cfg.usages[k].size)
    ensures Injection(cfg, p, id, PutBits(p.working[id], bitpos, size, value), k) == 0
  {
    if cfg.usages[k].reportId == id {
      PutBitsFrame(p.working[id], bitpos, size, value, cfg.usages[k].bitpos, cfg.usages[k].size);
    }
  }

  /** What a queued macro does with a relative usage it lists: it writes a 1 over the usage's field. */
  function MacroWrite(cfg: Config, p: Pipe, k: nat): (data: seq<Octet>)
    requires ShapeOk(cfg) && PipeOk(cfg, p) && k < |cfg.usages|
    ensures |data| == Size(cfg, cfg.usages[k].reportId)
  {
    WriteField(cfg.usages[k], p.working[cfg.usages[k].reportId], 1)
  }

  /** That invents a unit when the field is empty, as it is unless a full ring left the last frame's report in place;
      what the report held then is overwritten. A one-bit field with a sign reads back -1. */
  lemma MacroInjects(cfg: Config, p: Pipe, k: nat)
    requires DescriptorOk(cfg) && PipeOk(cfg, p) && k < |cfg.usages|
    ensures var u, one := cfg.usages[k], if cfg.usages[k].size == 1 && Signed(cfg.usages[k]) then -1 else 1;
            Injection(cfg, p, u.reportId, MacroWrite(cfg, p, k), k) == one - WorkingValue(cfg, p, k)
  {
    var u := cfg.usages[k];
    WriteReads(u, p.working[u.reportId], 1);
    OneKept(u);
  }

  lemma OneKept(u: Usage)
    requires 1 <= u.size <= 32
    ensures KeptByField(u, 1) == if u.size == 1 && Signed(u) then -1 else 1
  {
    KeptExactly(u, 1);
  }

  /** No movement is lost or invented all through a run exactly when every write leaves the usage's field as it was, and
      every frame that moves whole units moves a sum that the field's width can hold. */
  lemma NoMotionLost(cfg: Config, es: seq<Event>, k: nat)
    requires DescriptorOk(cfg) && k < |cfg.usages|
    ensures AlwaysConserved(cfg, es, k) <==> EveryEventFits(cfg, es, k)
  {
    DescriptorIsLawful(cfg);
    MotionIsConserved(cfg, es, k);
    HarmlessIsFitting(cfg, es, k);
  }

  /** The guard that an event has to meet: what a caller can check before it. */
  ghost predicate Fitting(cfg: Config, w: World, e: Event, k: nat)
    requires DescriptorOk(cfg) && WorldOk(cfg, w) && k < |cfg.usages|
  {
    var u := cfg.usages[k];
    var held, units := ReadField(u, w.pipe.working[u.reportId]), Thousandths(w.pipe.acc[k]);
    match e
    case Write(id, data) => Enabled(cfg, e) && id == u.reportId ==> ReadField(u, data) == held
    case Frame => units == 0 || Holds(u, held + units)
    case _ => true
  }

  ghost predicate EveryEventFits(cfg: Config, es: seq<Event>, k: nat)
    requires DescriptorOk(cfg) && k < |cfg.usages|
  {
    es == [] || (EveryEventFits(cfg, es[..|es| - 1], k) && Fitting(cfg, After(cfg, es[..|es| - 1]), es[|es| - 1], k))
  }

  lemma FittingExactly(cfg: Config, w: World, e: Event, k: nat)
    requires DescriptorOk(cfg) && WorldOk(cfg, w) && k < |cfg.usages|
    ensures Harmless(cfg, w, e, k) <==> Fitting(cfg, w, e, k)
  {
    var u := cfg.usages[k];
    LossExactly(u, w.pipe.working[u.reportId], w.pipe.acc[k]);
  }

  lemma {:induction false} HarmlessIsFitting(cfg: Config, es: seq<Event>, k: nat)
    requires DescriptorOk(cfg) && k < |cfg.usages|
    ensures AllHarmless(cfg, es, k) <==> EveryEventFits(cfg, es, k)
  {
    if es != [] {
      HarmlessIsFitting(cfg, es[..|es| - 1], k);
      FittingExactly(cfg, After(cfg, es[..|es| - 1]), es[|es| - 1], k);
    }
  }

  /** A frame loses some of a usage's movement exactly when whole units are to be moved and the field's width
      cannot hold the sum. */
  lemma FrameLosesExactly(cfg: Config, w: World, k: nat)
    requires DescriptorOk(cfg) && WorldOk(cfg, w) && k < |cfg.usages|
    ensures Step(cfg, w, Frame).lost[k] == w.lost[k] <==> Fitting(cfg, w, Frame, k)
  {
    StepDrifts(cfg, w, Frame, k);
    FittingExactly(cfg, w, Frame, k);
  }

  // ---- both conditions matter -----------------------------------------------------------------------

  const AXIS := Usage(0, 0, 8, -127, 127)

  lemma AxisKeeps()
    ensures KeptByField(AXIS, 200) == -56
  {
    CutSmall(200, 8);
  }

  lemma AxisAtRest()
    ensures ReadField(AXIS, [0]) == 0
  {
    ZerosRead(1, 0, 8);
    assert [0] == seq(1, _ => 0 as Octet);
  }

  /** Two hundred units written to a signed eight-bit axis read back as -56. */
  lemma AxisWrapsAround()
    ensures KeptByField(AXIS, 200) == -56 && FieldLoss(BIT_FIELDS, AXIS, [0], 200000) == 256
  {
    hide KeptByField, ReadField;
    AxisKeeps();
    AxisAtRest();
  }

  lemma StartIsStill(cfg: Config, k: nat)
    requires ConfigOk(cfg) && k < |cfg.usages|
    ensures WorkingValue(cfg, Start(cfg).pipe, k) == 0
  {
    StartBalances(cfg, k);
  }

  lemma NothingSums(f: FieldAccess, u: Usage)
    ensures FieldSum(f, u, []) == 0
  {
  }

  /** A frame with nothing accumulated: what was injected is all that is in flight. */
  lemma FrameAtRest(cfg: Config, w: World, k: nat)
    requires ConfigOk(cfg) && WorldOk(cfg, w) && k < |cfg.usages| && w.sent == []
    requires w.moved[k] == 0 && w.pipe.acc[k] == 0 && w.lost[k] == 0
    requires Balanced(cfg, Step(cfg, w, Frame), k)
    ensures var r := Step(cfg, w, Frame);
            && r.moved[k] == 0 && r.sent == [] && r.pipe.acc[k] == 0
            && InFlight(cfg, r.pipe, k) == w.injected[k]
  {
    hide EndFrame, InFlight, FieldSum, HandledFrom, MoveFrom, Loss;
    FrameConserves(cfg, w.pipe, k);
    NoLossAtRest(cfg, w.pipe, k);
    NothingSums(cfg.fields, cfg.usages[k]);
  }

  /** A frame behind a write: the write's injection is all that is in flight. */
  lemma PressAndFrame(cfg: Config, press: Event, k: nat)
    requires ConfigOk(cfg) && press.Write? && Enabled(cfg, press) && k < |cfg.usages|
    ensures After(cfg, [press]) == Step(cfg, Start(cfg), press)
    ensures var w := After(cfg, [press, Frame]);
            && w.moved[k] == 0 && w.sent == [] && w.pipe.acc[k] == 0
            && InFlight(cfg, w.pipe, k) == Injection(cfg, Start(cfg).pipe, press.id, press.data, k)
  {
    hide After, InFlight, Balanced, Injection;
    var none: seq<Event> := [];
    assert none + [press] == [press] && [press] + [Frame] == [press, Frame];
    AfterNothing(cfg);
    AfterSnoc(cfg, none, press);
    AfterSnoc(cfg, [press], Frame);
    MotionIsAccountedFor(cfg, [press, Frame], k);
    FrameAtRest(cfg, Step(cfg, Start(cfg), press), k);
  }

  lemma AfterNothing(cfg: Config)
    requires ShapeOk(cfg)
    ensures After(cfg, []) == Start(cfg)
  {
  }

  lemma NoLossAtRest(cfg: Config, p: Pipe, k: nat)
    requires ShapeOk(cfg) && PipeOk(cfg, p) && k < |cfg.usages| && p.acc[k] == 0
    ensures Loss(cfg, p, k) == 0
  {
  }

  /** On any descriptor, a macro that lists a relative usage sends it off with a unit that nobody accumulated. */
  lemma MacroInventsMotion(cfg: Config, k: nat)
    requires DescriptorOk(cfg) && k < |cfg.usages| && (cfg.usages[k].size > 1 || !Signed(cfg.usages[k]))
    ensures var press := Write(cfg.usages[k].reportId, MacroWrite(cfg, Start(cfg).pipe, k));
            var w := After(cfg, [press, Frame]);
            && w.moved[k] == 0 && w.sent == [] && w.pipe.acc[k] == 0 && InFlight(cfg, w.pipe, k) == 1
  {
    hide After, InFlight;
    DescriptorIsLawful(cfg);
    StartIsStill(cfg, k);
    MacroInjects(cfg, Start(cfg).pipe, k);
    PressAndFrame(cfg, Write(cfg.usages[k].reportId, MacroWrite(cfg, Start(cfg).pipe, k)), k);
  }
}
