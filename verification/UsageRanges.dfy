/** Usage ranges compressed into runs, for the host: `rlencode`. */
module UsageRanges {
  import opened Bytes

  /** A range of usages, both ends included. */
  datatype Range = Range(minimum: nat, maximum: nat)

  datatype Run = Run(usage: nat, count: nat)

  /** As an ordered set of 64-bit keys gives them, each range being one that 32-bit sums can handle. */
  ghost predicate Ordered(ranges: seq<Range>) {
    && (forall i :: 0 <= i < |ranges| ==> ranges[i].minimum <= ranges[i].maximum < TWO32 - 1)
    && (forall i, j :: 0 <= i < j < |ranges| ==> ranges[i].minimum <= ranges[j].minimum)
  }

  predicate InRange(u: nat, r: Range) {
    r.minimum <= u <= r.maximum
  }

  predicate InRun(u: nat, r: Run) {
    r.usage <= u < r.usage + r.count
  }

  /** Some range holds the usage. */
  predicate InRanges(u: nat, ranges: seq<Range>) {
    ranges != [] && (InRanges(u, ranges[..|ranges| - 1]) || InRange(u, ranges[|ranges| - 1]))
  }

  predicate InRuns(u: nat, runs: seq<Run>) {
    runs != [] && (InRuns(u, runs[..|runs| - 1]) || InRun(u, runs[|runs| - 1]))
  }

  /** Ranges from usage 0 on are passed over. */
  function Counted(ranges: seq<Range>): seq<Range> {
    if ranges == [] then [] else
      var n := |ranges| - 1;
      Counted(ranges[..n]) + if ranges[n].minimum == 0 then [] else [ranges[n]]
  }

  /** Runs in ascending order, none empty, with a gap after each. */
  predicate Canonical(runs: seq<Run>) {
    runs == [] ||
    (var n := |runs| - 1;
     Canonical(runs[..n]) && runs[n].count > 0 && runs[n].usage > 0 && Before(runs[..n], runs[n].usage))
  }

  /** The last run ends, with a gap, before this usage. */
  predicate Before(runs: seq<Run>, u: nat) {
    runs == [] || runs[|runs| - 1].usage + runs[|runs| - 1].count < u
  }

  lemma SnocCanonical(runs: seq<Run>, start: nat, count: nat)
    requires Canonical(runs) && count > 0 && start > 0 && Before(runs, start)
    ensures Canonical(runs + [Run(start, count)])
    ensures forall u :: InRuns(u, runs + [Run(start, count)]) <==> InRuns(u, runs) || InRun(u, Run(start, count))
  {
    var longer := runs + [Run(start, count)];
    assert longer[..|longer| - 1] == runs;
  }

  lemma RangesSnoc(ranges: seq<Range>, i: nat)
    requires i < |ranges|
    ensures Counted(ranges[..i + 1]) == Counted(ranges[..i]) + if ranges[i].minimum == 0 then [] else [ranges[i]]
    ensures forall u :: InRanges(u, Counted(ranges[..i + 1]))
                   <==> InRanges(u, Counted(ranges[..i])) || (ranges[i].minimum > 0 && InRange(u, ranges[i]))
  {
    assert ranges[..i + 1][..i] == ranges[..i];
    var before, now := Counted(ranges[..i]), ranges[i];
    if now.minimum == 0 {
      assert before + [] == before;
    } else {
      assert (before + [now])[..|before|] == before;
    }
  }

  /** The pending run grows or gives way to the next one, and nothing else changes which usages are held. */
  lemma Extends(start: nat, count: nat, r: Range, u: nat)
    requires 0 < start <= r.minimum <= r.maximum && count > 0 && r.minimum <= start + count
    ensures var longer := if r.maximum < start + count then count else count + (1 + r.maximum - (start + count));
            InRun(u, Run(start, longer)) <==> InRun(u, Run(start, count)) || InRange(u, r)
  {
  }

  /** `rlencode`: for any ordered ranges, canonical runs that hold exactly the usages of the ranges that do not start
      at usage 0. */
  method RunLengthEncode(ranges: seq<Range>) returns (output: seq<Run>)
    requires Ordered(ranges)
    ensures Canonical(output)
    ensures forall u :: InRuns(u, output) <==> InRanges(u, Counted(ranges))
  {
    output := [];
    var startUsage: nat, count: nat := 0, 0;
    for i := 0 to |ranges|
      invariant Canonical(output) && (startUsage == 0 ==> output == [])
      invariant startUsage > 0 ==>
                  i > 0 && startUsage <= ranges[i - 1].minimum && count > 0 && Before(output, startUsage)
      invariant startUsage + count < TWO32
      invariant forall u :: InRanges(u, Counted(ranges[..i]))
                       <==> InRuns(u, output) || (startUsage > 0 && InRun(u, Run(startUsage, count)))
    {
      RangesSnoc(ranges, i);
      var minimum, maximum := ranges[i].minimum, ranges[i].maximum;
      if startUsage == 0 {
        startUsage := minimum;
        count := 1 + maximum - minimum;
      } else if minimum <= startUsage + count {
        forall u: nat
          ensures var longer :=
                    if maximum < startUsage + count then count else count + (1 + maximum - (startUsage + count));
                  InRun(u, Run(startUsage, longer)) <==> InRun(u, Run(startUsage, count)) || InRange(u, ranges[i])
        {
          Extends(startUsage, count, ranges[i], u);
        }
        if maximum >= startUsage + count {
          count := count + (1 + maximum - (startUsage + count));
        }
      } else {
        SnocCanonical(output, startUsage, count);
        output := output + [Run(startUsage, count)];
        startUsage := minimum;
        count := 1 + maximum - minimum;
      }
    }
    assert ranges[..|ranges|] == ranges;
    if startUsage != 0 {
      SnocCanonical(output, startUsage, count);
      output := output + [Run(startUsage, count)];
    }
  }

  lemma {:induction false} CountedHoldsNoZero(ranges: seq<Range>)
    ensures !InRanges(0, Counted(ranges))
  {
    if ranges != [] {
      CountedHoldsNoZero(ranges[..|ranges| - 1]);
      assert ranges[..|ranges|] == ranges;
      RangesSnoc(ranges, |ranges| - 1);
    }
  }

  lemma {:induction false} AllCounted(ranges: seq<Range>)
    requires forall i :: 0 <= i < |ranges| ==> ranges[i].minimum > 0
    ensures Counted(ranges) == ranges
  {
    if ranges != [] {
      AllCounted(ranges[..|ranges| - 1]);
    }
  }

  lemma {:induction false} HoldsZero(ranges: seq<Range>, i: nat)
    requires i < |ranges| && ranges[i].minimum == 0
    ensures InRanges(0, ranges)
  {
    if i < |ranges| - 1 {
      HoldsZero(ranges[..|ranges| - 1], i);
    }
  }

  /** No usage is lost or invented exactly when no range starts at usage 0. */
  lemma UnionKeptExactly(ranges: seq<Range>)
    ensures (forall u: nat :: InRanges(u, Counted(ranges)) <==> InRanges(u, ranges))
       <==> (forall i :: 0 <= i < |ranges| ==> ranges[i].minimum > 0)
  {
    if i: nat :| i < |ranges| && ranges[i].minimum == 0 {
      HoldsZero(ranges, i);
      CountedHoldsNoZero(ranges);
      assert InRanges(0, ranges) && !InRanges(0, Counted(ranges));
    } else {
      AllCounted(ranges);
    }
  }

  const LOW := Range(0, 5)
  const HIGH := Range(10, 12)

  /** Such a range is lost altogether: of 0 to 5 and 10 to 12, only the latter is told. */
  lemma RangeFromZeroIsLost()
    ensures InRanges(3, [LOW, HIGH]) && !InRanges(3, Counted([LOW, HIGH]))
  {
    assert [LOW, HIGH][..1] == [LOW] && [LOW][..0] == [];
    assert Counted([LOW]) == Counted([LOW][..0]) + [];
    assert Counted([LOW, HIGH]) == [HIGH];
    assert [HIGH][..0] == [];
  }
}
