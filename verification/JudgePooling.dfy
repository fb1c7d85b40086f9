/** Pooling judge outcomes into counts and rates: `poolOutcomes` of evals/judge-canary-matrix.mjs. */
module JudgePooling {
  import opened Collections
  import opened Rounding

  /** One recorded outcome; an optional field is present when the record holds it with the right type. */
  datatype Outcome = Outcome(
    id: string,
    error: Option<string>,
    kind: Option<string>,
    caseLabel: Option<string>,
    cited: bool,
    rejected: bool,
    costUsd: Option<real>,
    voidedUsd: Option<real>,
    costProvenance: string,
    verdict: string,
    maxSeverity: string,
    authorFamily: string,
    repetition: Option<int>)

  datatype Rates = Rates(recall: Option<real>, falseAlarmRate: Option<real>)

  datatype Pooled = Pooled(
    cases: nat,
    invocations: nat,
    errors: nat,
    defectVerdicts: nat,
    rejected: nat,
    citedRejections: nat,
    recall: Option<real>,
    cleanVerdicts: nat,
    cleanRejected: nat,
    falseAlarmRate: Option<real>,
    costUsd: real,
    costPerCaseUsd: Option<real>,
    pricedCostPerVerdictUsd: Option<real>,
    minorAndAbove: Rates,
    majorAndAbove: Rates)

  function Ratio(part: nat, whole: nat): Option<real>
  {
    if whole > 0 then Some(part as real / whole as real) else None
  }

  const DEFECT_LABEL := "defect:"

  function KindOf(o: Outcome): Option<string>
  {
    if o.kind.Some? then o.kind
    else if o.caseLabel.Some? && DEFECT_LABEL <= o.caseLabel.value then Some(o.caseLabel.value[|DEFECT_LABEL|..])
    else None
  }

  predicate IsVerdict(o: Outcome) { o.error.None? }
  predicate IsDefect(o: Outcome) { IsVerdict(o) && KindOf(o).Some? }
  predicate IsClean(o: Outcome) { IsVerdict(o) && KindOf(o).None? }
  predicate CitedDefect(o: Outcome) { IsDefect(o) && o.cited }
  predicate RejectedDefect(o: Outcome) { IsDefect(o) && o.rejected }
  predicate RejectedClean(o: Outcome) { IsClean(o) && o.rejected }
  predicate IsPriced(o: Outcome) { IsVerdict(o) && o.costProvenance == "priced" && o.costUsd.Some? }

  predicate BlocksMinor(o: Outcome) { o.verdict == "fail" && o.maxSeverity in ["minor", "major", "critical"] }
  predicate BlocksMajor(o: Outcome) { o.verdict == "fail" && o.maxSeverity in ["major", "critical"] }
  predicate MinorDefect(o: Outcome) { IsDefect(o) && BlocksMinor(o) && o.cited }
  predicate MajorDefect(o: Outcome) { IsDefect(o) && BlocksMajor(o) && o.cited }
  predicate MinorClean(o: Outcome) { IsClean(o) && BlocksMinor(o) }
  predicate MajorClean(o: Outcome) { IsClean(o) && BlocksMajor(o) }

  function CostOf(o: Outcome): real
  {
    (if o.costUsd.Some? then o.costUsd.value else 0.0) + (if o.voidedUsd.Some? then o.voidedUsd.value else 0.0)
  }

  function AddCost(total: real, o: Outcome): real { total + CostOf(o) }
  function AddPriced(total: real, o: Outcome): real { total + if o.costUsd.Some? then o.costUsd.value else 0.0 }

  function Count(p: Outcome -> bool, outcomes: seq<Outcome>): nat { |Filter(p, outcomes)| }

  /** The raw counts and sums of a list of outcomes. */
  datatype Tally = Tally(
    cases: nat, invocations: nat, verdicts: nat,
    defects: nat, rejected: nat, cited: nat, minorDefects: nat, majorDefects: nat,
    clean: nat, cleanRejected: nat, minorClean: nat, majorClean: nat,
    cost: real, priced: nat, pricedCost: real)

  function TallyOf(outcomes: seq<Outcome>): Tally
  {
    Tally(
      |set o | o in outcomes :: o.id|, |outcomes|, Count(IsVerdict, outcomes),
      Count(IsDefect, outcomes), Count(RejectedDefect, outcomes), Count(CitedDefect, outcomes),
      Count(MinorDefect, outcomes), Count(MajorDefect, outcomes),
      Count(IsClean, outcomes), Count(RejectedClean, outcomes), Count(MinorClean, outcomes), Count(MajorClean, outcomes),
      Fold(AddCost, 0.0, outcomes), Count(IsPriced, outcomes), Fold(AddPriced, 0.0, Filter(IsPriced, outcomes)))
  }

  function Average(sum: real, n: nat): Option<real>
  {
    if n > 0 then Some(Round4(sum / n as real)) else None
  }

  /** The rates of a tally.  Errors sit outside both rates. */
  function Summarize(t: Tally): Pooled
    requires t.verdicts <= t.invocations
  {
    var costUsd := Round4(t.cost);
    Pooled(
      t.cases, t.invocations, t.invocations - t.verdicts,
      t.defects, t.rejected, t.cited, Ratio(t.cited, t.defects),
      t.clean, t.cleanRejected, Ratio(t.cleanRejected, t.clean),
      costUsd, Average(costUsd, t.invocations), Average(t.pricedCost, t.priced),
      Rates(Ratio(t.minorDefects, t.defects), Ratio(t.minorClean, t.clean)),
      Rates(Ratio(t.majorDefects, t.defects), Ratio(t.majorClean, t.clean)))
  }

  function PoolOutcomes(outcomes: seq<Outcome>): Pooled
  {
    Summarize(TallyOf(outcomes))
  }

  // ----- counts

  lemma CountAppend(p: Outcome -> bool, xs: seq<Outcome>, ys: seq<Outcome>)
    ensures Count(p, xs + ys) == Count(p, xs) + Count(p, ys)
  {
    FilterAppend(p, xs, ys);
  }

  lemma {:induction false} CountImplied(p: Outcome -> bool, q: Outcome -> bool, xs: seq<Outcome>)
    requires forall o :: p(o) ==> q(o)
    ensures Count(p, xs) <= Count(q, xs)
  {
    if xs != [] {
      CountImplied(p, q, xs[1..]);
    }
  }

  lemma {:induction false} CountSplit(p: Outcome -> bool, q: Outcome -> bool, r: Outcome -> bool, xs: seq<Outcome>)
    requires forall o :: p(o) <==> q(o) || r(o)
    requires forall o :: !(q(o) && r(o))
    ensures Count(p, xs) == Count(q, xs) + Count(r, xs)
  {
    if xs != [] {
      CountSplit(p, q, r, xs[1..]);
    }
  }

  lemma RatioMonotone(a: nat, b: nat, n: nat)
    requires a <= b
    ensures n > 0 ==> Ratio(a, n).value <= Ratio(b, n).value
  {
    if n > 0 {
      var x, y, d := a as real, b as real, n as real;
      assert x / d <= y / d;
    }
  }

  /** Every invocation is an error, a defect verdict or a clean verdict, and no rate exceeds one. */
  lemma PoolPartitions(outcomes: seq<Outcome>)
    ensures var p := PoolOutcomes(outcomes);
      && p.invocations == p.errors + p.defectVerdicts + p.cleanVerdicts
      && p.citedRejections <= p.defectVerdicts && p.rejected <= p.defectVerdicts && p.cleanRejected <= p.cleanVerdicts
      && (p.recall.Some? <==> p.defectVerdicts > 0) && (p.falseAlarmRate.Some? <==> p.cleanVerdicts > 0)
      && (p.costPerCaseUsd.None? ==> p.falseAlarmRate.None? && p.recall.None?)
  {
    CountSplit(IsVerdict, IsDefect, IsClean, outcomes);
    CountImplied(CitedDefect, IsDefect, outcomes);
    CountImplied(RejectedDefect, IsDefect, outcomes);
    CountImplied(RejectedClean, IsClean, outcomes);
  }

  /** Blocking at major and above is no more sensitive than at minor and above, and neither than recall. */
  lemma BlockingOrdered(outcomes: seq<Outcome>)
    ensures var p := PoolOutcomes(outcomes);
      p.recall.Some? ==>
        && p.majorAndAbove.recall.Some? && p.minorAndAbove.recall.Some?
        && p.majorAndAbove.recall.value <= p.minorAndAbove.recall.value <= p.recall.value
    ensures var p := PoolOutcomes(outcomes);
      p.falseAlarmRate.Some? ==>
        && p.majorAndAbove.falseAlarmRate.Some? && p.minorAndAbove.falseAlarmRate.Some?
        && p.majorAndAbove.falseAlarmRate.value <= p.minorAndAbove.falseAlarmRate.value
  {
    var defects, clean := Count(IsDefect, outcomes), Count(IsClean, outcomes);
    CountImplied(MajorDefect, MinorDefect, outcomes);
    CountImplied(MinorDefect, CitedDefect, outcomes);
    CountImplied(MajorClean, MinorClean, outcomes);
    RatioMonotone(Count(MajorDefect, outcomes), Count(MinorDefect, outcomes), defects);
    RatioMonotone(Count(MinorDefect, outcomes), Count(CitedDefect, outcomes), defects);
    RatioMonotone(Count(MajorClean, outcomes), Count(MinorClean, outcomes), clean);
  }

  // ----- files

  function Flatten(files: seq<seq<Outcome>>): seq<Outcome>
  {
    if files == [] then [] else Flatten(files[..|files| - 1]) + files[|files| - 1]
  }

  /** Counts add over files: what is pooled is counts, not rates. */
  lemma PoolAdds(xs: seq<Outcome>, ys: seq<Outcome>)
    ensures var p, q, r := PoolOutcomes(xs), PoolOutcomes(ys), PoolOutcomes(xs + ys);
      && r.invocations == p.invocations + q.invocations
      && r.errors == p.errors + q.errors
      && r.defectVerdicts == p.defectVerdicts + q.defectVerdicts
      && r.citedRejections == p.citedRejections + q.citedRejections
      && r.rejected == p.rejected + q.rejected
      && r.cleanVerdicts == p.cleanVerdicts + q.cleanVerdicts
      && r.cleanRejected == p.cleanRejected + q.cleanRejected
  {
    CountAppend(IsVerdict, xs, ys);
    CountAppend(IsDefect, xs, ys);
    CountAppend(CitedDefect, xs, ys);
    CountAppend(RejectedDefect, xs, ys);
    CountAppend(IsClean, xs, ys);
    CountAppend(RejectedClean, xs, ys);
  }

  lemma {:induction false} CostAppend(xs: seq<Outcome>, ys: seq<Outcome>)
    ensures Fold(AddCost, 0.0, xs + ys) == Fold(AddCost, 0.0, xs) + Fold(AddCost, 0.0, ys)
    decreases |ys|
  {
    if ys == [] {
      assert xs + ys == xs;
    } else {
      var n := |ys| - 1;
      CostAppend(xs, ys[..n]);
      assert xs + ys == xs + ys[..n] + [ys[n]] && ys == ys[..n] + [ys[n]];
      FoldStep(AddCost, 0.0, xs + ys[..n], ys[n]);
      FoldStep(AddCost, 0.0, ys[..n], ys[n]);
    }
  }

  /** Money is neither lost nor invented: pooled costs add over files, up to their rounding. */
  lemma PoolCostAdds(xs: seq<Outcome>, ys: seq<Outcome>)
    ensures PoolOutcomes(xs).costUsd + PoolOutcomes(ys).costUsd - 0.00015
      <= PoolOutcomes(xs + ys).costUsd <= PoolOutcomes(xs).costUsd + PoolOutcomes(ys).costUsd + 0.00015
  {
    CostAppend(xs, ys);
    Round4Near(Fold(AddCost, 0.0, xs));
    Round4Near(Fold(AddCost, 0.0, ys));
    Round4Near(Fold(AddCost, 0.0, xs + ys));
  }

  /** Whether a rounded mean, times the count, is the sum up to rounding. */
  predicate IsMean(mean: Option<real>, sum: real, n: nat)
  {
    && (mean.Some? <==> n > 0)
    && (mean.Some? ==> sum - 0.00005 * n as real <= mean.value * n as real <= sum + 0.00005 * n as real)
  }

  lemma AverageIsMean(sum: real, n: nat)
    ensures IsMean(Average(sum, n), sum, n)
  {
    if n > 0 {
      MeanNear(sum, n);
    }
  }

  /** The two costs per call are means: of the whole cost, and of what was really priced. */
  lemma CostsAreMeans(outcomes: seq<Outcome>)
    ensures IsMean(PoolOutcomes(outcomes).costPerCaseUsd, PoolOutcomes(outcomes).costUsd, |outcomes|)
    ensures IsMean(PoolOutcomes(outcomes).pricedCostPerVerdictUsd, Fold(AddPriced, 0.0, Filter(IsPriced, outcomes)), Count(IsPriced, outcomes))
  {
    AverageIsMean(PoolOutcomes(outcomes).costUsd, |outcomes|);
    AverageIsMean(Fold(AddPriced, 0.0, Filter(IsPriced, outcomes)), Count(IsPriced, outcomes));
  }

  predicate Within(part: nat, whole: nat, lo: real, hi: real)
  {
    lo * whole as real <= part as real <= hi * whole as real
  }

  lemma WithinAdds(p: nat, w: nat, q: nat, v: nat, lo: real, hi: real)
    requires Within(p, w, lo, hi) && Within(q, v, lo, hi)
    ensures Within(p + q, w + v, lo, hi)
  {
    assert lo * (w as real + v as real) == lo * w as real + lo * v as real;
    assert hi * (w as real + v as real) == hi * w as real + hi * v as real;
  }

  lemma RatioWithin(part: nat, whole: nat, lo: real, hi: real)
    requires part <= whole
    ensures Within(part, whole, lo, hi) <==> (whole > 0 ==> lo <= Ratio(part, whole).value <= hi)
  {
    if whole > 0 {
      var r, w := part as real / whole as real, whole as real;
      assert r * w == part as real;
      MultiplyOrdered(lo, r, w);
      MultiplyOrdered(r, hi, w);
      assert Ratio(part, whole).value == r;
    } else {
      assert lo * 0.0 == 0.0 && hi * 0.0 == 0.0;
    }
  }

  /** Whether a relation holds of two counts. */
  predicate CountsIn(within: (nat, nat) -> bool, part: Outcome -> bool, whole: Outcome -> bool, outcomes: seq<Outcome>)
  {
    within(Count(part, outcomes), Count(whole, outcomes))
  }

  lemma CountsAppend(within: (nat, nat) -> bool, part: Outcome -> bool, whole: Outcome -> bool, xs: seq<Outcome>, ys: seq<Outcome>)
    requires forall p: nat, w: nat, q: nat, v: nat | within(p, w) && within(q, v) :: within(p + q, w + v)
    requires CountsIn(within, part, whole, xs) && CountsIn(within, part, whole, ys)
    ensures CountsIn(within, part, whole, xs + ys)
  {
    CountAppend(part, xs, ys);
    CountAppend(whole, xs, ys);
  }

  /** What the counts of every file have and adding keeps, the pooled counts have. */
  lemma {:induction false} FlattenCounts(within: (nat, nat) -> bool, part: Outcome -> bool, whole: Outcome -> bool, files: seq<seq<Outcome>>)
    requires within(0, 0) && forall p: nat, w: nat, q: nat, v: nat | within(p, w) && within(q, v) :: within(p + q, w + v)
    requires forall i | 0 <= i < |files| :: CountsIn(within, part, whole, files[i])
    ensures CountsIn(within, part, whole, Flatten(files))
    decreases |files|
  {
    if files != [] {
      var n := |files| - 1;
      FlattenCounts(within, part, whole, files[..n]);
      CountsAppend(within, part, whole, Flatten(files[..n]), files[n]);
    }
  }

  function Between(lo: real, hi: real): (nat, nat) -> bool
  {
    (part: nat, whole: nat) => Within(part, whole, lo, hi)
  }

  lemma BetweenAdds(lo: real, hi: real)
    ensures Between(lo, hi)(0, 0)
    ensures forall p: nat, w: nat, q: nat, v: nat | Between(lo, hi)(p, w) && Between(lo, hi)(q, v) :: Between(lo, hi)(p + q, w + v)
  {
    forall p: nat, w: nat, q: nat, v: nat | Between(lo, hi)(p, w) && Between(lo, hi)(q, v) ensures Between(lo, hi)(p + q, w + v) {
      WithinAdds(p, w, q, v, lo, hi);
    }
  }

  /** A count is the number of places where the predicate holds. */
  lemma CountIsPlaces(p: Outcome -> bool, outcomes: seq<Outcome>)
    ensures Count(p, outcomes) == |Places(p, outcomes)|
  {
    FilterPlaces(p, outcomes);
  }

  /** Pooling files puts their outcomes one after another. */
  lemma FlattenExact(files: seq<seq<Outcome>>, last: seq<Outcome>)
    ensures Flatten([]) == [] && Flatten([last]) == last && Flatten(files + [last]) == Flatten(files) + last
  {
    assert [last][..0] == [] && (files + [last])[..|files|] == files;
  }

  // ----- the rates on the outcomes themselves

  /** A verdict on a case with a planted defect, by its kind or by its label. */
  predicate Planted(o: Outcome)
  {
    o.error.None? && (o.kind.Some? || (o.caseLabel.Some? && "defect:" <= o.caseLabel.value))
  }

  /** A verdict on a clean case. */
  predicate Sound(o: Outcome) { o.error.None? && !Planted(o) }

  predicate FailsAt(o: Outcome, severities: set<string>) { o.verdict == "fail" && o.maxSeverity in severities }

  datatype RateName = Recall | FalseAlarm | MinorRecall | MinorFalseAlarm | MajorRecall | MajorFalseAlarm

  function RateOf(p: Pooled, name: RateName): Option<real>
  {
    match name
    case Recall => p.recall
    case FalseAlarm => p.falseAlarmRate
    case MinorRecall => p.minorAndAbove.recall
    case MinorFalseAlarm => p.minorAndAbove.falseAlarmRate
    case MajorRecall => p.majorAndAbove.recall
    case MajorFalseAlarm => p.majorAndAbove.falseAlarmRate
  }

  predicate Caught(o: Outcome) { Planted(o) && o.cited }
  predicate FalselyRejected(o: Outcome) { Sound(o) && o.rejected }
  predicate CaughtAtMinor(o: Outcome) { Caught(o) && FailsAt(o, {"minor", "major", "critical"}) }
  predicate CaughtAtMajor(o: Outcome) { Caught(o) && FailsAt(o, {"major", "critical"}) }
  predicate FailedAtMinor(o: Outcome) { Sound(o) && FailsAt(o, {"minor", "major", "critical"}) }
  predicate FailedAtMajor(o: Outcome) { Sound(o) && FailsAt(o, {"major", "critical"}) }

  /** The verdicts a rate counts. */
  function PartOf(name: RateName): Outcome -> bool
  {
    match name
    case Recall => Caught
    case FalseAlarm => FalselyRejected
    case MinorRecall => CaughtAtMinor
    case MinorFalseAlarm => FailedAtMinor
    case MajorRecall => CaughtAtMajor
    case MajorFalseAlarm => FailedAtMajor
  }

  /** The verdicts it counts them among. */
  function WholeOf(name: RateName): Outcome -> bool
  {
    match name
    case Recall => Planted
    case MinorRecall => Planted
    case MajorRecall => Planted
    case _ => Sound
  }

  lemma {:induction false} CountAgrees(p: Outcome -> bool, q: Outcome -> bool, outcomes: seq<Outcome>)
    requires forall o :: p(o) == q(o)
    ensures Count(p, outcomes) == Count(q, outcomes)
  {
    CountImplied(p, q, outcomes);
    CountImplied(q, p, outcomes);
  }

  /** The pooled counts are the counts of the verdicts themselves. */
  lemma CountsExact(outcomes: seq<Outcome>)
    ensures var p := PoolOutcomes(outcomes);
      && p.invocations == |outcomes| && p.errors == |outcomes| - Count(Planted, outcomes) - Count(Sound, outcomes)
      && p.defectVerdicts == Count(Planted, outcomes) && p.cleanVerdicts == Count(Sound, outcomes)
      && p.citedRejections == Count(Caught, outcomes) && p.cleanRejected == Count(FalselyRejected, outcomes)
      && p.rejected == Count((o: Outcome) => Planted(o) && o.rejected, outcomes)
  {
    PoolPartitions(outcomes);
    CountAgrees(IsDefect, Planted, outcomes);
    CountAgrees(IsClean, Sound, outcomes);
    CountAgrees(CitedDefect, Caught, outcomes);
    CountAgrees(RejectedClean, FalselyRejected, outcomes);
    CountAgrees(RejectedDefect, (o: Outcome) => Planted(o) && o.rejected, outcomes);
  }

  lemma RecallsAreRatios(outcomes: seq<Outcome>)
    ensures var p, n := PoolOutcomes(outcomes), Count(Planted, outcomes);
      && p.recall == Ratio(Count(Caught, outcomes), n)
      && p.minorAndAbove.recall == Ratio(Count(CaughtAtMinor, outcomes), n)
      && p.majorAndAbove.recall == Ratio(Count(CaughtAtMajor, outcomes), n)
  {
    CountAgrees(IsDefect, Planted, outcomes);
    CountAgrees(CitedDefect, Caught, outcomes);
    CountAgrees(MinorDefect, CaughtAtMinor, outcomes);
    CountAgrees(MajorDefect, CaughtAtMajor, outcomes);
  }

  lemma FalseAlarmsAreRatios(outcomes: seq<Outcome>)
    ensures var p, n := PoolOutcomes(outcomes), Count(Sound, outcomes);
      && p.falseAlarmRate == Ratio(Count(FalselyRejected, outcomes), n)
      && p.minorAndAbove.falseAlarmRate == Ratio(Count(FailedAtMinor, outcomes), n)
      && p.majorAndAbove.falseAlarmRate == Ratio(Count(FailedAtMajor, outcomes), n)
  {
    CountAgrees(IsClean, Sound, outcomes);
    CountAgrees(RejectedClean, FalselyRejected, outcomes);
    CountAgrees(MinorClean, FailedAtMinor, outcomes);
    CountAgrees(MajorClean, FailedAtMajor, outcomes);
  }

  function PooledRate(outcomes: seq<Outcome>, name: RateName): Option<real> { RateOf(PoolOutcomes(outcomes), name) }

  lemma RateIsRatio(outcomes: seq<Outcome>, name: RateName)
    ensures PooledRate(outcomes, name) == Ratio(Count(PartOf(name), outcomes), Count(WholeOf(name), outcomes))
  {
    RecallsAreRatios(outcomes);
    FalseAlarmsAreRatios(outcomes);
  }

  predicate InBounds(rate: Option<real>, lo: real, hi: real) { rate.Some? ==> lo <= rate.value <= hi }

  lemma PartIsWithinWhole(name: RateName, o: Outcome)
    ensures PartOf(name)(o) ==> WholeOf(name)(o)
  {
  }

  lemma RatioInBounds(part: Outcome -> bool, whole: Outcome -> bool, outcomes: seq<Outcome>, lo: real, hi: real)
    requires forall o :: part(o) ==> whole(o)
    ensures InBounds(Ratio(Count(part, outcomes), Count(whole, outcomes)), lo, hi) <==> CountsIn(Between(lo, hi), part, whole, outcomes)
  {
    CountImplied(part, whole, outcomes);
    RatioWithin(Count(part, outcomes), Count(whole, outcomes), lo, hi);
  }

  /** Every rate is measured exactly when it has verdicts to count among, and is their share of what it counts. */
  lemma RateExact(outcomes: seq<Outcome>, name: RateName, lo: real, hi: real)
    ensures PooledRate(outcomes, name).Some? <==> Count(WholeOf(name), outcomes) > 0
    ensures InBounds(PooledRate(outcomes, name), lo, hi)
      <==> Within(Count(PartOf(name), outcomes), Count(WholeOf(name), outcomes), lo, hi)
  {
    RateIsRatio(outcomes, name);
    forall o ensures PartOf(name)(o) ==> WholeOf(name)(o) {
      PartIsWithinWhole(name, o);
    }
    RatioInBounds(PartOf(name), WholeOf(name), outcomes, lo, hi);
  }

  lemma RatioBetween(part: Outcome -> bool, whole: Outcome -> bool, files: seq<seq<Outcome>>, lo: real, hi: real)
    requires forall o :: part(o) ==> whole(o)
    requires forall i | 0 <= i < |files| :: InBounds(Ratio(Count(part, files[i]), Count(whole, files[i])), lo, hi)
    ensures InBounds(Ratio(Count(part, Flatten(files)), Count(whole, Flatten(files))), lo, hi)
  {
    forall i | 0 <= i < |files| ensures CountsIn(Between(lo, hi), part, whole, files[i]) {
      RatioInBounds(part, whole, files[i], lo, hi);
    }
    BetweenAdds(lo, hi);
    FlattenCounts(Between(lo, hi), part, whole, files);
    RatioInBounds(part, whole, Flatten(files), lo, hi);
  }

  /**
   * Pooling counts is not averaging rates, but it stays between them: each pooled rate lies within
   * any bounds that hold the measured rate of every file.
   */
  lemma PooledRateBetween(files: seq<seq<Outcome>>, name: RateName, lo: real, hi: real)
    requires forall i | 0 <= i < |files| :: InBounds(PooledRate(files[i], name), lo, hi)
    ensures InBounds(PooledRate(Flatten(files), name), lo, hi)
  {
    forall i | 0 <= i < |files| ensures InBounds(Ratio(Count(PartOf(name), files[i]), Count(WholeOf(name), files[i])), lo, hi) {
      RateIsRatio(files[i], name);
    }
    forall o ensures PartOf(name)(o) ==> WholeOf(name)(o) {
      PartIsWithinWhole(name, o);
    }
    RatioBetween(PartOf(name), WholeOf(name), files, lo, hi);
    RateIsRatio(Flatten(files), name);
  }

  // ----- costs on the outcomes themselves

  function SpentOn(o: Outcome): real { if o.costUsd.Some? then o.costUsd.value else 0.0 }
  function VoidedOn(o: Outcome): real { if o.voidedUsd.Some? then o.voidedUsd.value else 0.0 }

  /** What a priced verdict cost; a refused call, an error or an unpriced verdict counts nothing. */
  function PaidFor(o: Outcome): real
  {
    if o.error.None? && o.costProvenance == "priced" && o.costUsd.Some? then o.costUsd.value else 0.0
  }

  lemma {:induction false} CostsExact(outcomes: seq<Outcome>)
    ensures Fold(AddCost, 0.0, outcomes) == SumBy(SpentOn, outcomes) + SumBy(VoidedOn, outcomes)
  {
    if outcomes != [] {
      CostsExact(outcomes[..|outcomes| - 1]);
    }
  }

  lemma {:induction false} PaidExact(outcomes: seq<Outcome>)
    ensures Fold(AddPriced, 0.0, Filter(IsPriced, outcomes)) == SumBy(PaidFor, outcomes)
  {
    if outcomes != [] {
      var n := |outcomes| - 1;
      PaidExact(outcomes[..n]);
      assert outcomes == outcomes[..n] + [outcomes[n]];
      FilterSnoc(IsPriced, outcomes[..n], outcomes[n]);
      if IsPriced(outcomes[n]) {
        FoldStep(AddPriced, 0.0, Filter(IsPriced, outcomes[..n]), outcomes[n]);
      }
    }
  }

  /** Both what was spent and what was voided count against a judge; only priced verdicts count for their price. */
  lemma MoneyExact(outcomes: seq<Outcome>)
    ensures var p, all := PoolOutcomes(outcomes), SumBy(SpentOn, outcomes) + SumBy(VoidedOn, outcomes);
      all - 0.00005 < p.costUsd <= all + 0.00005
    ensures IsMean(PoolOutcomes(outcomes).pricedCostPerVerdictUsd, SumBy(PaidFor, outcomes),
                   Count((o: Outcome) => o.error.None? && o.costProvenance == "priced" && o.costUsd.Some?, outcomes))
  {
    CostsExact(outcomes);
    PaidExact(outcomes);
    Round4Near(Fold(AddCost, 0.0, outcomes));
    CountAgrees(IsPriced, (o: Outcome) => o.error.None? && o.costProvenance == "priced" && o.costUsd.Some?, outcomes);
    CostsAreMeans(outcomes);
  }

  /** The cases are the distinct ids. */
  lemma CasesExact(outcomes: seq<Outcome>)
    ensures PoolOutcomes(outcomes).cases == |set o | o in outcomes :: o.id|
  {
  }

  // ----- order

  lemma FoldCostPermuted(xs: seq<Outcome>, ys: seq<Outcome>)
    requires multiset(xs) == multiset(ys)
    ensures Fold(AddCost, 0.0, xs) == Fold(AddCost, 0.0, ys)
    ensures Fold(AddPriced, 0.0, xs) == Fold(AddPriced, 0.0, ys)
  {
    FoldPermuted(AddCost, 0.0, xs, ys);
    FoldPermuted(AddPriced, 0.0, xs, ys);
  }

  lemma TallyIgnoresOrder(xs: seq<Outcome>, ys: seq<Outcome>)
    requires multiset(xs) == multiset(ys)
    ensures TallyOf(xs) == TallyOf(ys)
  {
    MembersOfPermuted(xs, ys);
    assert (set o | o in xs :: o.id) == (set o | o in ys :: o.id);
    FilterPermuted(IsVerdict, xs, ys);
    FilterPermuted(IsDefect, xs, ys);
    FilterPermuted(IsClean, xs, ys);
    FilterPermuted(CitedDefect, xs, ys);
    FilterPermuted(RejectedDefect, xs, ys);
    FilterPermuted(RejectedClean, xs, ys);
    FilterPermuted(MinorDefect, xs, ys);
    FilterPermuted(MajorDefect, xs, ys);
    FilterPermuted(MinorClean, xs, ys);
    FilterPermuted(MajorClean, xs, ys);
    FilterPermuted(IsPriced, xs, ys);
    FoldCostPermuted(xs, ys);
    FoldCostPermuted(Filter(IsPriced, xs), Filter(IsPriced, ys));
  }

  /** Pooling does not depend on the order of the outcomes. */
  lemma PoolIgnoresOrder(xs: seq<Outcome>, ys: seq<Outcome>)
    requires multiset(xs) == multiset(ys)
    ensures PoolOutcomes(xs) == PoolOutcomes(ys)
  {
    TallyIgnoresOrder(xs, ys);
  }
}
