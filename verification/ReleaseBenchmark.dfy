/** The release benchmark: what each run must meet, what the pooled ratios of a model add to it. */
module ReleaseBenchmark {
  import opened Collections
  import opened Counting

  datatype Track = Track(candidateId: string, appleSongId: string)

  datatype Review = Review(
    candidateId: string, appleSongId: string, catalogIdentityCorrect: bool, relevant: bool, evidenceEligible: bool,
    evidenceAxes: seq<string>)

  datatype ConstraintReview = ConstraintReview(constraintId: string, compliant: bool)

  datatype Run = Run(
    scenarioId: string, outcome: string, actualCostUsd: real, tracks: seq<Track>, trackReviews: seq<Review>,
    constraintReviews: seq<ConstraintReview>)

  datatype Scenario = Scenario(
    id: string, targetCount: nat, exactFillRequired: bool, minimumPublishedRatio: real, maximumCostUsd: real,
    requiredEvidenceAxes: seq<string>, hardConstraints: seq<string>)

  datatype Thresholds = Thresholds(
    catalogIdentityPrecision: real, relevancePrecision: real, evidenceCoverage: real, hardConstraintCompliance: real,
    exactFillRate: real)

  const COMPLETE_OUTCOMES := ["complete"]
  const SAFE_PARTIAL_OUTCOMES :=
    ["partial_frontier_exhausted", "partial_evidence_shortfall", "partial_catalog_degraded", "partial_timed_out",
     "partial_policy_conflict"]

  predicate IsComplete(outcome: string) { outcome in COMPLETE_OUTCOMES }

  predicate IsSafePartial(outcome: string) { outcome in SAFE_PARTIAL_OUTCOMES }

  // ---------- means ----------

  /** The share of items that pass; nothing has no share. */
  function MeanBoolean<T>(s: seq<T>, p: T -> bool): Option<real> {
    if |s| == 0 then None else Some(CountTrue(s, p) as real / |s| as real)
  }

  predicate Below(mean: Option<real>, threshold: real) {
    mean.None? || mean.value < threshold
  }

  lemma ShareReaches(k: real, n: real, threshold: real)
    requires n > 0.0
    ensures k / n >= threshold <==> k >= threshold * n
  {
    var share := k / n;
    assert share * n == k;
    if share >= threshold {
      assert (share - threshold) * n >= 0.0;
    } else {
      assert (threshold - share) * n > 0.0;
    }
  }

  predicate Reaches<T>(s: seq<T>, p: T -> bool, threshold: real) {
    CountTrue(s, p) as real >= threshold * |s| as real
  }

  lemma ReachesThreshold<T>(s: seq<T>, p: T -> bool, threshold: real)
    ensures !Below(MeanBoolean(s, p), threshold) <==> |s| > 0 && Reaches(s, p, threshold)
  {
    hide CountTrue;
    if |s| > 0 {
      ShareReaches(CountTrue(s, p) as real, |s| as real, threshold);
    }
  }

  lemma ReachTogether<T>(s: seq<T>, t: seq<T>, p: T -> bool, threshold: real)
    requires Reaches(s, p, threshold) && Reaches(t, p, threshold)
    ensures Reaches(s + t, p, threshold)
  {
    CountAppend(s, t, p);
    hide CountTrue;
    assert threshold * |s + t| as real == threshold * |s| as real + threshold * |t| as real;
  }

  /** Parts that each reach a threshold reach it together. */
  lemma {:induction false} PooledShare<T>(parts: seq<seq<T>>, p: T -> bool, threshold: real)
    requires forall k | 0 <= k < |parts| :: Reaches(parts[k], p, threshold)
    ensures Reaches(Flatten(parts), p, threshold)
  {
    hide Reaches;
    if |parts| == 0 {
      NothingReaches(p, threshold);
      assert Flatten(parts) == [];
    } else {
      var before, last := parts[..|parts| - 1], parts[|parts| - 1];
      PooledShare(before, p, threshold);
      ReachTogether(Flatten(before), last, p, threshold);
    }
  }

  lemma NothingReaches<T>(p: T -> bool, threshold: real)
    ensures Reaches([], p, threshold)
  {
  }

  // ---------- one run ----------

  function IdentityCorrect(): Review -> bool { (r: Review) => r.catalogIdentityCorrect }
  function Relevant(): Review -> bool { (r: Review) => r.relevant }
  function EvidenceEligible(): Review -> bool { (r: Review) => r.evidenceEligible }
  function Compliant(): ConstraintReview -> bool { (r: ConstraintReview) => r.compliant }

  function ReviewedIds(reviews: seq<Review>): seq<string> {
    Mapped(reviews, (r: Review) => r.candidateId)
  }

  function ConstraintIds(reviews: seq<ConstraintReview>): seq<string> {
    Mapped(reviews, (c: ConstraintReview) => c.constraintId)
  }

  /** Tracks come with distinct candidates, targets and requirements are positive: what the parsers already checked. */
  ghost predicate Parsed(scenario: Scenario, run: Run) {
    && scenario.targetCount > 0 && |scenario.hardConstraints| > 0 && Distinct(scenario.hardConstraints)
    && forall i, j | 0 <= i < j < |run.tracks| :: run.tracks[i].candidateId != run.tracks[j].candidateId
  }

  /** The position of a candidate's review. */
  function ReviewOf(reviews: seq<Review>, candidateId: string): (r: nat)
    ensures r <= |reviews| && (r < |reviews| ==> reviews[r].candidateId == candidateId)
  {
    FirstIndex(ReviewedIds(reviews), candidateId)
  }

  /** The reviews cover the tracks one to one, and the constraints exactly. */
  ghost predicate Adjudicated(scenario: Scenario, run: Run) {
    && Distinct(ReviewedIds(run.trackReviews)) && |run.trackReviews| == |run.tracks|
    && (forall k | 0 <= k < |run.tracks| ::
          var at := ReviewOf(run.trackReviews, run.tracks[k].candidateId);
          at < |run.trackReviews| && run.trackReviews[at].appleSongId == run.tracks[k].appleSongId)
    && Distinct(ConstraintIds(run.constraintReviews)) && |run.constraintReviews| == |scenario.hardConstraints|
    && (forall c | c in scenario.hardConstraints :: c in ConstraintIds(run.constraintReviews))
  }

  ghost predicate Covered(run: Run) {
    forall k | 0 <= k < |run.tracks| :: ReviewOf(run.trackReviews, run.tracks[k].candidateId) < |run.trackReviews|
  }

  /** The reviews, in track order. */
  function ReviewsByTrack(run: Run): (r: seq<Review>)
    requires Covered(run)
    ensures |r| == |run.tracks|
  {
    seq(|run.tracks|, k requires 0 <= k < |run.tracks| => run.trackReviews[ReviewOf(run.trackReviews, run.tracks[k].candidateId)])
  }

  /** Covering one to one means the same reviews in another order. */
  lemma ReviewsByTrackAreReviews(scenario: Scenario, run: Run)
    requires Parsed(scenario, run) && Adjudicated(scenario, run)
    ensures multiset(ReviewsByTrack(run)) == multiset(run.trackReviews)
  {
    hide ReviewOf;
    var byTrack := ReviewsByTrack(run);
    forall i, j | 0 <= i < j < |byTrack| ensures byTrack[i] != byTrack[j] {
      ReviewIsOfTrack(run, i);
      ReviewIsOfTrack(run, j);
    }
    forall i, j | 0 <= i < j < |run.trackReviews| ensures run.trackReviews[i] != run.trackReviews[j] {
      assert ReviewedIds(run.trackReviews)[i] != ReviewedIds(run.trackReviews)[j];
    }
    hide ReviewsByTrack;
    DistinctCardinality(byTrack);
    DistinctCardinality(run.trackReviews);
    forall r | r in Elements(byTrack) ensures r in Elements(run.trackReviews) {
      var i :| 0 <= i < |byTrack| && byTrack[i] == r;
      ReviewIsOfTrack(run, i);
    }
    SubsetCardinality(Elements(byTrack), Elements(run.trackReviews));
    SameElements(byTrack, run.trackReviews);
  }

  lemma ReviewIsOfTrack(run: Run, k: nat)
    requires Covered(run)
    requires k < |run.tracks|
    ensures ReviewsByTrack(run)[k] in run.trackReviews && ReviewsByTrack(run)[k].candidateId == run.tracks[k].candidateId
  {
  }

  datatype RunFailure =
    | PublishedCountExceedsTarget | ExactFillShortfall | MinimumFillRatioShortfall | CostCeilingExceeded
    | CatalogIdentityPrecisionBelowThreshold | RelevancePrecisionBelowThreshold | EvidenceCoverageBelowThreshold
    | RequiredEvidenceAxisMissing | HardConstraintViolation | ExactFillHasNonCompleteOutcome | ShortfallIsNotATypedSafePartial

  datatype RunReport = RunReport(publishedCount: nat, exactFill: bool, failures: seq<RunFailure>, passed: bool)

  predicate MissesAxis(scenario: Scenario, reviews: seq<Review>) {
    exists r | r in reviews :: exists a | a in scenario.requiredEvidenceAxes :: a !in r.evidenceAxes
  }

  /** failures.push(code) under a condition. */
  function PushIf<T(!new)>(failures: seq<T>, condition: bool, code: T): (r: seq<T>)
    ensures forall c :: c in r <==> c in failures || (condition && c == code)
  {
    if condition then failures + [code] else failures
  }

  /** Whether a run fails a gate. */
  ghost predicate RunFails(thresholds: Thresholds, scenario: Scenario, run: Run, code: RunFailure)
    requires Covered(run) && scenario.targetCount > 0
  {
    match code
    case PublishedCountExceedsTarget => |run.tracks| > scenario.targetCount
    case ExactFillShortfall => scenario.exactFillRequired && |run.tracks| != scenario.targetCount
    case MinimumFillRatioShortfall => |run.tracks| as real < scenario.minimumPublishedRatio * scenario.targetCount as real
    case CostCeilingExceeded => run.actualCostUsd > scenario.maximumCostUsd
    case CatalogIdentityPrecisionBelowThreshold =>
      Below(MeanBoolean(ReviewsByTrack(run), IdentityCorrect()), thresholds.catalogIdentityPrecision)
    case RelevancePrecisionBelowThreshold => Below(MeanBoolean(ReviewsByTrack(run), Relevant()), thresholds.relevancePrecision)
    case EvidenceCoverageBelowThreshold => Below(MeanBoolean(ReviewsByTrack(run), EvidenceEligible()), thresholds.evidenceCoverage)
    case RequiredEvidenceAxisMissing => MissesAxis(scenario, ReviewsByTrack(run))
    case HardConstraintViolation => Below(MeanBoolean(run.constraintReviews, Compliant()), thresholds.hardConstraintCompliance)
    case ExactFillHasNonCompleteOutcome => |run.tracks| == scenario.targetCount && !IsComplete(run.outcome)
    case ShortfallIsNotATypedSafePartial => |run.tracks| != scenario.targetCount && !IsSafePartial(run.outcome)
  }

  ghost predicate RunPasses(thresholds: Thresholds, scenario: Scenario, run: Run)
    requires Covered(run) && scenario.targetCount > 0
  {
    forall code :: !RunFails(thresholds, scenario, run, code)
  }

  method CheckAdjudication(scenario: Scenario, run: Run) returns (error: Option<string>)
    ensures error.None? <==> Adjudicated(scenario, run)
  {
    if !AllDistinct(ReviewedIds(run.trackReviews)) || |run.trackReviews| != |run.tracks| {
      return Some("independent track adjudication does not exactly cover the manifest");
    }
    for k := 0 to |run.tracks|
      invariant forall j | 0 <= j < k ::
        var at := ReviewOf(run.trackReviews, run.tracks[j].candidateId);
        at < |run.trackReviews| && run.trackReviews[at].appleSongId == run.tracks[j].appleSongId
    {
      var at := ReviewOf(run.trackReviews, run.tracks[k].candidateId);
      if at == |run.trackReviews| || run.trackReviews[at].appleSongId != run.tracks[k].appleSongId {
        return Some("independent track adjudication does not match the manifest identities");
      }
    }
    if !AllDistinct(ConstraintIds(run.constraintReviews)) || |run.constraintReviews| != |scenario.hardConstraints|
      || exists c | c in scenario.hardConstraints :: c !in ConstraintIds(run.constraintReviews)
    {
      return Some("independent hard-constraint adjudication is incomplete");
    }
    return None;
  }

  /** Push a failure for exactly the gates that the run fails. */
  method CollectFailures(thresholds: Thresholds, scenario: Scenario, run: Run, reviews: seq<Review>) returns (failures: seq<RunFailure>)
    requires scenario.targetCount > 0 && Covered(run) && reviews == ReviewsByTrack(run)
    ensures forall code :: code in failures <==> RunFails(thresholds, scenario, run, code)
  {
    hide MeanBoolean, Below, MissesAxis, PushIf, IsComplete, IsSafePartial, ReviewsByTrack, Covered;
    var publishedCount := |run.tracks|;
    var publishedRatio := publishedCount as real / scenario.targetCount as real;
    ShareReaches(publishedCount as real, scenario.targetCount as real, scenario.minimumPublishedRatio);
    var exactFill := publishedCount == scenario.targetCount;
    failures := [];
    failures := PushIf(failures, publishedCount > scenario.targetCount, PublishedCountExceedsTarget);
    failures := PushIf(failures, scenario.exactFillRequired && !exactFill, ExactFillShortfall);
    failures := PushIf(failures, publishedRatio < scenario.minimumPublishedRatio, MinimumFillRatioShortfall);
    failures := PushIf(failures, run.actualCostUsd > scenario.maximumCostUsd, CostCeilingExceeded);
    failures := PushIf(failures, Below(MeanBoolean(reviews, IdentityCorrect()), thresholds.catalogIdentityPrecision),
                       CatalogIdentityPrecisionBelowThreshold);
    failures := PushIf(failures, Below(MeanBoolean(reviews, Relevant()), thresholds.relevancePrecision), RelevancePrecisionBelowThreshold);
    failures := PushIf(failures, Below(MeanBoolean(reviews, EvidenceEligible()), thresholds.evidenceCoverage), EvidenceCoverageBelowThreshold);
    failures := PushIf(failures, MissesAxis(scenario, reviews), RequiredEvidenceAxisMissing);
    failures := PushIf(failures, Below(MeanBoolean(run.constraintReviews, Compliant()), thresholds.hardConstraintCompliance),
                       HardConstraintViolation);
    failures := PushIf(failures, exactFill && !IsComplete(run.outcome), ExactFillHasNonCompleteOutcome);
    failures := PushIf(failures, !exactFill && !IsSafePartial(run.outcome), ShortfallIsNotATypedSafePartial);
  }

  /** Evaluate one run: a failure is reported for exactly the gates that the run fails. */
  method EvaluateRun(thresholds: Thresholds, scenario: Scenario, run: Run) returns (r: Result<RunReport>)
    requires Parsed(scenario, run)
    ensures r.Ok? <==> Adjudicated(scenario, run)
    ensures r.Ok? ==> r.value.publishedCount == |run.tracks| && r.value.exactFill == (|run.tracks| == scenario.targetCount)
    ensures r.Ok? ==> forall code :: code in r.value.failures <==> RunFails(thresholds, scenario, run, code)
    ensures r.Ok? ==> (r.value.passed <==> RunPasses(thresholds, scenario, run))
  {
    hide RunFails;
    var error := CheckAdjudication(scenario, run);
    if error.Some? { return Err(error.value); }
    var failures := CollectFailures(thresholds, scenario, run, ReviewsByTrack(run));
    assert |failures| > 0 ==> failures[0] in failures;
    r := Ok(RunReport(|run.tracks|, |run.tracks| == scenario.targetCount, failures, |failures| == 0));
  }

  // ---------- one model ----------

  /** A run of the model with the scenario it belongs to. */
  datatype Entry = Entry(scenario: Scenario, run: Run)

  function TrackReviews(entries: seq<Entry>): seq<seq<Review>> {
    Mapped(entries, (e: Entry) => e.run.trackReviews)
  }

  function AllConstraints(entries: seq<Entry>): seq<seq<ConstraintReview>> {
    Mapped(entries, (e: Entry) => e.run.constraintReviews)
  }

  function RequiresExactFill(): Entry -> bool {
    (e: Entry) => e.scenario.exactFillRequired
  }

  function IsExactFill(): Entry -> bool {
    (e: Entry) => |e.run.tracks| == e.scenario.targetCount
  }

  /** Zero when no scenario requires exact fill. */
  function ExactFillRate(entries: seq<Entry>): real {
    var required := Filter(entries, RequiresExactFill());
    if |required| == 0 then 0.0 else CountTrue(required, IsExactFill()) as real / |required| as real
  }

  /** A pooled ratio below the threshold comes from a part below it. */
  lemma PooledFailureHasPart<T>(parts: seq<seq<T>>, p: T -> bool, threshold: real)
    requires |parts| > 0 && Below(MeanBoolean(Flatten(parts), p), threshold)
    ensures exists k :: 0 <= k < |parts| && Below(MeanBoolean(parts[k], p), threshold)
  {
    hide MeanBoolean, Below, Reaches;
    if forall k | 0 <= k < |parts| :: !Below(MeanBoolean(parts[k], p), threshold) {
      forall k | 0 <= k < |parts| ensures Reaches(parts[k], p, threshold) && |parts[k]| > 0 {
        ReachesThreshold(parts[k], p, threshold);
      }
      PooledShare(parts, p, threshold);
      LongFlatten(parts);
      ReachesThreshold(Flatten(parts), p, threshold);
      assert false;
    }
  }

  lemma LongFlatten<T>(parts: seq<seq<T>>)
    requires |parts| > 0 && |parts[|parts| - 1]| > 0
    ensures |Flatten(parts)| > 0
  {
  }

  /** Judging the reviews in track order or as adjudicated is the same. */
  lemma SameMean(scenario: Scenario, run: Run, p: Review -> bool)
    requires Parsed(scenario, run) && Adjudicated(scenario, run)
    ensures MeanBoolean(ReviewsByTrack(run), p) == MeanBoolean(run.trackReviews, p)
  {
    ReviewsByTrackAreReviews(scenario, run);
    CountByContents(ReviewsByTrack(run), run.trackReviews, p);
    hide CountTrue;
  }

  /** A pooled review ratio fails only if the same ratio fails in some run. */
  lemma PooledReviewFailure(entries: seq<Entry>, p: Review -> bool, threshold: real) returns (e: Entry)
    requires |entries| > 0
    requires forall e | e in entries :: Parsed(e.scenario, e.run) && Adjudicated(e.scenario, e.run)
    requires Below(MeanBoolean(Flatten(TrackReviews(entries)), p), threshold)
    ensures e in entries && Covered(e.run) && Below(MeanBoolean(ReviewsByTrack(e.run), p), threshold)
  {
    hide MeanBoolean, Below, Adjudicated, Parsed;
    PooledFailureHasPart(TrackReviews(entries), p, threshold);
    var k :| 0 <= k < |entries| && Below(MeanBoolean(TrackReviews(entries)[k], p), threshold);
    e := entries[k];
    AdjudicatedCovers(e);
    SameMean(e.scenario, e.run, p);
  }

  lemma AdjudicatedCovers(e: Entry)
    requires Adjudicated(e.scenario, e.run)
    ensures Covered(e.run)
  {
  }

  lemma PooledConstraintFailure(entries: seq<Entry>, threshold: real) returns (e: Entry)
    requires |entries| > 0
    requires Below(MeanBoolean(Flatten(AllConstraints(entries)), Compliant()), threshold)
    ensures e in entries && Below(MeanBoolean(e.run.constraintReviews, Compliant()), threshold)
  {
    hide MeanBoolean, Below;
    PooledFailureHasPart(AllConstraints(entries), Compliant(), threshold);
    var k :| 0 <= k < |entries| && Below(MeanBoolean(AllConstraints(entries)[k], Compliant()), threshold);
    e := entries[k];
  }

  lemma WholeShare<T>(s: seq<T>, p: T -> bool)
    requires |s| > 0 && forall x | x in s :: p(x)
    ensures CountTrue(s, p) as real / |s| as real == 1.0
  {
    hide CountTrue;
    OneWhole(CountTrue(s, p), |s|);
  }

  lemma OneWhole(m: nat, n: nat)
    requires m == n > 0
    ensures m as real / n as real == 1.0
  {
  }

  /** When every scenario that requires exact fill has it, the rate is one. */
  lemma ExactFillRateIsOne(entries: seq<Entry>, e: Entry)
    requires e in entries && e.scenario.exactFillRequired
    requires forall e | e in entries && e.scenario.exactFillRequired :: IsExactFill()(e)
    ensures ExactFillRate(entries) == 1.0
  {
    hide CountTrue, IsExactFill;
    var required := Filter(entries, RequiresExactFill());
    assert e in required;
    WholeShare(required, IsExactFill());
  }

  datatype ModelFailure =
    | OneOrMoreScenariosFailed | ExactFillRateBelowThreshold | AggregateCatalogIdentityPrecisionBelowThreshold
    | AggregateRelevancePrecisionBelowThreshold | AggregateEvidenceCoverageBelowThreshold
    | AggregateHardConstraintComplianceBelowThreshold

  ghost predicate Fails(thresholds: Thresholds, e: Entry, code: RunFailure) {
    e.scenario.targetCount > 0 && Covered(e.run) && RunFails(thresholds, e.scenario, e.run, code)
  }

  lemma PassesWithoutFailure(thresholds: Thresholds, e: Entry)
    requires e.scenario.targetCount > 0 && Covered(e.run)
    ensures RunPasses(thresholds, e.scenario, e.run) <==> !exists code :: Fails(thresholds, e, code)
  {
    hide RunFails;
    assert forall code :: Fails(thresholds, e, code) <==> RunFails(thresholds, e.scenario, e.run, code);
  }

  /** Whether a model fails a gate: some run fails, or a pooled ratio is below its threshold. */
  ghost predicate ModelFails(thresholds: Thresholds, entries: seq<Entry>, code: ModelFailure) {
    match code
    case OneOrMoreScenariosFailed => exists e, c :: e in entries && Fails(thresholds, e, c)
    case ExactFillRateBelowThreshold => ExactFillRate(entries) < thresholds.exactFillRate
    case AggregateCatalogIdentityPrecisionBelowThreshold =>
      Below(MeanBoolean(Flatten(TrackReviews(entries)), IdentityCorrect()), thresholds.catalogIdentityPrecision)
    case AggregateRelevancePrecisionBelowThreshold =>
      Below(MeanBoolean(Flatten(TrackReviews(entries)), Relevant()), thresholds.relevancePrecision)
    case AggregateEvidenceCoverageBelowThreshold =>
      Below(MeanBoolean(Flatten(TrackReviews(entries)), EvidenceEligible()), thresholds.evidenceCoverage)
    case AggregateHardConstraintComplianceBelowThreshold =>
      Below(MeanBoolean(Flatten(AllConstraints(entries)), Compliant()), thresholds.hardConstraintCompliance)
  }

  /** The gate of a single run that a pooled gate repeats. */
  function Counterpart(code: ModelFailure): RunFailure
    requires !code.OneOrMoreScenariosFailed?
  {
    match code
    case ExactFillRateBelowThreshold => ExactFillShortfall
    case AggregateCatalogIdentityPrecisionBelowThreshold => CatalogIdentityPrecisionBelowThreshold
    case AggregateRelevancePrecisionBelowThreshold => RelevancePrecisionBelowThreshold
    case AggregateEvidenceCoverageBelowThreshold => EvidenceCoverageBelowThreshold
    case AggregateHardConstraintComplianceBelowThreshold => HardConstraintViolation
  }

  /** Pooling adds nothing: a pooled gate that fails repeats the same gate of some run, so a scenario has failed already. */
  lemma PooledGatesAddNothing(thresholds: Thresholds, entries: seq<Entry>, code: ModelFailure)
    requires |entries| > 0 && forall e | e in entries :: Parsed(e.scenario, e.run) && Adjudicated(e.scenario, e.run)
    requires !code.OneOrMoreScenariosFailed? && ModelFails(thresholds, entries, code)
    requires code.ExactFillRateBelowThreshold? ==>
      thresholds.exactFillRate <= 1.0 && exists e :: e in entries && e.scenario.exactFillRequired
    ensures exists e :: e in entries && Fails(thresholds, e, Counterpart(code))
    ensures ModelFails(thresholds, entries, OneOrMoreScenariosFailed)
  {
    hide MeanBoolean, Below, Adjudicated, ExactFillRate, MissesAxis, ReviewsByTrack, Flatten, TrackReviews, AllConstraints, Covered;
    forall e | e in entries ensures Covered(e.run) {
      AdjudicatedCovers(e);
    }
    match code
    case ExactFillRateBelowThreshold =>
      if forall e | e in entries && e.scenario.exactFillRequired :: IsExactFill()(e) {
        var e :| e in entries && e.scenario.exactFillRequired;
        ExactFillRateIsOne(entries, e);
        assert false;
      }
      var e :| e in entries && e.scenario.exactFillRequired && !IsExactFill()(e);
      assert Fails(thresholds, e, ExactFillShortfall);
    case AggregateCatalogIdentityPrecisionBelowThreshold =>
      var e := PooledReviewFailure(entries, IdentityCorrect(), thresholds.catalogIdentityPrecision);
      assert Fails(thresholds, e, CatalogIdentityPrecisionBelowThreshold);
    case AggregateRelevancePrecisionBelowThreshold =>
      var e := PooledReviewFailure(entries, Relevant(), thresholds.relevancePrecision);
      assert Fails(thresholds, e, RelevancePrecisionBelowThreshold);
    case AggregateEvidenceCoverageBelowThreshold =>
      var e := PooledReviewFailure(entries, EvidenceEligible(), thresholds.evidenceCoverage);
      assert Fails(thresholds, e, EvidenceCoverageBelowThreshold);
    case AggregateHardConstraintComplianceBelowThreshold =>
      var e := PooledConstraintFailure(entries, thresholds.hardConstraintCompliance);
      assert Fails(thresholds, e, HardConstraintViolation);
  }

  /** Without a scenario that requires exact fill the rate counts as zero, so any positive threshold fails whatever the runs did. */
  lemma NoExactFillScenario(thresholds: Thresholds, entries: seq<Entry>)
    requires forall e | e in entries :: !e.scenario.exactFillRequired
    ensures ExactFillRate(entries) == 0.0
    ensures thresholds.exactFillRate > 0.0 ==> ModelFails(thresholds, entries, ExactFillRateBelowThreshold)
  {
    var required := Filter(entries, RequiresExactFill());
    assert required == [] by {
      assert forall e | e in required :: e in entries && RequiresExactFill()(e);
      NoElements(required);
    }
    hide MeanBoolean, Filter;
  }

  /** The failures are exactly the gates that the model fails. */
  ghost predicate Reports(failures: seq<ModelFailure>, thresholds: Thresholds, entries: seq<Entry>) {
    forall code :: code in failures <==> ModelFails(thresholds, entries, code)
  }

  /** The report of one model: a failure is reported for exactly the gates that the model fails. */
  method EvaluateModel(thresholds: Thresholds, entries: seq<Entry>) returns (r: Result<seq<ModelFailure>>)
    requires forall e | e in entries :: Parsed(e.scenario, e.run)
    ensures r.Ok? <==> forall e | e in entries :: Adjudicated(e.scenario, e.run)
    ensures r.Ok? ==> Reports(r.value, thresholds, entries)
  {
    hide Adjudicated, MeanBoolean, Below, ExactFillRate, RunFails, PushIf;
    var anyFailed := false;
    for k := 0 to |entries|
      invariant forall j | 0 <= j < k :: Adjudicated(entries[j].scenario, entries[j].run)
      invariant anyFailed <==> exists j, c :: 0 <= j < k && Fails(thresholds, entries[j], c)
    {
      assert entries[k] in entries;
      var report := EvaluateRun(thresholds, entries[k].scenario, entries[k].run);
      if report.Err? { return Err(report.error); }
      AdjudicatedCovers(entries[k]);
      PassesWithoutFailure(thresholds, entries[k]);
      anyFailed := anyFailed || !report.value.passed;
    }
    var allReviews, allConstraints := Flatten(TrackReviews(entries)), Flatten(AllConstraints(entries));
    var failures: seq<ModelFailure> := [];
    failures := PushIf(failures, anyFailed, OneOrMoreScenariosFailed);
    failures := PushIf(failures, ExactFillRate(entries) < thresholds.exactFillRate, ExactFillRateBelowThreshold);
    failures := PushIf(failures, Below(MeanBoolean(allReviews, IdentityCorrect()), thresholds.catalogIdentityPrecision),
                       AggregateCatalogIdentityPrecisionBelowThreshold);
    failures := PushIf(failures, Below(MeanBoolean(allReviews, Relevant()), thresholds.relevancePrecision),
                       AggregateRelevancePrecisionBelowThreshold);
    failures := PushIf(failures, Below(MeanBoolean(allReviews, EvidenceEligible()), thresholds.evidenceCoverage),
                       AggregateEvidenceCoverageBelowThreshold);
    failures := PushIf(failures, Below(MeanBoolean(allConstraints, Compliant()), thresholds.hardConstraintCompliance),
                       AggregateHardConstraintComplianceBelowThreshold);
    assert anyFailed <==> ModelFails(thresholds, entries, OneOrMoreScenariosFailed);
    r := Ok(failures);
  }
}
