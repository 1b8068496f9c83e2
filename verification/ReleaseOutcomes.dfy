/** What adjudicating, passing and covering mean, on the fields of runs and scenarios. */
module ReleaseOutcomes {
  import opened Collections
  import opened Counting
  import opened ReleaseBenchmark
  import opened ReleaseSuite

  /** Some item exists, and the items that pass are at least this share of all. */
  predicate HasShare<T>(s: seq<T>, p: T -> bool, share: real) {
    |s| > 0 && CountTrue(s, p) as real >= share * |s| as real
  }

  lemma BelowExactly<T>(s: seq<T>, p: T -> bool, share: real)
    ensures Below(MeanBoolean(s, p), share) <==> !HasShare(s, p, share)
  {
    hide CountTrue;
    ReachesThreshold(s, p, share);
  }

  /** Every track has its own review of the same song, and every hard constraint its own; there are no other reviews. */
  ghost predicate IsReviewed(scenario: Scenario, run: Run) {
    && |run.trackReviews| == |run.tracks|
    && (forall i, j | 0 <= i < j < |run.trackReviews| :: run.trackReviews[i].candidateId != run.trackReviews[j].candidateId)
    && (forall t | t in run.tracks :: HasReview(run.trackReviews, t))
    && |run.constraintReviews| == |scenario.hardConstraints|
    && (forall i, j | 0 <= i < j < |run.constraintReviews| :: run.constraintReviews[i].constraintId != run.constraintReviews[j].constraintId)
    && (forall c | c in scenario.hardConstraints :: HasConstraintReview(run.constraintReviews, c))
  }

  ghost predicate HasReview(reviews: seq<Review>, t: Track) {
    exists r :: r in reviews && r.candidateId == t.candidateId && r.appleSongId == t.appleSongId
  }

  ghost predicate HasConstraintReview(reviews: seq<ConstraintReview>, constraint: string) {
    exists r :: r in reviews && r.constraintId == constraint
  }

  lemma ReviewFound(reviews: seq<Review>, t: Track)
    requires Distinct(ReviewedIds(reviews))
    ensures (var at := ReviewOf(reviews, t.candidateId); at < |reviews| && reviews[at].appleSongId == t.appleSongId) <==> HasReview(reviews, t)
  {
    var at := ReviewOf(reviews, t.candidateId);
    if at < |reviews| { assert reviews[at] in reviews; }
    if HasReview(reviews, t) {
      var r :| r in reviews && r.candidateId == t.candidateId && r.appleSongId == t.appleSongId;
      var k :| 0 <= k < |reviews| && reviews[k] == r;
      assert ReviewedIds(reviews)[k] == t.candidateId;
      assert at < |reviews|;
      assert ReviewedIds(reviews)[at] == t.candidateId;
    }
  }

  lemma ConstraintFound(reviews: seq<ConstraintReview>, constraint: string)
    ensures constraint in ConstraintIds(reviews) <==> HasConstraintReview(reviews, constraint)
  {
    if constraint in ConstraintIds(reviews) {
      var k :| 0 <= k < |reviews| && ConstraintIds(reviews)[k] == constraint;
      assert reviews[k] in reviews;
    }
    if HasConstraintReview(reviews, constraint) {
      var r :| r in reviews && r.constraintId == constraint;
      var k :| 0 <= k < |reviews| && reviews[k] == r;
      assert ConstraintIds(reviews)[k] == constraint;
    }
  }

  lemma DistinctReviews(reviews: seq<Review>)
    ensures Distinct(ReviewedIds(reviews)) <==> forall i, j | 0 <= i < j < |reviews| :: reviews[i].candidateId != reviews[j].candidateId
  {
  }

  lemma DistinctConstraints(reviews: seq<ConstraintReview>)
    ensures Distinct(ConstraintIds(reviews)) <==> forall i, j | 0 <= i < j < |reviews| :: reviews[i].constraintId != reviews[j].constraintId
  {
  }

  /** The adjudication is complete exactly when tracks and constraints are reviewed one to one. */
  lemma AdjudicatedExactly(scenario: Scenario, run: Run)
    ensures Adjudicated(scenario, run) <==> IsReviewed(scenario, run)
  {
    hide HasReview, HasConstraintReview, ReviewOf, ReviewedIds, ConstraintIds, Distinct;
    DistinctReviews(run.trackReviews);
    DistinctConstraints(run.constraintReviews);
    assert forall k | 0 <= k < |run.tracks| :: run.tracks[k] in run.tracks;
    if Distinct(ReviewedIds(run.trackReviews)) {
      forall t: Track
        ensures (var at := ReviewOf(run.trackReviews, t.candidateId);
                 at < |run.trackReviews| && run.trackReviews[at].appleSongId == t.appleSongId) <==> HasReview(run.trackReviews, t)
      {
        ReviewFound(run.trackReviews, t);
      }
    }
    forall c: string ensures c in ConstraintIds(run.constraintReviews) <==> HasConstraintReview(run.constraintReviews, c) {
      ConstraintFound(run.constraintReviews, c);
    }
  }

  /** Not too many tracks, enough of them, and within the cost. */
  predicate MeetsSize(scenario: Scenario, run: Run) {
    && |run.tracks| <= scenario.targetCount
    && (scenario.exactFillRequired ==> |run.tracks| == scenario.targetCount)
    && |run.tracks| as real >= scenario.minimumPublishedRatio * scenario.targetCount as real
    && run.actualCostUsd <= scenario.maximumCostUsd
  }

  /** The required shares of the run's own reviews, and every required axis in every review. */
  ghost predicate MeetsReviews(thresholds: Thresholds, scenario: Scenario, run: Run) {
    && HasShare(run.trackReviews, (r: Review) => r.catalogIdentityCorrect, thresholds.catalogIdentityPrecision)
    && HasShare(run.trackReviews, (r: Review) => r.relevant, thresholds.relevancePrecision)
    && HasShare(run.trackReviews, (r: Review) => r.evidenceEligible, thresholds.evidenceCoverage)
    && HasShare(run.constraintReviews, (r: ConstraintReview) => r.compliant, thresholds.hardConstraintCompliance)
    && (forall r, axis | r in run.trackReviews && axis in scenario.requiredEvidenceAxes :: axis in r.evidenceAxes)
  }

  /** The outcome goes with the size: complete when filled, otherwise one of the safe partial ones. */
  predicate MeetsOutcome(scenario: Scenario, run: Run) {
    if |run.tracks| == scenario.targetCount then run.outcome == "complete"
    else || run.outcome == "partial_frontier_exhausted" || run.outcome == "partial_evidence_shortfall"
         || run.outcome == "partial_catalog_degraded" || run.outcome == "partial_timed_out" || run.outcome == "partial_policy_conflict"
  }

  lemma OutcomesExactly(outcome: string)
    ensures IsComplete(outcome) <==> outcome == "complete"
    ensures IsSafePartial(outcome) <==>
      || outcome == "partial_frontier_exhausted" || outcome == "partial_evidence_shortfall"
      || outcome == "partial_catalog_degraded" || outcome == "partial_timed_out" || outcome == "partial_policy_conflict"
  {
  }

  lemma AxesExactly(scenario: Scenario, reviews: seq<Review>)
    ensures MissesAxis(scenario, reviews) <==>
      !(forall r, axis | r in reviews && axis in scenario.requiredEvidenceAxes :: axis in r.evidenceAxes)
  {
  }

  lemma AxesInAnyOrder(scenario: Scenario, s: seq<Review>, t: seq<Review>)
    requires multiset(s) == multiset(t)
    ensures MissesAxis(scenario, s) <==> MissesAxis(scenario, t)
  {
    SameContents(s, t);
  }

  lemma SizeGates(thresholds: Thresholds, scenario: Scenario, run: Run)
    requires Covered(run) && scenario.targetCount > 0
    ensures MeetsSize(scenario, run) <==>
      && !RunFails(thresholds, scenario, run, PublishedCountExceedsTarget) && !RunFails(thresholds, scenario, run, ExactFillShortfall)
      && !RunFails(thresholds, scenario, run, MinimumFillRatioShortfall) && !RunFails(thresholds, scenario, run, CostCeilingExceeded)
  {
    hide MeanBoolean, Below, MissesAxis, IsComplete, IsSafePartial, ReviewsByTrack, Covered;
  }

  lemma OutcomeGates(thresholds: Thresholds, scenario: Scenario, run: Run)
    requires Covered(run) && scenario.targetCount > 0
    ensures MeetsOutcome(scenario, run) <==>
      && !RunFails(thresholds, scenario, run, ExactFillHasNonCompleteOutcome)
      && !RunFails(thresholds, scenario, run, ShortfallIsNotATypedSafePartial)
  {
    hide MeanBoolean, Below, MissesAxis, IsComplete, IsSafePartial, ReviewsByTrack, Covered;
    OutcomesExactly(run.outcome);
  }

  lemma ReviewGates(thresholds: Thresholds, scenario: Scenario, run: Run)
    requires Parsed(scenario, run) && Adjudicated(scenario, run) && Covered(run)
    ensures MeetsReviews(thresholds, scenario, run) <==>
      && !RunFails(thresholds, scenario, run, CatalogIdentityPrecisionBelowThreshold)
      && !RunFails(thresholds, scenario, run, RelevancePrecisionBelowThreshold)
      && !RunFails(thresholds, scenario, run, EvidenceCoverageBelowThreshold)
      && !RunFails(thresholds, scenario, run, HardConstraintViolation)
      && !RunFails(thresholds, scenario, run, RequiredEvidenceAxisMissing)
  {
    hide MeanBoolean, Below, HasShare, MissesAxis, IsComplete, IsSafePartial, ReviewsByTrack, Covered, Adjudicated;
    ReviewsByTrackAreReviews(scenario, run);
    AxesInAnyOrder(scenario, ReviewsByTrack(run), run.trackReviews);
    AxesExactly(scenario, run.trackReviews);
    ShareInAnyOrder(scenario, run, IdentityCorrect(), (r: Review) => r.catalogIdentityCorrect, thresholds.catalogIdentityPrecision);
    ShareInAnyOrder(scenario, run, Relevant(), (r: Review) => r.relevant, thresholds.relevancePrecision);
    ShareInAnyOrder(scenario, run, EvidenceEligible(), (r: Review) => r.evidenceEligible, thresholds.evidenceCoverage);
    BelowExactly(run.constraintReviews, Compliant(), thresholds.hardConstraintCompliance);
    SameShare(run.constraintReviews, Compliant(), (r: ConstraintReview) => r.compliant, thresholds.hardConstraintCompliance);
  }

  /** The verdict on a run, said on its own reviews. */
  lemma PassesExactly(thresholds: Thresholds, scenario: Scenario, run: Run)
    requires Parsed(scenario, run) && Adjudicated(scenario, run)
    ensures Covered(run)
    ensures RunPasses(thresholds, scenario, run) <==>
      MeetsSize(scenario, run) && MeetsReviews(thresholds, scenario, run) && MeetsOutcome(scenario, run)
  {
    AdjudicatedCovers(Entry(scenario, run));
    hide RunFails, MeetsSize, MeetsReviews, MeetsOutcome, Adjudicated, Covered;
    SizeGates(thresholds, scenario, run);
    ReviewGates(thresholds, scenario, run);
    OutcomeGates(thresholds, scenario, run);
    if MeetsSize(scenario, run) && MeetsReviews(thresholds, scenario, run) && MeetsOutcome(scenario, run) {
      forall code ensures !RunFails(thresholds, scenario, run, code) {
        match code
        case PublishedCountExceedsTarget => case ExactFillShortfall => case MinimumFillRatioShortfall => case CostCeilingExceeded =>
        case CatalogIdentityPrecisionBelowThreshold => case RelevancePrecisionBelowThreshold => case EvidenceCoverageBelowThreshold =>
        case RequiredEvidenceAxisMissing => case HardConstraintViolation => case ExactFillHasNonCompleteOutcome =>
        case ShortfallIsNotATypedSafePartial =>
      }
    }
  }

  lemma ShareInAnyOrder(scenario: Scenario, run: Run, p: Review -> bool, q: Review -> bool, share: real)
    requires Parsed(scenario, run) && Adjudicated(scenario, run) && Covered(run)
    requires forall r :: p(r) <==> q(r)
    ensures Below(MeanBoolean(ReviewsByTrack(run), p), share) <==> !HasShare(run.trackReviews, q, share)
  {
    hide MeanBoolean, Below, HasShare, Adjudicated, Covered, ReviewsByTrack, Parsed;
    SameMean(scenario, run, p);
    BelowExactly(run.trackReviews, p, share);
    SameShare(run.trackReviews, p, q, share);
  }

  lemma SameShare<T>(s: seq<T>, p: T -> bool, q: T -> bool, share: real)
    requires forall x :: p(x) <==> q(x)
    ensures HasShare(s, p, share) <==> HasShare(s, q, share)
  {
    SameCount(s, p, q);
  }

  function Demanding(): Entry -> bool {
    (e: Entry) => e.scenario.exactFillRequired
  }

  function DemandingAndFilled(): Entry -> bool {
    (e: Entry) => e.scenario.exactFillRequired && |e.run.tracks| == e.scenario.targetCount
  }

  /** The exact-fill rate is the share of filled runs among those that require it, and zero if there are none. */
  lemma ExactFillRateExactly(entries: seq<Entry>)
    ensures ExactFillRate(entries) * CountTrue(entries, Demanding()) as real == CountTrue(entries, DemandingAndFilled()) as real
    ensures CountTrue(entries, Demanding()) == 0 ==> ExactFillRate(entries) == 0.0
  {
    hide CountTrue, Filter;
    var required := Filter(entries, RequiresExactFill());
    FilterCounts(entries, RequiresExactFill(), IsExactFill());
    SameCount(entries, RequiresExactFill(), Demanding());
    SameCount(entries, Both(RequiresExactFill(), IsExactFill()), DemandingAndFilled());
    if |required| > 0 { Quotient(CountTrue(required, IsExactFill()), |required|); }
  }

  function Both<T>(p: T -> bool, q: T -> bool): T -> bool {
    x => p(x) && q(x)
  }

  lemma {:induction false} FilterCounts<T>(s: seq<T>, p: T -> bool, q: T -> bool)
    ensures |Filter(s, p)| == CountTrue(s, p)
    ensures CountTrue(Filter(s, p), q) == CountTrue(s, Both(p, q)) <= CountTrue(s, p)
  {
    if |s| > 0 {
      var before, last := s[..|s| - 1], s[|s| - 1];
      FilterCounts(before, p, q);
      assert s == before + [last];
      FilterOneMore(before, last, p);
      CountOneMore(before, last, p);
      CountOneMore(before, last, Both(p, q));
      CountOneMore(Filter(before, p), last, q);
    }
  }

  // ---------- the suite ----------

  function RunOf(s: Scenario, tier: Tier): TierRun -> bool {
    (r: TierRun) => r.run.scenarioId == s.id && r.tier == tier
  }

  /** Each scenario has one run of each model, and there are no other runs. */
  ghost predicate OneRunEach(scenarios: seq<Scenario>, runs: seq<TierRun>) {
    && (forall r | r in runs :: exists s :: s in scenarios && s.id == r.run.scenarioId)
    && forall s, tier | s in scenarios :: CountTrue(runs, RunOf(s, tier)) == 1
  }

  lemma {:induction false} PairCount(runs: seq<TierRun>, s: Scenario, tier: Tier)
    ensures CountTrue(runs, RunOf(s, tier)) == multiset(RunPairs(runs))[Pair(s.id, tier)]
  {
    if |runs| > 0 {
      var before, last := runs[..|runs| - 1], runs[|runs| - 1];
      PairCount(before, s, tier);
      assert runs == before + [last];
      CountOneMore(before, last, RunOf(s, tier));
      assert RunPairs(runs) == RunPairs(before) + [Pair(last.run.scenarioId, last.tier)];
    }
  }

  lemma ScenarioIdMembers(scenarios: seq<Scenario>, id: string)
    ensures id in ScenarioIds(scenarios) <==> exists s :: s in scenarios && s.id == id
  {
    if id in ScenarioIds(scenarios) {
      var k :| 0 <= k < |scenarios| && ScenarioIds(scenarios)[k] == id;
      assert scenarios[k] in scenarios;
    }
    if s :| s in scenarios && s.id == id {
      var k :| 0 <= k < |scenarios| && scenarios[k] == s;
      assert ScenarioIds(scenarios)[k] == id;
    }
  }

  lemma ParsedIds(suite: Suite)
    requires ParsedSuite(suite)
    ensures Distinct(ScenarioIds(suite.scenarios))
  {
  }

  lemma ExpectedOnce(suite: Suite, p: Pair)
    requires ParsedSuite(suite)
    ensures multiset(ExpectedPairs(suite.scenarios))[p] == if p.scenarioId in ScenarioIds(suite.scenarios) then 1 else 0
  {
    hide ExpectedPairs, ScenarioIds;
    ParsedIds(suite);
    ExpectedPairsDistinct(suite.scenarios);
    ExpectedPairsMembers(suite.scenarios, p);
    DistinctByMultiset(ExpectedPairs(suite.scenarios));
    assert p in ExpectedPairs(suite.scenarios) <==> p in multiset(ExpectedPairs(suite.scenarios));
  }

  lemma RunOfKnown(suite: Suite, runs: seq<TierRun>, p: Pair)
    requires OneRunEach(suite.scenarios, runs)
    ensures multiset(RunPairs(runs))[p] == if p.scenarioId in ScenarioIds(suite.scenarios) then 1 else 0
  {
    hide CountTrue, RunOf;
    ScenarioIdMembers(suite.scenarios, p.scenarioId);
    if s :| s in suite.scenarios && s.id == p.scenarioId {
      PairCount(runs, s, p.tier);
      assert p == Pair(s.id, p.tier);
    } else {
      forall k | 0 <= k < |runs| ensures RunPairs(runs)[k] != p { assert runs[k] in runs; }
      assert p !in RunPairs(runs);
    }
  }

  /** The results belong to the suite exactly when each scenario has one run of each model and there are no others. */
  lemma OneRunEachExactly(suite: Suite, runs: seq<TierRun>)
    requires ParsedSuite(suite)
    ensures OneRunPerPair(suite, runs) <==> OneRunEach(suite.scenarios, runs)
  {
    hide CountTrue, RunOf, ExpectedPairs, ScenarioIds;
    forall p: Pair ensures multiset(ExpectedPairs(suite.scenarios))[p] == if p.scenarioId in ScenarioIds(suite.scenarios) then 1 else 0 {
      ExpectedOnce(suite, p);
    }
    if OneRunEach(suite.scenarios, runs) {
      forall p: Pair ensures multiset(RunPairs(runs))[p] == multiset(ExpectedPairs(suite.scenarios))[p] {
        RunOfKnown(suite, runs, p);
      }
    }
    if OneRunPerPair(suite, runs) {
      forall s, tier | s in suite.scenarios ensures CountTrue(runs, RunOf(s, tier)) == 1 {
        PairCount(runs, s, tier);
        ScenarioIdMembers(suite.scenarios, s.id);
      }
      forall r | r in runs ensures exists s :: s in suite.scenarios && s.id == r.run.scenarioId {
        var k :| 0 <= k < |runs| && runs[k] == r;
        assert RunPairs(runs)[k] in multiset(RunPairs(runs));
        ScenarioIdMembers(suite.scenarios, r.run.scenarioId);
      }
    }
  }

  // ---------- what the parsers demand of a suite ----------

  ghost predicate HasTarget(scenarios: seq<Scenario>, target: nat) {
    exists s :: s in scenarios && s.targetCount == target
  }

  /** Scenarios with different identifiers, for every required size; the three smallest sizes must be filled exactly. */
  lemma ParsedSuiteExactly(suite: Suite)
    ensures ParsedSuite(suite) <==>
      && (forall i, j | 0 <= i < j < |suite.scenarios| :: suite.scenarios[i].id != suite.scenarios[j].id)
      && (forall s | s in suite.scenarios :: s.targetCount > 0 && s.hardConstraints != [] && Distinct(s.hardConstraints))
      && HasTarget(suite.scenarios, 25) && HasTarget(suite.scenarios, 50) && HasTarget(suite.scenarios, 100)
      && HasTarget(suite.scenarios, 200) && HasTarget(suite.scenarios, 300)
      && (forall s | s in suite.scenarios && (s.targetCount == 25 || s.targetCount == 50 || s.targetCount == 100) ::
            s.exactFillRequired && s.minimumPublishedRatio == 1.0)
      && 0.0 <= suite.thresholds.exactFillRate && suite.thresholds.exactFillRate <= 1.0
  {
    hide ScenarioIds;
    IdsAreDistinct(suite.scenarios);
    TargetsExactly(suite.scenarios);
    assert forall t: nat :: t in EXACT_TARGETS <==> t == 25 || t == 50 || t == 100;
  }

  lemma IdsAreDistinct(scenarios: seq<Scenario>)
    ensures Distinct(ScenarioIds(scenarios)) <==> forall i, j | 0 <= i < j < |scenarios| :: scenarios[i].id != scenarios[j].id
  {
    assert forall i | 0 <= i < |scenarios| :: ScenarioIds(scenarios)[i] == scenarios[i].id;
  }

  lemma TargetsExactly(scenarios: seq<Scenario>)
    ensures (forall t | t in REQUIRED_TARGETS :: exists s :: s in scenarios && s.targetCount == t) <==>
      && HasTarget(scenarios, 25) && HasTarget(scenarios, 50) && HasTarget(scenarios, 100)
      && HasTarget(scenarios, 200) && HasTarget(scenarios, 300)
  {
    assert REQUIRED_TARGETS[0] == 25 && REQUIRED_TARGETS[1] == 50 && REQUIRED_TARGETS[2] == 100;
    assert REQUIRED_TARGETS[3] == 200 && REQUIRED_TARGETS[4] == 300;
    if forall t | t in REQUIRED_TARGETS :: exists s :: s in scenarios && s.targetCount == t {
      forall k | 0 <= k < 5 ensures HasTarget(scenarios, REQUIRED_TARGETS[k]) {
        assert REQUIRED_TARGETS[k] in REQUIRED_TARGETS;
      }
    }
  }
}
