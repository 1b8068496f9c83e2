/** The whole release benchmark: one run per scenario and model, each judged alone and pooled per model. */
module ReleaseSuite {
  import opened Collections
  import opened ReleaseBenchmark

  datatype Tier = Luna | Terra

  datatype Suite = Suite(scenarios: seq<Scenario>, thresholds: Thresholds)

  datatype TierRun = TierRun(tier: Tier, run: Run)

  datatype Pair = Pair(scenarioId: string, tier: Tier)

  const REQUIRED_TARGETS := [25, 50, 100, 200, 300]
  const EXACT_TARGETS := [25, 50, 100]

  function ScenarioIds(scenarios: seq<Scenario>): seq<string> {
    Mapped(scenarios, (s: Scenario) => s.id)
  }

  /** What the parsers have already checked. */
  ghost predicate ParsedSuite(suite: Suite) {
    && Distinct(ScenarioIds(suite.scenarios))
    && (forall s | s in suite.scenarios :: s.targetCount > 0 && |s.hardConstraints| > 0 && Distinct(s.hardConstraints))
    && (forall t | t in REQUIRED_TARGETS :: exists s :: s in suite.scenarios && s.targetCount == t)
    && (forall s | s in suite.scenarios && s.targetCount in EXACT_TARGETS :: s.exactFillRequired && s.minimumPublishedRatio == 1.0)
    && 0.0 <= suite.thresholds.exactFillRate <= 1.0
  }

  ghost predicate ParsedRuns(runs: seq<TierRun>) {
    forall r | r in runs :: forall i, j | 0 <= i < j < |r.run.tracks| :: r.run.tracks[i].candidateId != r.run.tracks[j].candidateId
  }

  // ---------- one run per scenario and model ----------

  function ExpectedPairs(scenarios: seq<Scenario>): (r: seq<Pair>)
    ensures |r| == 2 * |scenarios|
  {
    if |scenarios| == 0 then []
    else
      ExpectedPairs(scenarios[..|scenarios| - 1])
      + [Pair(scenarios[|scenarios| - 1].id, Luna), Pair(scenarios[|scenarios| - 1].id, Terra)]
  }

  lemma {:induction false} ExpectedPairsMembers(scenarios: seq<Scenario>, p: Pair)
    ensures p in ExpectedPairs(scenarios) <==> p.scenarioId in ScenarioIds(scenarios)
  {
    if |scenarios| > 0 {
      var before, last := scenarios[..|scenarios| - 1], scenarios[|scenarios| - 1];
      ExpectedPairsMembers(before, p);
      assert ScenarioIds(scenarios) == ScenarioIds(before) + [last.id];
      hide ScenarioIds;
      var added := [Pair(last.id, Luna), Pair(last.id, Terra)];
      assert p in added <==> p.scenarioId == last.id by {
        assert added[0] in added && added[1] in added;
        match p.tier
        case Luna => assert p == Pair(p.scenarioId, Luna);
        case Terra => assert p == Pair(p.scenarioId, Terra);
      }
    }
  }

  function RunPairs(runs: seq<TierRun>): seq<Pair> {
    Mapped(runs, (t: TierRun) => Pair(t.run.scenarioId, t.tier))
  }

  ghost predicate OneRunPerPair(suite: Suite, runs: seq<TierRun>) {
    multiset(RunPairs(runs)) == multiset(ExpectedPairs(suite.scenarios))
  }

  lemma {:induction false} ExpectedPairsDistinct(scenarios: seq<Scenario>)
    requires Distinct(ScenarioIds(scenarios))
    ensures Distinct(ExpectedPairs(scenarios))
  {
    if |scenarios| > 0 {
      var before, last := scenarios[..|scenarios| - 1], scenarios[|scenarios| - 1];
      assert ScenarioIds(scenarios) == ScenarioIds(before) + [last.id];
      assert last.id !in ScenarioIds(before);
      ExpectedPairsDistinct(before);
      var pairs := ExpectedPairs(before);
      forall k | 0 <= k < |pairs| ensures pairs[k].scenarioId != last.id {
        assert pairs[k] in pairs;
        ExpectedPairsMembers(before, pairs[k]);
      }
    }
  }

  /** Distinct pairs, as many as expected and all expected ones among them: exactly one run per pair, and no other run. */
  lemma PairsMatch(suite: Suite, runs: seq<TierRun>)
    requires ParsedSuite(suite)
    ensures OneRunPerPair(suite, runs) <==>
      && Distinct(RunPairs(runs)) && |runs| == |ExpectedPairs(suite.scenarios)|
      && forall p | p in ExpectedPairs(suite.scenarios) :: p in RunPairs(runs)
  {
    var expected, actual := ExpectedPairs(suite.scenarios), RunPairs(runs);
    ExpectedPairsDistinct(suite.scenarios);
    hide ExpectedPairs, RunPairs, ParsedSuite;
    if multiset(actual) == multiset(expected) {
      SameContents(actual, expected);
    }
    if Distinct(actual) && |actual| == |expected| && forall p | p in expected :: p in actual {
      DistinctCardinality(expected);
      DistinctCardinality(actual);
      SubsetCardinality(Elements(expected), Elements(actual));
      SameElements(actual, expected);
    }
  }

  method CheckPairs(suite: Suite, runs: seq<TierRun>) returns (ok: bool)
    requires ParsedSuite(suite)
    ensures ok <==> OneRunPerPair(suite, runs)
  {
    hide ExpectedPairs, ParsedSuite;
    PairsMatch(suite, runs);
    var expectedPairs, runPairs := ExpectedPairs(suite.scenarios), RunPairs(runs);
    ok := AllDistinct(runPairs) && |runPairs| == |expectedPairs| && !(exists p | p in expectedPairs :: p !in runPairs);
  }

  // ---------- the runs of a model ----------

  function OfTier(tier: Tier): TierRun -> bool {
    (r: TierRun) => r.tier == tier
  }

  predicate KnownScenario(suite: Suite, id: string) {
    id in ScenarioIds(suite.scenarios)
  }

  function ScenarioOf(suite: Suite, id: string): (r: Scenario)
    requires KnownScenario(suite, id)
    ensures r in suite.scenarios && r.id == id
  {
    suite.scenarios[FirstIndex(ScenarioIds(suite.scenarios), id)]
  }

  function EntriesOf(suite: Suite, runs: seq<TierRun>): (r: seq<Entry>)
    requires forall x | x in runs :: KnownScenario(suite, x.run.scenarioId)
    ensures |r| == |runs|
    ensures forall k | 0 <= k < |runs| :: r[k] == Entry(ScenarioOf(suite, runs[k].run.scenarioId), runs[k].run)
  {
    seq(|runs|, k requires 0 <= k < |runs| =>
      assert runs[k] in runs; Entry(ScenarioOf(suite, runs[k].run.scenarioId), runs[k].run))
  }

  ghost predicate AllKnown(suite: Suite, runs: seq<TierRun>) {
    forall x | x in runs :: KnownScenario(suite, x.run.scenarioId)
  }

  /** Looking up the scenario of a run never fails. */
  lemma PairsAreKnown(suite: Suite, runs: seq<TierRun>)
    requires OneRunPerPair(suite, runs)
    ensures AllKnown(suite, runs)
  {
    SameContents(RunPairs(runs), ExpectedPairs(suite.scenarios));
    hide ExpectedPairs;
    forall x | x in runs ensures KnownScenario(suite, x.run.scenarioId) {
      var k :| 0 <= k < |runs| && runs[k] == x;
      assert RunPairs(runs)[k] in RunPairs(runs);
      ExpectedPairsMembers(suite.scenarios, RunPairs(runs)[k]);
    }
  }

  ghost function ModelEntries(suite: Suite, runs: seq<TierRun>, tier: Tier): seq<Entry>
    requires AllKnown(suite, runs)
  {
    EntriesOf(suite, Filter(runs, OfTier(tier)))
  }

  lemma ScenarioHasRun(suite: Suite, runs: seq<TierRun>, tier: Tier, s: Scenario) returns (run: TierRun)
    requires OneRunPerPair(suite, runs) && s in suite.scenarios
    ensures run in runs && run.tier == tier && run.run.scenarioId == s.id
  {
    SameContents(RunPairs(runs), ExpectedPairs(suite.scenarios));
    hide ExpectedPairs;
    var i :| 0 <= i < |suite.scenarios| && suite.scenarios[i] == s;
    assert ScenarioIds(suite.scenarios)[i] == s.id;
    ExpectedPairsMembers(suite.scenarios, Pair(s.id, tier));
    var k :| 0 <= k < |runs| && RunPairs(runs)[k] == Pair(s.id, tier);
    run := runs[k];
  }

  /** Every model runs every scenario. */
  lemma EveryScenarioIsRun(suite: Suite, runs: seq<TierRun>, tier: Tier, s: Scenario)
    requires ParsedSuite(suite) && OneRunPerPair(suite, runs) && AllKnown(suite, runs) && s in suite.scenarios
    ensures exists e :: e in ModelEntries(suite, runs, tier) && e.scenario == s
  {
    var run := ScenarioHasRun(suite, runs, tier, s);
    hide OneRunPerPair, ParsedSuite;
    var mine := Filter(runs, OfTier(tier));
    assert run in mine;
    hide Filter;
    var j :| 0 <= j < |mine| && mine[j] == run;
    var e := ModelEntries(suite, runs, tier)[j];
    OneScenarioPerId(suite, e.scenario, s);
  }

  lemma OneScenarioPerId(suite: Suite, s: Scenario, t: Scenario)
    requires ParsedSuite(suite) && s in suite.scenarios && t in suite.scenarios && s.id == t.id
    ensures s == t
  {
    var i :| 0 <= i < |suite.scenarios| && suite.scenarios[i] == s;
    var j :| 0 <= j < |suite.scenarios| && suite.scenarios[j] == t;
    assert ScenarioIds(suite.scenarios)[i] == ScenarioIds(suite.scenarios)[j];
  }

  lemma EntriesAreParsed(suite: Suite, runs: seq<TierRun>, tier: Tier)
    requires ParsedSuite(suite) && ParsedRuns(runs) && AllKnown(suite, runs)
    ensures forall e | e in ModelEntries(suite, runs, tier) :: Parsed(e.scenario, e.run)
  {
    var mine, entries := Filter(runs, OfTier(tier)), ModelEntries(suite, runs, tier);
    forall e | e in entries ensures Parsed(e.scenario, e.run) {
      var k :| 0 <= k < |entries| && entries[k] == e;
      assert mine[k] in mine;
      assert mine[k] in runs;
    }
  }

  // ---------- the verdict ----------

  ghost predicate AllAdjudicated(entries: seq<Entry>) {
    forall e | e in entries :: Adjudicated(e.scenario, e.run)
  }

  /** Evaluate both models: an error exactly for results that do not belong to the suite or are not fully adjudicated. */
  method EvaluateReleaseBenchmark(suite: Suite, runs: seq<TierRun>) returns (r: Result<map<Tier, seq<ModelFailure>>>)
    requires ParsedSuite(suite) && ParsedRuns(runs)
    ensures OneRunPerPair(suite, runs) ==> AllKnown(suite, runs)
    ensures r.Ok? <==>
      OneRunPerPair(suite, runs)
      && AllAdjudicated(ModelEntries(suite, runs, Luna)) && AllAdjudicated(ModelEntries(suite, runs, Terra))
    ensures r.Ok? ==> forall tier :: tier in r.value && Reports(r.value[tier], suite.thresholds, ModelEntries(suite, runs, tier))
  {
    hide OneRunPerPair, ParsedSuite, ParsedRuns, Reports, Adjudicated, Parsed;
    var ok := CheckPairs(suite, runs);
    if OneRunPerPair(suite, runs) { PairsAreKnown(suite, runs); }
    if !ok { return Err("results must contain exactly one run of each model per frozen scenario"); }
    EntriesAreParsed(suite, runs, Luna);
    EntriesAreParsed(suite, runs, Terra);
    var luna := EvaluateModel(suite.thresholds, EntriesOf(suite, Filter(runs, OfTier(Luna))));
    if luna.Err? { return Err(luna.error); }
    var terra := EvaluateModel(suite.thresholds, EntriesOf(suite, Filter(runs, OfTier(Terra))));
    if terra.Err? { return Err(terra.error); }
    r := Ok(map[Luna := luna.value, Terra := terra.value]);
    forall tier ensures tier in r.value && Reports(r.value[tier], suite.thresholds, ModelEntries(suite, runs, tier)) {
      assert tier == Luna || tier == Terra;
    }
  }

  /** For every suite and accepted results, a pooled gate that fails repeats the same gate of some run. */
  lemma PooledGatesAreRedundant(suite: Suite, runs: seq<TierRun>, tier: Tier, code: ModelFailure)
    requires ParsedSuite(suite) && ParsedRuns(runs) && OneRunPerPair(suite, runs) && AllKnown(suite, runs)
    requires AllAdjudicated(ModelEntries(suite, runs, tier)) && !code.OneOrMoreScenariosFailed?
    requires ModelFails(suite.thresholds, ModelEntries(suite, runs, tier), code)
    ensures exists e :: e in ModelEntries(suite, runs, tier) && Fails(suite.thresholds, e, Counterpart(code))
    ensures ModelFails(suite.thresholds, ModelEntries(suite, runs, tier), OneOrMoreScenariosFailed)
  {
    assert REQUIRED_TARGETS[0] in REQUIRED_TARGETS && EXACT_TARGETS[0] in EXACT_TARGETS;
    var s :| s in suite.scenarios && s.targetCount == REQUIRED_TARGETS[0];
    assert s.exactFillRequired;
    EveryScenarioIsRun(suite, runs, tier, s);
    EntriesAreParsed(suite, runs, tier);
    hide ParsedSuite, ParsedRuns, OneRunPerPair, ModelFails, Adjudicated, Parsed, ModelEntries, Fails;
    PooledGatesAddNothing(suite.thresholds, ModelEntries(suite, runs, tier), code);
  }

  /** The pooled gates never change a verdict: a model meets all gates exactly when each of its runs passes. */
  lemma VerdictIsScenarios(suite: Suite, runs: seq<TierRun>, tier: Tier)
    requires ParsedSuite(suite) && ParsedRuns(runs) && OneRunPerPair(suite, runs) && AllKnown(suite, runs)
    requires AllAdjudicated(ModelEntries(suite, runs, tier))
    ensures (forall code :: !ModelFails(suite.thresholds, ModelEntries(suite, runs, tier), code))
      <==> !ModelFails(suite.thresholds, ModelEntries(suite, runs, tier), OneOrMoreScenariosFailed)
  {
    hide ParsedSuite, ParsedRuns, OneRunPerPair, ModelFails, AllAdjudicated, ModelEntries;
    forall code | ModelFails(suite.thresholds, ModelEntries(suite, runs, tier), code)
      ensures ModelFails(suite.thresholds, ModelEntries(suite, runs, tier), OneOrMoreScenariosFailed)
    {
      if !code.OneOrMoreScenariosFailed? {
        PooledGatesAreRedundant(suite, runs, tier, code);
      }
    }
  }
}
