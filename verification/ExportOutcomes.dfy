/** What a built export says about each candidate, and what verifying it requires, on the documents' own fields. */
module ExportOutcomes {
  import opened Collections
  import opened Counting
  import opened StableSorting
  import opened BenchmarkExport

  // ---------- when an export can be built ----------

  /** The positions of the manifest are 0, 1, 2, ..., each held by one candidate. */
  ghost predicate NumbersManifest(candidates: seq<Candidate>, size: nat) {
    && (forall i, j | 0 <= i < j < |candidates| && candidates[i].manifestPosition.Some? ::
          candidates[i].manifestPosition != candidates[j].manifestPosition)
    && (forall c | c in candidates && c.manifestPosition.Some? :: c.manifestPosition.value < size)
    && forall p | 0 <= p < size :: IsTaken(candidates, p)
  }

  ghost predicate IsTaken(candidates: seq<Candidate>, position: nat) {
    exists c :: c in candidates && c.manifestPosition == Some(position)
  }

  /** tracks names the candidates of the manifest in the order of their positions. */
  ghost predicate ListsManifest(candidates: seq<Candidate>, tracks: seq<ExportedTrack>) {
    && NumbersManifest(candidates, |tracks|)
    && forall c | c in candidates && c.manifestPosition.Some? && c.manifestPosition.value < |tracks| ::
         tracks[c.manifestPosition.value] == ExportedTrack(c.artist, c.title, c.curatedCitationUrls)
  }

  lemma PlacedMembers(candidates: seq<Candidate>)
    ensures forall c :: c in ByPosition(candidates) <==> c in candidates && c.manifestPosition.Some?
  {
    hide SortBy, Filter;
    SortKeepsMembers(Filter(candidates, InManifest()), PositionKey());
    forall c | c in candidates && c.manifestPosition.Some? ensures c in Filter(candidates, InManifest()) {
      assert InManifest()(c);
    }
  }

  /** The placed candidates are the manifest's: none of them occurs twice. */
  lemma PlacedNumbers(candidates: seq<Candidate>)
    requires ContiguousPositions(candidates) && Distinct(CandidateIds(candidates))
    ensures NumbersManifest(candidates, |ByPosition(candidates)|)
  {
    hide ByPosition, CandidateIds, Distinct;
    var placed := ByPosition(candidates);
    PlacedMembers(candidates);
    DistinctCandidates(candidates);
    forall c | c in candidates && c.manifestPosition.Some?
      ensures c.manifestPosition.value < |placed| && placed[c.manifestPosition.value] == c
    {
      var k :| 0 <= k < |placed| && placed[k] == c;
    }
    forall i, j | 0 <= i < j < |candidates| && candidates[i].manifestPosition.Some?
      ensures candidates[i].manifestPosition != candidates[j].manifestPosition
    {
      assert candidates[i] in candidates && candidates[j] in candidates;
      assert candidates[i].candidateId != candidates[j].candidateId;
    }
    forall p | 0 <= p < |placed| ensures IsTaken(candidates, p) {
      assert placed[p] in placed && placed[p].manifestPosition == Some(p);
    }
  }

  /** A persisted run is the attested one: its identifiers and hashes, its storefront, and a complete, numbered manifest. */
  ghost predicate IsAttested(rules: Rules, expected: Binding, run: PersistedRun) {
    && expected == Binding(run.runId, run.manifestId, run.manifestContentHash, rules.snapshotHash(run))
    && run.storefront == "us"
    && run.candidates != []
    && (forall i, j | 0 <= i < j < |run.candidates| :: run.candidates[i].candidateId != run.candidates[j].candidateId)
    && (forall c | c in run.candidates :: c.matchStatus != "")
    && exists size :: NumbersManifest(run.candidates, size)
  }

  lemma DistinctCandidates(candidates: seq<Candidate>)
    ensures Distinct(CandidateIds(candidates)) <==>
      forall i, j | 0 <= i < j < |candidates| :: candidates[i].candidateId != candidates[j].candidateId
  {
  }

  lemma StatusesKnown(candidates: seq<Candidate>)
    ensures (forall k | 0 <= k < |candidates| :: candidates[k].matchStatus != "") <==> forall c | c in candidates :: c.matchStatus != ""
  {
    assert forall k | 0 <= k < |candidates| :: candidates[k] in candidates;
  }

  lemma {:induction false} ClimbIsHigh(s: seq<nat>, k: nat)
    requires Climbs(s) && k < |s|
    ensures s[k] >= k
  {
    if k > 0 { ClimbIsHigh(s, k - 1); }
  }

  lemma {:induction false} ClimbIsLow(s: seq<nat>, k: nat)
    requires Climbs(s) && k < |s| && s[|s| - 1] < |s|
    ensures s[k] <= k
    decreases |s| - k
  {
    if k < |s| - 1 { ClimbIsLow(s, k + 1); }
  }

  function PositionsOf(placed: seq<Candidate>): (r: seq<nat>)
    requires forall c | c in placed :: c.manifestPosition.Some?
    ensures |r| == |placed| && forall k | 0 <= k < |r| :: r[k] == placed[k].manifestPosition.value
  {
    seq(|placed|, k requires 0 <= k < |placed| => placed[k].manifestPosition.value)
  }

  lemma PlacedClimb(candidates: seq<Candidate>, size: nat)
    requires NumbersManifest(candidates, size) && Distinct(candidates)
    ensures forall c | c in ByPosition(candidates) :: c.manifestPosition.Some?
    ensures Climbs(PositionsOf(ByPosition(candidates)))
  {
    hide SortBy, KeyLess, Filter, PositionKey;
    var chosen := Filter(candidates, InManifest());
    var placed := SortBy(chosen, PositionKey());
    PlacedMembers(candidates);
    SortBySorts(chosen, PositionKey());
    FilterDistinct(candidates, InManifest());
    SameContents(placed, chosen);
    forall j, k | 0 <= j < k < |placed| ensures placed[j].manifestPosition.value < placed[k].manifestPosition.value {
      var c, d := placed[j], placed[k];
      assert c in placed && d in placed;
      var a :| 0 <= a < |candidates| && candidates[a] == c;
      var b :| 0 <= b < |candidates| && candidates[b] == d;
      if a < b {
        assert candidates[a].manifestPosition != candidates[b].manifestPosition;
      } else {
        assert candidates[b].manifestPosition != candidates[a].manifestPosition;
      }
      PositionOrder(c, d);
      PositionOrder(d, c);
    }
  }

  lemma PositionOrder(c: Candidate, d: Candidate)
    requires c.manifestPosition.Some? && d.manifestPosition.Some?
    ensures KeyLess(PositionKey()(c), PositionKey()(d)) <==> c.manifestPosition.value < d.manifestPosition.value
  {
    var x, y := PositionKey()(c), PositionKey()(d);
    assert x == [c.manifestPosition.value] && y == [d.manifestPosition.value];
    assert x[1..] == [] && y[1..] == [];
  }

  /** An ascending list of the first numbers counts from zero. */
  lemma ClimbIsCount(s: seq<nat>, k: nat)
    requires Climbs(s) && Elements(s) == Upto(|s|) && k < |s|
    ensures s[k] == k
  {
    hide Climbs;
    assert s[|s| - 1] in Elements(s);
    ClimbIsHigh(s, k);
    ClimbIsLow(s, k);
  }

  lemma NumbersArePlaced(candidates: seq<Candidate>, size: nat)
    requires NumbersManifest(candidates, size) && Distinct(candidates)
    ensures ContiguousPositions(candidates) && |ByPosition(candidates)| == size
  {
    hide ByPosition, NumbersManifest, Distinct, Climbs, Upto;
    PlacedClimb(candidates, size);
    var placed := ByPosition(candidates);
    var s := PositionsOf(placed);
    PositionsAreAll(candidates, size);
    ClimbIsDistinct(s);
    DistinctCardinality(s);
    assert |Upto(size)| == size;
    forall k | 0 <= k < |placed| ensures placed[k].manifestPosition == Some(k) {
      assert placed[k] in placed;
      ClimbIsCount(s, k);
    }
  }

  lemma ClimbIsDistinct(s: seq<nat>)
    requires Climbs(s)
    ensures Distinct(s)
  {
  }

  lemma PositionsAreAll(candidates: seq<Candidate>, size: nat)
    requires NumbersManifest(candidates, size) && forall c | c in ByPosition(candidates) :: c.manifestPosition.Some?
    ensures Elements(PositionsOf(ByPosition(candidates))) == Upto(size)
  {
    hide ByPosition, Upto;
    PlacedMembers(candidates);
    var placed := ByPosition(candidates);
    var s := PositionsOf(placed);
    forall p | p in s ensures p < size {
      var k :| 0 <= k < |s| && s[k] == p;
      assert placed[k] in placed;
    }
    forall p: nat | p < size ensures p in s {
      assert IsTaken(candidates, p);
      var c :| c in candidates && c.manifestPosition == Some(p);
      assert c in placed;
      var k :| 0 <= k < |placed| && placed[k] == c;
      assert s[k] == p;
    }
  }

  /** The binding checks hold exactly for the attested run. */
  lemma BindingHoldsExactly(rules: Rules, expected: Binding, run: PersistedRun)
    ensures BindingHolds(rules, expected, run) <==> IsAttested(rules, expected, run)
  {
    hide NumbersManifest, ContiguousPositions, Distinct, CandidateIds;
    DistinctCandidates(run.candidates);
    StatusesKnown(run.candidates);
    if BindingHolds(rules, expected, run) { PlacedNumbers(run.candidates); }
    if IsAttested(rules, expected, run) {
      var size :| NumbersManifest(run.candidates, size);
      assert Distinct(run.candidates) by { DifferentCandidates(run.candidates); }
      NumbersArePlaced(run.candidates, size);
    }
  }

  lemma DifferentCandidates(candidates: seq<Candidate>)
    requires forall i, j | 0 <= i < j < |candidates| :: candidates[i].candidateId != candidates[j].candidateId
    ensures Distinct(candidates)
  {
  }

  ghost predicate IsFactual(runs: seq<PersistedRun>, c: Candidate)
    requires |runs| == 3
  {
    c in runs[0].candidates || c in runs[1].candidates
  }

  ghost predicate SpeaksOf(truth: seq<Truth>, candidateId: string) {
    exists t :: t in truth && t.candidateId == candidateId
  }

  ghost predicate Holds(candidates: seq<Candidate>, candidateId: string) {
    exists c :: c in candidates && c.candidateId == candidateId
  }

  /** Every factual candidate has its initial decision, and the truth speaks of exactly these candidates. */
  ghost predicate IsDecided(runs: seq<PersistedRun>, truth: seq<Truth>)
    requires |runs| == 3
  {
    && (forall c | IsFactual(runs, c) :: c.initialMatchStatus.Some? && c.initialMatchedAt.Some?)
    && (forall c | IsFactual(runs, c) :: SpeaksOf(truth, c.candidateId))
    && (forall t | t in truth :: exists c :: IsFactual(runs, c) && c.candidateId == t.candidateId)
  }

  lemma FactualMembers(runs: seq<PersistedRun>)
    requires |runs| == 3
    ensures forall c :: c in FactualCandidates(runs) <==> IsFactual(runs, c)
  {
  }

  lemma CandidateIdMembers(candidates: seq<Candidate>, id: string)
    ensures id in CandidateIds(candidates) <==> Holds(candidates, id)
  {
    if id in CandidateIds(candidates) {
      var k :| 0 <= k < |candidates| && CandidateIds(candidates)[k] == id;
      assert candidates[k] in candidates;
    }
    if Holds(candidates, id) {
      var c :| c in candidates && c.candidateId == id;
      var k :| 0 <= k < |candidates| && candidates[k] == c;
      assert CandidateIds(candidates)[k] == id;
    }
  }

  lemma TruthIdMembers(truth: seq<Truth>, id: string)
    ensures id in TruthIds(truth) <==> SpeaksOf(truth, id)
  {
    if id in TruthIds(truth) {
      var k :| 0 <= k < |truth| && TruthIds(truth)[k] == id;
      assert truth[k] in truth;
    }
    if SpeaksOf(truth, id) {
      var t :| t in truth && t.candidateId == id;
      var k :| 0 <= k < |truth| && truth[k] == t;
      assert TruthIds(truth)[k] == id;
    }
  }

  lemma DecisionsExactly(candidates: seq<Candidate>)
    ensures HasInitialDecisions(candidates) <==> forall c | c in candidates :: c.initialMatchStatus.Some? && c.initialMatchedAt.Some?
  {
    assert forall k | 0 <= k < |candidates| :: candidates[k] in candidates;
  }

  lemma CoverageExactly(truth: seq<Truth>, candidates: seq<Candidate>)
    ensures TruthCovers(truth, candidates) <==>
      && (forall c | c in candidates :: SpeaksOf(truth, c.candidateId))
      && (forall t | t in truth :: Holds(candidates, t.candidateId))
  {
    hide CandidateIds, TruthIds, SpeaksOf, Holds;
    forall id: string ensures (id in TruthIds(truth) <==> SpeaksOf(truth, id)) && (id in CandidateIds(candidates) <==> Holds(candidates, id)) {
      TruthIdMembers(truth, id);
      CandidateIdMembers(candidates, id);
    }
    assert forall k | 0 <= k < |candidates| :: candidates[k] in candidates;
    assert forall k | 0 <= k < |truth| :: truth[k] in truth;
  }

  lemma DecidedExactly(runs: seq<PersistedRun>, truth: seq<Truth>)
    requires |runs| == 3
    ensures HasInitialDecisions(FactualCandidates(runs)) && TruthCovers(truth, FactualCandidates(runs)) <==> IsDecided(runs, truth)
  {
    hide FactualCandidates, HasInitialDecisions, TruthCovers, IsFactual;
    FactualMembers(runs);
    DecisionsExactly(FactualCandidates(runs));
    CoverageExactly(truth, FactualCandidates(runs));
  }

  /** An export is built exactly when the three runs are the attested ones, in the fixed order, and the factual candidates decided. */
  lemma BuildsExactly(rules: Rules, generatedAt: string, databaseSchemaVersion: string, fixtureVersion: string, a: Attestation,
                      runs: seq<PersistedRun>)
    ensures Build(rules, generatedAt, databaseSchemaVersion, fixtureVersion, a, runs).Ok? <==>
      && rules.isTimestamp(generatedAt) && a.fixtureVersion == fixtureVersion && |a.runs| == 3 && |runs| == 3
      && runs[0].benchmark == PaulinhoDaCosta && runs[1].benchmark == MichaelJackson && runs[2].benchmark == BerlinTechno
      && IsAttested(rules, a.runs[0], runs[0]) && IsAttested(rules, a.runs[1], runs[1]) && IsAttested(rules, a.runs[2], runs[2])
      && IsDecided(runs, a.matchTruth)
  {
    hide BindingHolds, IsAttested, IsDecided, HasInitialDecisions, TruthCovers, Audit, AttestationHash, ExportRun, FactualTracks, CuratedTracks;
    if |a.runs| == 3 && |runs| == 3 {
      BindingHoldsExactly(rules, a.runs[0], runs[0]);
      BindingHoldsExactly(rules, a.runs[1], runs[1]);
      BindingHoldsExactly(rules, a.runs[2], runs[2]);
      DecidedExactly(runs, a.matchTruth);
    }
  }

  // ---------- what a built export says ----------

  ghost predicate IsOneOf(id: Option<string>, ids: seq<string>) {
    exists k :: 0 <= k < |ids| && id == Some(ids[k])
  }

  /** A row tells what was decided about a candidate and how the truth judges it: correct when the automatic decision was to accept
      an acceptable song, resolved when the storefront has it and the final decision is such a song. */
  ghost predicate Tells(row: AuditRow, runId: string, c: Candidate, t: Truth) {
    && row.runId == runId && row.candidateId == c.candidateId
    && Some(row.initialStatus) == c.initialMatchStatus && row.initialCatalogId == c.initialCatalogId
    && row.finalStatus == c.matchStatus && row.finalCatalogId == c.catalogId
    && row.acceptableCatalogIds == t.acceptableCatalogIds && row.attestationNote == t.note && row.storefrontAvailable == t.storefrontAvailable
    && (row.autoAccepted <==> c.initialMatchStatus == Some("accepted"))
    && (row.correct <==> c.initialMatchStatus == Some("accepted") && IsOneOf(c.initialCatalogId, t.acceptableCatalogIds))
    && (row.resolved <==> t.storefrontAvailable && (c.matchStatus == "accepted" || c.matchStatus == "duplicate")
                          && IsOneOf(c.catalogId, t.acceptableCatalogIds))
  }

  lemma AuditTells(runId: string, c: Candidate, t: Truth)
    requires c.initialMatchStatus.Some?
    ensures Tells(AuditOf(runId, c, t), runId, c, t)
  {
    AcceptableExactly(c.initialCatalogId, t.acceptableCatalogIds);
    AcceptableExactly(c.catalogId, t.acceptableCatalogIds);
    hide Acceptable;
  }

  lemma AcceptableExactly(id: Option<string>, ids: seq<string>)
    ensures Acceptable(id, ids) <==> IsOneOf(id, ids)
  {
  }

  function FactuallyCited(): Candidate -> bool {
    (c: Candidate) => c.factualCitationUrls != []
  }

  /** tracks names the candidates with a factual citation, in their order. */
  ghost predicate ListsCited(candidates: seq<Candidate>, tracks: seq<ExportedTrack>) {
    exists places, cited: seq<Candidate> ::
      && Picks(candidates, FactuallyCited(), places, cited)
      && |tracks| == |cited|
      && forall i | 0 <= i < |tracks| :: tracks[i] == ExportedTrack(cited[i].artist, cited[i].title, cited[i].factualCitationUrls)
  }

  lemma CitedAreListed(candidates: seq<Candidate>)
    ensures ListsCited(candidates, FactualTracks(candidates))
  {
    hide Filter;
    var places := FilterPicks(candidates, HasFactualCitation());
    assert Picks(candidates, FactuallyCited(), places, Filter(candidates, HasFactualCitation()));
  }

  lemma ManifestIsListed(rules: Rules, expected: Binding, run: PersistedRun)
    requires BindingHolds(rules, expected, run)
    ensures ListsManifest(run.candidates, CuratedTracks(run.candidates))
    ensures NumbersManifest(run.candidates, |Filter(run.candidates, InManifest())|)
  {
    hide NumbersManifest, Distinct, CandidateIds, Filter, SortBy;
    PlacedNumbers(run.candidates);
    PlacedMembers(run.candidates);
    var placed := ByPosition(run.candidates);
    hide ByPosition;
    forall c | c in run.candidates && c.manifestPosition.Some? && c.manifestPosition.value < |placed|
      ensures placed[c.manifestPosition.value] == c
    {
      var k :| 0 <= k < |placed| && placed[k] == c;
    }
    PlacedCount(run.candidates);
  }

  lemma PlacedCount(candidates: seq<Candidate>)
    ensures |ByPosition(candidates)| == |Filter(candidates, InManifest())|
  {
    hide SortBy, Filter;
  }

  /** An exported run carries the persisted run's fields, the attested snapshot and the size of its manifest. */
  ghost predicate Describes(exported: ExportedRun, expected: Binding, run: PersistedRun) {
    && exported.benchmark == run.benchmark && exported.runId == run.runId && exported.status == run.status
    && exported.storefront == run.storefront && exported.briefHash == run.briefHash && exported.manifestId == run.manifestId
    && exported.manifestContentHash == run.manifestContentHash && exported.matchSnapshotHash == expected.matchSnapshotHash
    && exported.manifestLockedAt == run.manifestLockedAt && exported.candidateCount == |run.candidates|
    && NumbersManifest(run.candidates, exported.manifestTrackCount)
  }

  lemma ExportDescribes(rules: Rules, expected: Binding, run: PersistedRun)
    requires BindingHolds(rules, expected, run)
    ensures Describes(ExportRun(rules, run), expected, run)
  {
    hide NumbersManifest, Filter, ContiguousPositions, CandidateIds;
    ManifestIsListed(rules, expected, run);
  }

  ghost predicate TellsOf(row: AuditRow, runId: string, c: Candidate, truth: seq<Truth>) {
    exists t :: t in truth && t.candidateId == c.candidateId && Tells(row, runId, c, t)
  }

  /** One row for each factual candidate, in order: those of the first run, then those of the second. */
  ghost predicate TellsAll(rows: seq<AuditRow>, runs: seq<PersistedRun>, truth: seq<Truth>)
    requires |runs| == 3
  {
    var n := |runs[0].candidates|;
    && |rows| == n + |runs[1].candidates|
    && (forall k | 0 <= k < n ::
          TellsOf(rows[k], runs[0].runId, runs[0].candidates[k], truth))
    && (forall k | n <= k < |rows| ::
          TellsOf(rows[k], runs[1].runId, runs[1].candidates[k - n], truth))
  }

  lemma AuditTellsAll(run: PersistedRun, truth: seq<Truth>, k: nat)
    requires HasInitialDecisions(run.candidates) && k < |run.candidates|
    requires forall k | 0 <= k < |run.candidates| :: run.candidates[k].candidateId in TruthIds(truth)
    ensures TellsOf(Audit(run, truth)[k], run.runId, run.candidates[k], truth)
  {
    hide AuditOf, Tells;
    var t := TruthOf(truth, run.candidates[k].candidateId);
    AuditTells(run.runId, run.candidates[k], t);
  }

  lemma RowsTell(runs: seq<PersistedRun>, truth: seq<Truth>)
    requires |runs| == 3 && HasInitialDecisions(FactualCandidates(runs)) && TruthCovers(truth, FactualCandidates(runs))
    ensures TellsAll(Rows(runs, truth), runs, truth)
  {
    hide TellsOf, AuditOf, TruthOf, TruthCovers, HasInitialDecisions, FactualCandidates;
    FactualParts(runs, truth);
    var first, second := Audit(runs[0], truth), Audit(runs[1], truth);
    forall k | 0 <= k < |first| ensures TellsOf(first[k], runs[0].runId, runs[0].candidates[k], truth) {
      AuditTellsAll(runs[0], truth, k);
    }
    forall k | 0 <= k < |second| ensures TellsOf(second[k], runs[1].runId, runs[1].candidates[k], truth) {
      AuditTellsAll(runs[1], truth, k);
    }
    TellsBoth(first, second, runs, truth);
  }

  lemma TellsBoth(first: seq<AuditRow>, second: seq<AuditRow>, runs: seq<PersistedRun>, truth: seq<Truth>)
    requires |runs| == 3 && |first| == |runs[0].candidates| && |second| == |runs[1].candidates|
    requires forall k | 0 <= k < |first| :: TellsOf(first[k], runs[0].runId, runs[0].candidates[k], truth)
    requires forall k | 0 <= k < |second| :: TellsOf(second[k], runs[1].runId, runs[1].candidates[k], truth)
    ensures TellsAll(first + second, runs, truth)
  {
    hide TellsOf;
  }

  /** Everything in a built export, said on the attestation and the persisted runs. */
  lemma BuiltSays(rules: Rules, generatedAt: string, databaseSchemaVersion: string, fixtureVersion: string, a: Attestation,
                  runs: seq<PersistedRun>)
    requires Build(rules, generatedAt, databaseSchemaVersion, fixtureVersion, a, runs).Ok?
    ensures |runs| == 3 && |a.runs| == 3
    ensures var artifact := Build(rules, generatedAt, databaseSchemaVersion, fixtureVersion, a, runs).value;
      var c := artifact.content;
      && artifact.artifactHash == rules.contentHash(c)
      && c.generatedAt == generatedAt && c.databaseSchemaVersion == databaseSchemaVersion && c.fixtureVersion == fixtureVersion
      && c.attestedBy == a.attestedBy && c.attestedAt == a.attestedAt && c.rationales == a.rationales && c.ratings == a.ratings
      && |c.runs| == 3 && |c.holdouts| == 2
      && Describes(c.runs[0], a.runs[0], runs[0]) && Describes(c.runs[1], a.runs[1], runs[1]) && Describes(c.runs[2], a.runs[2], runs[2])
      && ListsCited(runs[0].candidates, c.holdouts[0]) && ListsCited(runs[1].candidates, c.holdouts[1])
      && ListsManifest(runs[2].candidates, c.curatedTracks)
      && TellsAll(c.matching, runs, a.matchTruth)
  {
    hide CanBuild, Describes, ListsCited, ListsManifest, TellsAll, Audit, ExportRun, FactualTracks, CuratedTracks, AttestationHash, BindingHolds;
    CanBuildMeans(rules, generatedAt, fixtureVersion, a, runs);
    ExportDescribes(rules, a.runs[0], runs[0]);
    ExportDescribes(rules, a.runs[1], runs[1]);
    ExportDescribes(rules, a.runs[2], runs[2]);
    CitedAreListed(runs[0].candidates);
    CitedAreListed(runs[1].candidates);
    ManifestIsListed(rules, a.runs[2], runs[2]);
    RowsTell(runs, a.matchTruth);
  }

  // ---------- what verifying requires ----------

  /** A row's texts have their formats, and its judgement follows from its own fields. */
  ghost predicate IsSoundRow(rules: Rules, row: AuditRow) {
    && rules.isUuid(row.runId) && rules.isUuid(row.candidateId)
    && rules.isText(row.initialStatus, 40) && rules.isText(row.finalStatus, 40) && rules.isText(row.attestationNote, 1000)
    && (forall id | row.initialCatalogId == Some(id) || row.finalCatalogId == Some(id) :: rules.isText(id, 100))
    && |row.acceptableCatalogIds| <= 20 && (forall id | id in row.acceptableCatalogIds :: rules.isText(id, 100))
    && (forall i, j | 0 <= i < j < |row.acceptableCatalogIds| :: row.acceptableCatalogIds[i] != row.acceptableCatalogIds[j])
    && (row.autoAccepted <==> row.initialStatus == "accepted")
    && (row.correct <==> row.initialStatus == "accepted" && IsOneOf(row.initialCatalogId, row.acceptableCatalogIds))
    && (row.resolved <==> row.storefrontAvailable && (row.finalStatus == "accepted" || row.finalStatus == "duplicate")
                          && IsOneOf(row.finalCatalogId, row.acceptableCatalogIds))
  }

  lemma SoundRowExactly(rules: Rules, row: AuditRow)
    ensures GoodRow(rules, row) <==> IsSoundRow(rules, row)
  {
    AcceptableExactly(row.initialCatalogId, row.acceptableCatalogIds);
    AcceptableExactly(row.finalCatalogId, row.acceptableCatalogIds);
    hide Acceptable, IsOneOf;
    OptionalIdExactly(rules, row.initialCatalogId);
    OptionalIdExactly(rules, row.finalCatalogId);
  }

  lemma OptionalIdExactly(rules: Rules, given: Option<string>)
    ensures GoodOptionalId(rules, given) <==> forall id | given == Some(id) :: rules.isText(id, 100)
  {
  }

  ghost predicate AreSoundTracks(rules: Rules, tracks: seq<ExportedTrack>) {
    forall t | t in tracks :: rules.isText(t.artist, 240) && rules.isText(t.title, 240) && forall u | u in t.citationUrls :: rules.isHttps(u)
  }

  lemma SoundTracksExactly(rules: Rules, tracks: seq<ExportedTrack>)
    ensures GoodTracks(rules, tracks) <==> AreSoundTracks(rules, tracks)
  {
    assert forall k | 0 <= k < |tracks| :: tracks[k] in tracks;
  }

  ghost predicate IsSoundRun(rules: Rules, run: ExportedRun) {
    && run.storefront == "us"
    && rules.isUuid(run.runId) && rules.isUuid(run.manifestId) && rules.isTimestamp(run.manifestLockedAt)
    && rules.isDigest(run.briefHash) && rules.isDigest(run.manifestContentHash) && rules.isDigest(run.matchSnapshotHash)
  }

  /** The rows are sound, tell of different candidates, belong to the factual runs and are as many as these claim; of two runs with
      one id the second claim counts. */
  ghost predicate IsSoundMatching(rules: Rules, first: ExportedRun, second: ExportedRun, rows: seq<AuditRow>) {
    && (forall row | row in rows :: IsSoundRow(rules, row) && (row.runId == first.runId || row.runId == second.runId))
    && (forall i, j | 0 <= i < j < |rows| :: rows[i].candidateId != rows[j].candidateId)
    && CountTrue(rows, (row: AuditRow) => row.runId == second.runId) == second.candidateCount > 0
    && (first.runId != second.runId ==> CountTrue(rows, (row: AuditRow) => row.runId == first.runId) == first.candidateCount > 0)
  }

  lemma RowsOfRun(rows: seq<AuditRow>, runId: string)
    ensures CountTrue(rows, OfRun(runId)) == CountTrue(rows, (row: AuditRow) => row.runId == runId)
  {
    SameCount(rows, OfRun(runId), (row: AuditRow) => row.runId == runId);
  }

  lemma DistinctRows(rows: seq<AuditRow>)
    ensures Distinct(RowIds(rows)) <==> forall i, j | 0 <= i < j < |rows| :: rows[i].candidateId != rows[j].candidateId
  {
  }

  lemma CountsExactly(runs: seq<ExportedRun>, rows: seq<AuditRow>)
    requires |runs| == 3
    ensures (forall runId | runId in FactualRunCounts(runs) :: CountTrue(rows, OfRun(runId)) == FactualRunCounts(runs)[runId] > 0) <==>
      && CountTrue(rows, OfRun(runs[1].runId)) == runs[1].candidateCount > 0
      && (runs[0].runId != runs[1].runId ==> CountTrue(rows, OfRun(runs[0].runId)) == runs[0].candidateCount > 0)
  {
    hide CountTrue;
    assert forall runId :: runId in FactualRunCounts(runs) <==> runId == runs[0].runId || runId == runs[1].runId;
  }

  lemma SoundMatchingExactly(rules: Rules, runs: seq<ExportedRun>, rows: seq<AuditRow>)
    requires |runs| == 3
    ensures GoodMatching(rules, runs, rows) <==> IsSoundMatching(rules, runs[0], runs[1], rows)
  {
    hide GoodRow, IsSoundRow, CountTrue, RowIds, Distinct;
    DistinctRows(rows);
    RowsOfRun(rows, runs[0].runId);
    RowsOfRun(rows, runs[1].runId);
    CountsExactly(runs, rows);
    forall row ensures GoodRow(rules, row) <==> IsSoundRow(rules, row) { SoundRowExactly(rules, row); }
    assert forall k | 0 <= k < |rows| :: rows[k] in rows;
    assert forall runId :: runId in FactualRunCounts(runs) <==> runId == runs[0].runId || runId == runs[1].runId;
    hide FactualRunCounts;
  }

  /** Current fixture, sound formats, the hash of its own content, and seven ratings from zero to five with reasons. */
  ghost predicate IsSoundHeader(rules: Rules, artifact: Artifact, fixtureVersion: string) {
    var c := artifact.content;
    && c.fixtureVersion == fixtureVersion && artifact.artifactHash == rules.contentHash(c) && rules.isDigest(artifact.artifactHash)
    && rules.isTimestamp(c.generatedAt) && rules.isTimestamp(c.attestedAt) && rules.isDigest(c.attestationHash)
    && rules.isText(c.attestedBy, 200) && rules.isText(c.databaseSchemaVersion, 40)
    && |c.rationales| == 7 && (forall reason | reason in c.rationales :: rules.isText(reason, 1000))
    && |c.ratings| == 7 && (forall rating | rating in c.ratings :: 0.0 <= rating && rating <= 5.0)
  }

  lemma SoundHeaderExactly(rules: Rules, artifact: Artifact, fixtureVersion: string)
    ensures HeaderVerifies(rules, artifact, fixtureVersion) <==> IsSoundHeader(rules, artifact, fixtureVersion)
  {
    var c := artifact.content;
    assert forall k | 0 <= k < |c.ratings| :: c.ratings[k] in c.ratings;
    assert forall k | 0 <= k < |c.rationales| :: c.rationales[k] in c.rationales;
  }

  /** Three sound runs in the fixed order, no more cited tracks than candidates, and all tracks of the curated manifest. */
  ghost predicate HasSoundRuns(rules: Rules, c: Content) {
    && |c.runs| == 3 && IsSoundRun(rules, c.runs[0]) && IsSoundRun(rules, c.runs[1]) && IsSoundRun(rules, c.runs[2])
    && c.runs[0].benchmark == PaulinhoDaCosta && c.runs[1].benchmark == MichaelJackson && c.runs[2].benchmark == BerlinTechno
    && |c.holdouts| == 2 && AreSoundTracks(rules, c.holdouts[0]) && AreSoundTracks(rules, c.holdouts[1])
    && |c.holdouts[0]| <= c.runs[0].candidateCount && |c.holdouts[1]| <= c.runs[1].candidateCount
    && AreSoundTracks(rules, c.curatedTracks) && |c.curatedTracks| == c.runs[2].manifestTrackCount
  }

  lemma SoundRunsExactly(rules: Rules, c: Content)
    ensures TracksVerify(rules, c) <==> HasSoundRuns(rules, c)
  {
    hide GoodTracks, AreSoundTracks;
    if |c.holdouts| == 2 {
      SoundTracksExactly(rules, c.holdouts[0]);
      SoundTracksExactly(rules, c.holdouts[1]);
    }
    SoundTracksExactly(rules, c.curatedTracks);
  }

  /** An export verifies exactly when its header, its runs and its rows are sound and it carries the hash of the attestation that
      its own fields give back. */
  lemma VerifiesExactly(rules: Rules, artifact: Artifact, fixtureVersion: string)
    ensures Verified(rules, artifact, fixtureVersion) <==>
      var c := artifact.content;
      && IsSoundHeader(rules, artifact, fixtureVersion)
      && HasSoundRuns(rules, c)
      && IsSoundMatching(rules, c.runs[0], c.runs[1], c.matching)
      && c.attestationHash == AttestationHash(rules, Reconstructed(c))
  {
    hide Verified, GoodMatching, IsSoundMatching, HeaderVerifies, IsSoundHeader, TracksVerify, AttestationHash, Reconstructed, GoodTracks, AreSoundTracks,
         IsSoundRun;
    VerifiedParts(rules, artifact, fixtureVersion);
    SoundHeaderExactly(rules, artifact, fixtureVersion);
    SoundRunsExactly(rules, artifact.content);
    if |artifact.content.runs| == 3 {
      SoundMatchingExactly(rules, artifact.content.runs, artifact.content.matching);
    }
  }

  /** The attestation read back from a content carries its fields, the bindings of its runs and one truth for each row. */
  lemma ReconstructedCarries(c: Content)
    requires |c.runs| == 3
    ensures var a := Reconstructed(c);
      && a.fixtureVersion == c.fixtureVersion && a.attestedBy == c.attestedBy && a.attestedAt == c.attestedAt
      && a.ratings == c.ratings && a.rationales == c.rationales
      && |a.runs| == 3 && |a.matchTruth| == |c.matching|
      && (forall i | 0 <= i < 3 ::
            a.runs[i] == Binding(c.runs[i].runId, c.runs[i].manifestId, c.runs[i].manifestContentHash, c.runs[i].matchSnapshotHash))
      && forall k | 0 <= k < |c.matching| ::
           a.matchTruth[k] == Truth(c.matching[k].candidateId, c.matching[k].storefrontAvailable, c.matching[k].acceptableCatalogIds,
                                    c.matching[k].attestationNote)
  {
  }

  /** The attestation hash covers the attestation with its truth listed by candidate, in ascending order. */
  lemma AttestationHashLists(rules: Rules, a: Attestation) returns (listed: seq<Truth>)
    ensures AttestationHash(rules, a) == rules.attestationHash(a.(matchTruth := listed)) && multiset(listed) == multiset(a.matchTruth)
    ensures forall i, j | 0 <= i < j < |listed| :: !KeyLess(rules.collation(listed[j].candidateId), rules.collation(listed[i].candidateId))
  {
    hide KeyLess, SortBy;
    listed := SortBy(a.matchTruth, TruthKey(rules));
    SortBySorts(a.matchTruth, TruthKey(rules));
    assert forall i, j | 0 <= i < j < |listed| :: !KeyLess(TruthKey(rules)(listed[j]), TruthKey(rules)(listed[i]));
    assert forall t: Truth :: TruthKey(rules)(t) == rules.collation(t.candidateId);
  }
}
