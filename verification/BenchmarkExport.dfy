/** The benchmark export: build an artifact from an attestation and persisted runs, and verify it on its own. */
module BenchmarkExport {
  import opened Collections
  import opened Counting
  import opened StableSorting

  type Hash = string

  datatype Name = PaulinhoDaCosta | MichaelJackson | BerlinTechno

  /** The first two are the factual benchmarks. */
  const NAMES := [PaulinhoDaCosta, MichaelJackson, BerlinTechno]

  const RATING_COUNT := 7

  datatype Binding = Binding(runId: string, manifestId: string, manifestContentHash: Hash, matchSnapshotHash: Hash)

  datatype Truth = Truth(candidateId: string, storefrontAvailable: bool, acceptableCatalogIds: seq<string>, note: string)

  /** runs, ratings and rationales are keyed by the fixed lists of names and rating keys, in their order. */
  datatype Attestation = Attestation(
    fixtureVersion: string, attestedBy: string, attestedAt: string, runs: seq<Binding>, matchTruth: seq<Truth>,
    ratings: seq<real>, rationales: seq<string>)

  datatype Candidate = Candidate(
    candidateId: string, artist: string, title: string, matchStatus: string, catalogId: Option<string>,
    initialMatchStatus: Option<string>, initialCatalogId: Option<string>, initialMatchedAt: Option<string>,
    manifestPosition: Option<nat>, factualCitationUrls: seq<string>, curatedCitationUrls: seq<string>, details: string)

  datatype PersistedRun = PersistedRun(
    benchmark: Name, runId: string, status: string, storefront: string, briefHash: Hash, manifestId: string,
    manifestContentHash: Hash, manifestLockedAt: string, candidates: seq<Candidate>)

  datatype ExportedTrack = ExportedTrack(artist: string, title: string, citationUrls: seq<string>)

  datatype ExportedRun = ExportedRun(
    benchmark: Name, runId: string, status: string, storefront: string, briefHash: Hash, manifestId: string,
    manifestContentHash: Hash, matchSnapshotHash: Hash, manifestLockedAt: string, candidateCount: nat, manifestTrackCount: nat)

  datatype AuditRow = AuditRow(
    runId: string, candidateId: string, initialStatus: string, initialCatalogId: Option<string>, finalStatus: string,
    finalCatalogId: Option<string>, acceptableCatalogIds: seq<string>, attestationNote: string,
    autoAccepted: bool, correct: bool, storefrontAvailable: bool, resolved: bool)

  /** What the content hash covers. */
  datatype Content = Content(
    generatedAt: string, fixtureVersion: string, attestedBy: string, attestedAt: string, rationales: seq<string>,
    attestationHash: Hash, databaseSchemaVersion: string, runs: seq<ExportedRun>, holdouts: seq<seq<ExportedTrack>>,
    matching: seq<AuditRow>, curatedTracks: seq<ExportedTrack>, ratings: seq<real>)

  datatype Artifact = Artifact(content: Content, artifactHash: Hash)

  /** Hashing, the order of localeCompare, and the text formats: given functions. */
  datatype Rules = Rules(
    snapshotHash: PersistedRun -> Hash, attestationHash: Attestation -> Hash, contentHash: Content -> Hash,
    collation: string -> seq<int>,
    isUuid: string -> bool, isDigest: string -> bool, isTimestamp: string -> bool, isText: (string, nat) -> bool,
    isHttps: string -> bool)

  function TruthKey(rules: Rules): Truth -> seq<int> {
    (t: Truth) => rules.collation(t.candidateId)
  }

  /** The attestation hash does not depend on the order of the match truth. */
  function AttestationHash(rules: Rules, a: Attestation): Hash {
    rules.attestationHash(a.(matchTruth := SortBy(a.matchTruth, TruthKey(rules))))
  }

  // ---------- building ----------

  function CandidateIds(candidates: seq<Candidate>): seq<string> {
    Mapped(candidates, (c: Candidate) => c.candidateId)
  }

  function TruthIds(truth: seq<Truth>): seq<string> {
    Mapped(truth, (t: Truth) => t.candidateId)
  }

  function InManifest(): Candidate -> bool {
    (c: Candidate) => c.manifestPosition.Some?
  }

  function HasFactualCitation(): Candidate -> bool {
    (c: Candidate) => |c.factualCitationUrls| > 0
  }

  /** Manifest positions are exactly 0, 1, 2, ... in some order. */
  predicate ContiguousPositions(candidates: seq<Candidate>) {
    var placed := ByPosition(candidates);
    forall k | 0 <= k < |placed| :: placed[k].manifestPosition == Some(k)
  }

  function PositionKey(): Candidate -> seq<int> {
    (c: Candidate) => if c.manifestPosition.Some? then [c.manifestPosition.value] else []
  }

  function ByPosition(candidates: seq<Candidate>): seq<Candidate> {
    SortBy(Filter(candidates, InManifest()), PositionKey())
  }

  predicate BindingHolds(rules: Rules, expected: Binding, run: PersistedRun) {
    && run.runId == expected.runId && run.manifestId == expected.manifestId
    && run.manifestContentHash == expected.manifestContentHash && rules.snapshotHash(run) == expected.matchSnapshotHash
    && run.storefront == "us" && |run.candidates| > 0
    && AllDistinct(CandidateIds(run.candidates))
    && (forall k | 0 <= k < |run.candidates| :: run.candidates[k].matchStatus != "")
    && ContiguousPositions(run.candidates)
  }

  /** The runs arrive as a record with one entry per name. */
  predicate HasEveryName(runs: seq<PersistedRun>) {
    |runs| == |NAMES| && forall i | 0 <= i < |runs| :: runs[i].benchmark == NAMES[i]
  }

  function FactualCandidates(runs: seq<PersistedRun>): seq<Candidate>
    requires |runs| == 3
  {
    runs[0].candidates + runs[1].candidates
  }

  predicate HasInitialDecisions(candidates: seq<Candidate>) {
    forall k | 0 <= k < |candidates| :: candidates[k].initialMatchStatus.Some? && candidates[k].initialMatchedAt.Some?
  }

  predicate TruthCovers(truth: seq<Truth>, candidates: seq<Candidate>) {
    && (forall k | 0 <= k < |candidates| :: candidates[k].candidateId in TruthIds(truth))
    && (forall k | 0 <= k < |truth| :: truth[k].candidateId in CandidateIds(candidates))
  }

  /** The attested row of a candidate. */
  function TruthOf(truth: seq<Truth>, candidateId: string): (r: Truth)
    requires candidateId in TruthIds(truth)
    ensures r in truth && r.candidateId == candidateId
  {
    truth[FirstIndex(TruthIds(truth), candidateId)]
  }

  predicate Acceptable(catalogId: Option<string>, acceptable: seq<string>) {
    catalogId.Some? && catalogId.value in acceptable
  }

  function AuditOf(runId: string, c: Candidate, expected: Truth): AuditRow
    requires c.initialMatchStatus.Some?
  {
    var autoAccepted := c.initialMatchStatus.value == "accepted";
    AuditRow(runId, c.candidateId, c.initialMatchStatus.value, c.initialCatalogId, c.matchStatus, c.catalogId,
             expected.acceptableCatalogIds, expected.note,
             autoAccepted,
             autoAccepted && Acceptable(c.initialCatalogId, expected.acceptableCatalogIds),
             expected.storefrontAvailable,
             expected.storefrontAvailable && c.matchStatus in ["accepted", "duplicate"]
             && Acceptable(c.catalogId, expected.acceptableCatalogIds))
  }

  function Audit(run: PersistedRun, truth: seq<Truth>): (r: seq<AuditRow>)
    requires HasInitialDecisions(run.candidates)
    requires forall k | 0 <= k < |run.candidates| :: run.candidates[k].candidateId in TruthIds(truth)
    ensures |r| == |run.candidates|
    ensures forall k | 0 <= k < |r| ::
      r[k] == AuditOf(run.runId, run.candidates[k], TruthOf(truth, run.candidates[k].candidateId))
  {
    seq(|run.candidates|, k requires 0 <= k < |run.candidates| =>
      AuditOf(run.runId, run.candidates[k], TruthOf(truth, run.candidates[k].candidateId)))
  }

  function FactualTracks(candidates: seq<Candidate>): (r: seq<ExportedTrack>)
  {
    var cited := Filter(candidates, HasFactualCitation());
    seq(|cited|, k requires 0 <= k < |cited| => ExportedTrack(cited[k].artist, cited[k].title, cited[k].factualCitationUrls))
  }

  function CuratedTracks(candidates: seq<Candidate>): (r: seq<ExportedTrack>)
  {
    var placed := ByPosition(candidates);
    seq(|placed|, k requires 0 <= k < |placed| => ExportedTrack(placed[k].artist, placed[k].title, placed[k].curatedCitationUrls))
  }

  function ExportRun(rules: Rules, run: PersistedRun): ExportedRun {
    ExportedRun(run.benchmark, run.runId, run.status, run.storefront, run.briefHash, run.manifestId, run.manifestContentHash,
                rules.snapshotHash(run), run.manifestLockedAt, |run.candidates|, |Filter(run.candidates, InManifest())|)
  }

  predicate CanBuild(rules: Rules, generatedAt: string, fixtureVersion: string, a: Attestation, runs: seq<PersistedRun>) {
    && fixtureVersion == a.fixtureVersion && |a.runs| == |NAMES|
    && HasEveryName(runs)
    && (forall i | 0 <= i < |runs| :: BindingHolds(rules, a.runs[i], runs[i]))
    && HasInitialDecisions(FactualCandidates(runs))
    && TruthCovers(a.matchTruth, FactualCandidates(runs))
    && rules.isTimestamp(generatedAt)
  }

  lemma CanBuildMeans(rules: Rules, generatedAt: string, fixtureVersion: string, a: Attestation, runs: seq<PersistedRun>)
    requires CanBuild(rules, generatedAt, fixtureVersion, a, runs)
    ensures |runs| == 3 && |a.runs| == 3 && fixtureVersion == a.fixtureVersion
    ensures HasInitialDecisions(FactualCandidates(runs)) && TruthCovers(a.matchTruth, FactualCandidates(runs))
    ensures forall i | 0 <= i < 3 :: runs[i].benchmark == NAMES[i] && BindingHolds(rules, a.runs[i], runs[i])
  {
    hide BindingHolds, HasInitialDecisions, TruthCovers;
  }

  lemma PartOfWhole(before: seq<Candidate>, part: seq<Candidate>, after: seq<Candidate>, truth: seq<Truth>)
    requires HasInitialDecisions(before + part + after) && TruthCovers(truth, before + part + after)
    ensures HasInitialDecisions(part) && forall k | 0 <= k < |part| :: part[k].candidateId in TruthIds(truth)
  {
    hide TruthIds, CandidateIds;
    var all := before + part + after;
    forall k | 0 <= k < |part|
      ensures part[k].initialMatchStatus.Some? && part[k].initialMatchedAt.Some? && part[k].candidateId in TruthIds(truth)
    {
      assert all[|before| + k] == part[k];
    }
  }

  lemma FactualParts(runs: seq<PersistedRun>, truth: seq<Truth>)
    requires |runs| == 3 && HasInitialDecisions(FactualCandidates(runs)) && TruthCovers(truth, FactualCandidates(runs))
    ensures forall i | 0 <= i < 2 ::
      (HasInitialDecisions(runs[i].candidates)
       && forall k | 0 <= k < |runs[i].candidates| :: runs[i].candidates[k].candidateId in TruthIds(truth))
  {
    hide TruthIds, CandidateIds;
    var (first, second) := (runs[0].candidates, runs[1].candidates);
    assert [] + first + second == FactualCandidates(runs) && first + second + [] == FactualCandidates(runs);
    PartOfWhole([], first, second, truth);
    PartOfWhole(first, second, [], truth);
  }

  function Build(rules: Rules, generatedAt: string, databaseSchemaVersion: string, fixtureVersion: string, a: Attestation,
                 runs: seq<PersistedRun>): Result<Artifact>
  {
    if !CanBuild(rules, generatedAt, fixtureVersion, a, runs) then Err("the runs do not match the attestation")
    else
      FactualParts(runs, a.matchTruth);
      var content := Content(
        generatedAt, fixtureVersion, a.attestedBy, a.attestedAt, a.rationales, AttestationHash(rules, a), databaseSchemaVersion,
        [ExportRun(rules, runs[0]), ExportRun(rules, runs[1]), ExportRun(rules, runs[2])],
        [FactualTracks(runs[0].candidates), FactualTracks(runs[1].candidates)],
        Audit(runs[0], a.matchTruth) + Audit(runs[1], a.matchTruth),
        CuratedTracks(runs[2].candidates), a.ratings);
      Ok(Artifact(content, rules.contentHash(content)))
  }

  // ---------- verifying ----------

  predicate GoodRun(rules: Rules, run: ExportedRun, name: Name) {
    && run.benchmark == name && rules.isUuid(run.runId) && rules.isUuid(run.manifestId) && rules.isDigest(run.briefHash)
    && rules.isDigest(run.manifestContentHash) && rules.isDigest(run.matchSnapshotHash) && rules.isTimestamp(run.manifestLockedAt)
    && run.storefront == "us"
  }

  predicate GoodTracks(rules: Rules, tracks: seq<ExportedTrack>) {
    forall k | 0 <= k < |tracks| ::
      && rules.isText(tracks[k].artist, 240) && rules.isText(tracks[k].title, 240)
      && forall u | u in tracks[k].citationUrls :: rules.isHttps(u)
  }

  predicate GoodCatalogIds(rules: Rules, ids: seq<string>) {
    |ids| <= 20 && AllDistinct(ids) && forall id | id in ids :: rules.isText(id, 100)
  }

  predicate GoodOptionalId(rules: Rules, id: Option<string>) {
    id.Some? ==> rules.isText(id.value, 100)
  }

  /** The formats of a row, and metrics that follow from its own fields. */
  predicate GoodRow(rules: Rules, row: AuditRow) {
    && rules.isUuid(row.runId) && rules.isUuid(row.candidateId)
    && rules.isText(row.initialStatus, 40) && GoodOptionalId(rules, row.initialCatalogId)
    && rules.isText(row.finalStatus, 40) && GoodOptionalId(rules, row.finalCatalogId)
    && GoodCatalogIds(rules, row.acceptableCatalogIds) && rules.isText(row.attestationNote, 1000)
    && row.autoAccepted == (row.initialStatus == "accepted")
    && row.correct == (row.autoAccepted && Acceptable(row.initialCatalogId, row.acceptableCatalogIds))
    && row.resolved == (row.storefrontAvailable && row.finalStatus in ["accepted", "duplicate"]
                        && Acceptable(row.finalCatalogId, row.acceptableCatalogIds))
  }

  function OfRun(runId: string): AuditRow -> bool {
    (row: AuditRow) => row.runId == runId
  }

  function RowIds(rows: seq<AuditRow>): seq<string> {
    Mapped(rows, (a: AuditRow) => a.candidateId)
  }

  /** The expected number of rows per factual run; a repeated run id keeps the later count. */
  function FactualRunCounts(runs: seq<ExportedRun>): map<string, nat>
    requires |runs| == 3
  {
    map[runs[0].runId := runs[0].candidateCount][runs[1].runId := runs[1].candidateCount]
  }

  /** Every row belongs to a factual run and no candidate repeats; a run without rows has no count to compare. */
  ghost predicate GoodMatching(rules: Rules, runs: seq<ExportedRun>, rows: seq<AuditRow>)
    requires |runs| == 3
  {
    var counts := FactualRunCounts(runs);
    && (forall k | 0 <= k < |rows| :: GoodRow(rules, rows[k]) && rows[k].runId in counts)
    && Distinct(RowIds(rows))
    && (forall runId | runId in counts :: CountTrue(rows, OfRun(runId)) == counts[runId] > 0)
  }

  predicate GoodRatings(ratings: seq<real>) {
    |ratings| == RATING_COUNT && forall k | 0 <= k < |ratings| :: 0.0 <= ratings[k] <= 5.0
  }

  predicate GoodRationales(rules: Rules, rationales: seq<string>) {
    |rationales| == RATING_COUNT && forall k | 0 <= k < |rationales| :: rules.isText(rationales[k], 1000)
  }

  function BindingOf(run: ExportedRun): Binding {
    Binding(run.runId, run.manifestId, run.manifestContentHash, run.matchSnapshotHash)
  }

  function TruthOfRow(row: AuditRow): Truth {
    Truth(row.candidateId, row.storefrontAvailable, row.acceptableCatalogIds, row.attestationNote)
  }

  function TruthsOf(rows: seq<AuditRow>): seq<Truth> {
    Mapped(rows, (a: AuditRow) => TruthOfRow(a))
  }

  function Reconstructed(c: Content): Attestation
    requires |c.runs| == 3
  {
    Attestation(c.fixtureVersion, c.attestedBy, c.attestedAt, [BindingOf(c.runs[0]), BindingOf(c.runs[1]), BindingOf(c.runs[2])],
                TruthsOf(c.matching), c.ratings, c.rationales)
  }

  ghost predicate Verified(rules: Rules, artifact: Artifact, fixtureVersion: string) {
    var c := artifact.content;
    && c.fixtureVersion == fixtureVersion && rules.isTimestamp(c.generatedAt)
    && rules.isDigest(artifact.artifactHash) && artifact.artifactHash == rules.contentHash(c)
    && rules.isText(c.attestedBy, 200) && rules.isTimestamp(c.attestedAt) && rules.isDigest(c.attestationHash)
    && GoodRationales(rules, c.rationales) && rules.isText(c.databaseSchemaVersion, 40)
    && |c.runs| == |NAMES| && (forall i | 0 <= i < |c.runs| :: GoodRun(rules, c.runs[i], NAMES[i]))
    && |c.holdouts| == 2
    && (forall i | 0 <= i < 2 :: GoodTracks(rules, c.holdouts[i]) && |c.holdouts[i]| <= c.runs[i].candidateCount)
    && GoodMatching(rules, c.runs, c.matching)
    && GoodTracks(rules, c.curatedTracks) && |c.curatedTracks| == c.runs[2].manifestTrackCount
    && GoodRatings(c.ratings)
    && c.attestationHash == AttestationHash(rules, Reconstructed(c))
  }

  function RowsSoFar(exported: map<string, nat>, runId: string): nat {
    if runId in exported then exported[runId] else 0
  }

  /** What the walk has found after some rows. */
  ghost predicate Walked(rules: Rules, counts: map<string, nat>, rows: seq<AuditRow>, exported: map<string, nat>, ids: set<string>) {
    && (forall k | 0 <= k < |rows| :: GoodRow(rules, rows[k]) && rows[k].runId in counts)
    && ids == Elements(RowIds(rows)) && Distinct(RowIds(rows))
    && (forall runId :: RowsSoFar(exported, runId) == CountTrue(rows, OfRun(runId)))
    && (forall runId | runId in exported :: exported[runId] > 0)
  }

  lemma WalkOn(rules: Rules, counts: map<string, nat>, rows: seq<AuditRow>, row: AuditRow, exported: map<string, nat>, ids: set<string>)
    requires Walked(rules, counts, rows, exported, ids)
    requires row.runId in counts && row.candidateId !in ids && GoodRow(rules, row)
    ensures Walked(rules, counts, rows + [row], exported[row.runId := RowsSoFar(exported, row.runId) + 1], ids + {row.candidateId})
  {
    hide GoodRow, CountTrue;
    forall runId ensures CountTrue(rows + [row], OfRun(runId)) == CountTrue(rows, OfRun(runId)) + (if row.runId == runId then 1 else 0) {
      CountOneMore(rows, row, OfRun(runId));
    }
    assert RowIds(rows + [row]) == RowIds(rows) + [row.candidateId];
  }

  lemma WalkStarts(rules: Rules, counts: map<string, nat>)
    ensures Walked(rules, counts, [], map[], {})
  {
    assert RowIds([]) == [];
  }

  lemma RepeatedId(rows: seq<AuditRow>, index: nat)
    requires index < |rows| && rows[index].candidateId in Elements(RowIds(rows[..index]))
    ensures !Distinct(RowIds(rows))
  {
    var k :| 0 <= k < index && RowIds(rows[..index])[k] == rows[index].candidateId;
    assert RowIds(rows)[k] == RowIds(rows)[index];
  }

  lemma WalkEnds(rules: Rules, runs: seq<ExportedRun>, rows: seq<AuditRow>, exported: map<string, nat>, ids: set<string>)
    requires |runs| == 3
    requires Walked(rules, FactualRunCounts(runs), rows, exported, ids)
    ensures GoodMatching(rules, runs, rows) <==> CountAgrees(runs, exported, 0) && CountAgrees(runs, exported, 1)
  {
    hide GoodRow, CountTrue;
    assert forall runId :: runId in FactualRunCounts(runs) <==> runId == runs[0].runId || runId == runs[1].runId;
    assert RowsSoFar(exported, runs[0].runId) == CountTrue(rows, OfRun(runs[0].runId));
    assert RowsSoFar(exported, runs[1].runId) == CountTrue(rows, OfRun(runs[1].runId));
  }

  predicate CountAgrees(runs: seq<ExportedRun>, exported: map<string, nat>, i: nat)
    requires |runs| == 3 && i < 2
  {
    runs[i].runId in exported && exported[runs[i].runId] == FactualRunCounts(runs)[runs[i].runId]
  }

  /** The walk over the rows: count them per run and remember the candidates seen. */
  method VerifyMatching(rules: Rules, runs: seq<ExportedRun>, rows: seq<AuditRow>) returns (ok: bool)
    requires |runs| == 3
    ensures ok <==> GoodMatching(rules, runs, rows)
  {
    hide GoodRow, CountTrue, Walked, FactualRunCounts, Distinct, RowIds;
    var factualRunCounts := FactualRunCounts(runs);
    var exportedMatchCounts: map<string, nat> := map[];
    var exportedCandidateIds: set<string> := {};
    WalkStarts(rules, factualRunCounts);
    for index := 0 to |rows|
      invariant Walked(rules, factualRunCounts, rows[..index], exportedMatchCounts, exportedCandidateIds)
    {
      var row := rows[index];
      WalkedIds(rules, factualRunCounts, rows[..index], exportedMatchCounts, exportedCandidateIds);
      if row.runId !in factualRunCounts { return false; }
      if row.candidateId in exportedCandidateIds {
        RepeatedId(rows, index);
        return false;
      }
      if !GoodRow(rules, row) { return false; }
      WalkOn(rules, factualRunCounts, rows[..index], row, exportedMatchCounts, exportedCandidateIds);
      assert rows[..index + 1] == rows[..index] + [row];
      exportedCandidateIds := exportedCandidateIds + {row.candidateId};
      exportedMatchCounts := exportedMatchCounts[row.runId := RowsSoFar(exportedMatchCounts, row.runId) + 1];
    }
    assert rows[..|rows|] == rows;
    WalkEnds(rules, runs, rows, exportedMatchCounts, exportedCandidateIds);
    return CountAgrees(runs, exportedMatchCounts, 0) && CountAgrees(runs, exportedMatchCounts, 1);
  }

  lemma WalkedIds(rules: Rules, counts: map<string, nat>, rows: seq<AuditRow>, exported: map<string, nat>, ids: set<string>)
    requires Walked(rules, counts, rows, exported, ids)
    ensures ids == Elements(RowIds(rows))
  {
  }

  method VerifyExport(rules: Rules, artifact: Artifact, fixtureVersion: string) returns (ok: bool)
    ensures ok <==> Verified(rules, artifact, fixtureVersion)
  {
    hide GoodMatching, GoodTracks, GoodRun, GoodRationales, GoodRatings, Reconstructed, AttestationHash;
    var c := artifact.content;
    if c.fixtureVersion != fixtureVersion || !rules.isTimestamp(c.generatedAt) || !rules.isDigest(artifact.artifactHash)
      || artifact.artifactHash != rules.contentHash(c)
      || !rules.isText(c.attestedBy, 200) || !rules.isTimestamp(c.attestedAt) || !rules.isDigest(c.attestationHash)
      || !GoodRationales(rules, c.rationales) || !rules.isText(c.databaseSchemaVersion, 40)
    {
      return false;
    }
    if |c.runs| != |NAMES| || !(forall i | 0 <= i < |c.runs| :: GoodRun(rules, c.runs[i], NAMES[i])) { return false; }
    if |c.holdouts| != 2
      || !(forall i | 0 <= i < 2 :: GoodTracks(rules, c.holdouts[i]) && |c.holdouts[i]| <= c.runs[i].candidateCount)
    {
      return false;
    }
    var matchingOk := VerifyMatching(rules, c.runs, c.matching);
    if !matchingOk { return false; }
    return GoodTracks(rules, c.curatedTracks) && |c.curatedTracks| == c.runs[2].manifestTrackCount && GoodRatings(c.ratings)
      && c.attestationHash == AttestationHash(rules, Reconstructed(c));
  }

  // ---------- round trip ----------

  /** What the attestation parser accepts. */
  ghost predicate ParsedAttestation(rules: Rules, a: Attestation) {
    && |a.runs| == |NAMES|
    && (forall i | 0 <= i < |a.runs| ::
          && rules.isUuid(a.runs[i].runId) && rules.isUuid(a.runs[i].manifestId)
          && rules.isDigest(a.runs[i].manifestContentHash) && rules.isDigest(a.runs[i].matchSnapshotHash))
    && (forall t | t in a.matchTruth ::
          && rules.isUuid(t.candidateId) && t.storefrontAvailable == (|t.acceptableCatalogIds| > 0)
          && GoodCatalogIds(rules, t.acceptableCatalogIds) && rules.isText(t.note, 1000))
    && Distinct(TruthIds(a.matchTruth))
    && rules.isText(a.attestedBy, 200) && rules.isTimestamp(a.attestedAt)
    && GoodRatings(a.ratings) && GoodRationales(rules, a.rationales)
  }

  ghost predicate GoodCandidate(rules: Rules, c: Candidate) {
    && rules.isText(c.artist, 240) && rules.isText(c.title, 240)
    && rules.isText(c.matchStatus, 40) && GoodOptionalId(rules, c.catalogId)
    && (c.initialMatchStatus.Some? ==> rules.isText(c.initialMatchStatus.value, 40)) && GoodOptionalId(rules, c.initialCatalogId)
    && (forall u | u in c.factualCitationUrls :: rules.isHttps(u)) && (forall u | u in c.curatedCitationUrls :: rules.isHttps(u))
  }

  /** Well-formed persisted runs. */
  ghost predicate PersistedWell(rules: Rules, runs: seq<PersistedRun>, databaseSchemaVersion: string) {
    && rules.isText(databaseSchemaVersion, 40)
    && forall r | r in runs ::
         && rules.isDigest(r.briefHash) && rules.isTimestamp(r.manifestLockedAt)
         && forall c | c in r.candidates :: GoodCandidate(rules, c)
  }

  /** Hashes print as digests, and the candidate order tells different ids apart. */
  ghost predicate SoundRules(rules: Rules) {
    && (forall a :: rules.isDigest(rules.attestationHash(a))) && (forall c :: rules.isDigest(rules.contentHash(c)))
    && forall x, y :: rules.isUuid(x) && rules.isUuid(y) && rules.collation(x) == rules.collation(y) ==> x == y
  }

  /** The factual runs differ, and no candidate belongs to both. */
  ghost predicate FactualApart(runs: seq<PersistedRun>)
    requires |runs| == 3
  {
    runs[0].runId != runs[1].runId && Distinct(CandidateIds(FactualCandidates(runs)))
  }

  function Rows(runs: seq<PersistedRun>, truth: seq<Truth>): seq<AuditRow>
    requires |runs| == 3 && HasInitialDecisions(FactualCandidates(runs)) && TruthCovers(truth, FactualCandidates(runs))
  {
    FactualParts(runs, truth);
    Audit(runs[0], truth) + Audit(runs[1], truth)
  }

  /** Row k is the audit of factual candidate k. */
  lemma RowIsAudit(runs: seq<PersistedRun>, truth: seq<Truth>, k: nat)
    requires |runs| == 3 && HasInitialDecisions(FactualCandidates(runs)) && TruthCovers(truth, FactualCandidates(runs))
    requires k < |FactualCandidates(runs)|
    ensures |Rows(runs, truth)| == |FactualCandidates(runs)|
    ensures FactualCandidates(runs)[k].candidateId in TruthIds(truth)
    ensures var c := FactualCandidates(runs)[k];
      Rows(runs, truth)[k] == AuditOf(if k < |runs[0].candidates| then runs[0].runId else runs[1].runId, c, TruthOf(truth, c.candidateId))
  {
    hide AuditOf, TruthOf;
    FactualParts(runs, truth);
    var rows0 := Audit(runs[0], truth);
    if k < |rows0| {
      assert Rows(runs, truth)[k] == rows0[k];
    } else {
      assert Rows(runs, truth)[k] == Audit(runs[1], truth)[k - |rows0|];
    }
  }

  lemma RowIdsAreCandidateIds(runs: seq<PersistedRun>, truth: seq<Truth>)
    requires |runs| == 3 && HasInitialDecisions(FactualCandidates(runs)) && TruthCovers(truth, FactualCandidates(runs))
    ensures RowIds(Rows(runs, truth)) == CandidateIds(FactualCandidates(runs))
  {
    hide Rows, FactualCandidates, TruthOf, HasInitialDecisions, TruthCovers;
    var all := FactualCandidates(runs);
    SameLength(runs, truth);
    forall k | 0 <= k < |all| ensures Rows(runs, truth)[k].candidateId == all[k].candidateId {
      RowIsAudit(runs, truth, k);
    }
  }

  lemma SameLength(runs: seq<PersistedRun>, truth: seq<Truth>)
    requires |runs| == 3 && HasInitialDecisions(FactualCandidates(runs)) && TruthCovers(truth, FactualCandidates(runs))
    ensures |Rows(runs, truth)| == |FactualCandidates(runs)|
  {
    FactualParts(runs, truth);
  }

  /** The truth read back from the rows is the attested truth, in candidate order. */
  lemma TruthReadBack(runs: seq<PersistedRun>, truth: seq<Truth>)
    requires |runs| == 3 && HasInitialDecisions(FactualCandidates(runs)) && TruthCovers(truth, FactualCandidates(runs))
    requires Distinct(TruthIds(truth)) && Distinct(CandidateIds(FactualCandidates(runs)))
    ensures multiset(TruthsOf(Rows(runs, truth))) == multiset(truth)
  {
    hide Rows, FactualCandidates, HasInitialDecisions, TruthOf;
    var all := FactualCandidates(runs);
    var back := TruthsOf(Rows(runs, truth));
    SameLength(runs, truth);
    forall k | 0 <= k < |all| ensures all[k].candidateId in TruthIds(truth) && back[k] == TruthOf(truth, all[k].candidateId) {
      RowIsAudit(runs, truth, k);
    }
    forall i, j | 0 <= i < j < |back| ensures back[i] != back[j] {
      assert CandidateIds(all)[i] != CandidateIds(all)[j];
    }
    forall i, j | 0 <= i < j < |truth| ensures truth[i] != truth[j] {
      assert TruthIds(truth)[i] != TruthIds(truth)[j];
    }
    hide TruthsOf;
    forall t | t in Elements(truth) ensures t in Elements(back) {
      var i :| 0 <= i < |truth| && truth[i] == t;
      var k :| 0 <= k < |all| && CandidateIds(all)[k] == t.candidateId;
      OneTruthPerId(truth, t, TruthOf(truth, all[k].candidateId));
      assert back[k] == t;
    }
    assert Elements(back) == Elements(truth);
    SameElements(back, truth);
  }

  lemma OneTruthPerId(truth: seq<Truth>, t: Truth, u: Truth)
    requires Distinct(TruthIds(truth)) && t in truth && u in truth && t.candidateId == u.candidateId
    ensures t == u
  {
    var i :| 0 <= i < |truth| && truth[i] == t;
    var j :| 0 <= j < |truth| && truth[j] == u;
    assert TruthIds(truth)[i] == TruthIds(truth)[j];
  }

  lemma RowIsGood(rules: Rules, runs: seq<PersistedRun>, a: Attestation, k: nat)
    requires |runs| == 3 && HasInitialDecisions(FactualCandidates(runs)) && TruthCovers(a.matchTruth, FactualCandidates(runs))
    requires ParsedAttestation(rules, a) && k < |FactualCandidates(runs)|
    requires GoodCandidate(rules, FactualCandidates(runs)[k])
    requires rules.isUuid(runs[0].runId) && rules.isUuid(runs[1].runId)
    ensures |Rows(runs, a.matchTruth)| == |FactualCandidates(runs)|
    ensures GoodRow(rules, Rows(runs, a.matchTruth)[k])
    ensures Rows(runs, a.matchTruth)[k].runId == if k < |runs[0].candidates| then runs[0].runId else runs[1].runId
  {
    RowIsAudit(runs, a.matchTruth, k);
    hide Rows, TruthOf, GoodCatalogIds, HasInitialDecisions;
    var t := TruthOf(a.matchTruth, FactualCandidates(runs)[k].candidateId);
    assert t in a.matchTruth;
  }

  lemma FactualCandidateIsGood(rules: Rules, runs: seq<PersistedRun>, databaseSchemaVersion: string, k: nat)
    requires |runs| == 3 && PersistedWell(rules, runs, databaseSchemaVersion) && k < |FactualCandidates(runs)|
    ensures GoodCandidate(rules, FactualCandidates(runs)[k])
  {
    hide GoodCandidate;
    assert runs[0] in runs && runs[1] in runs;
    var c := FactualCandidates(runs)[k];
    if k < |runs[0].candidates| {
      assert c in runs[0].candidates;
    } else {
      assert c == runs[1].candidates[k - |runs[0].candidates|];
      assert c in runs[1].candidates;
    }
  }

  lemma AuditCount(run: PersistedRun, truth: seq<Truth>, runId: string)
    requires HasInitialDecisions(run.candidates)
    requires forall k | 0 <= k < |run.candidates| :: run.candidates[k].candidateId in TruthIds(truth)
    ensures CountTrue(Audit(run, truth), OfRun(runId)) == if run.runId == runId then |run.candidates| else 0
  {
    hide CountTrue, TruthOf;
    var rows := Audit(run, truth);
    forall row | row in rows ensures OfRun(runId)(row) == (run.runId == runId) {
      var k :| 0 <= k < |rows| && rows[k] == row;
    }
    if run.runId != runId {
      CountNone(rows, OfRun(runId));
    }
  }

  /** Rows per run: a shared run id would add both runs' candidates together. */
  lemma RowCounts(runs: seq<PersistedRun>, truth: seq<Truth>, runId: string)
    requires |runs| == 3 && HasInitialDecisions(FactualCandidates(runs)) && TruthCovers(truth, FactualCandidates(runs))
    ensures CountTrue(Rows(runs, truth), OfRun(runId)) ==
      (if runs[0].runId == runId then |runs[0].candidates| else 0) + (if runs[1].runId == runId then |runs[1].candidates| else 0)
  {
    hide CountTrue, Audit;
    FactualParts(runs, truth);
    AuditCount(runs[0], truth, runId);
    AuditCount(runs[1], truth, runId);
    CountAppend(Audit(runs[0], truth), Audit(runs[1], truth), OfRun(runId));
  }

  lemma RowsAreGood(rules: Rules, runs: seq<PersistedRun>, a: Attestation, databaseSchemaVersion: string)
    requires |runs| == 3 && HasInitialDecisions(FactualCandidates(runs)) && TruthCovers(a.matchTruth, FactualCandidates(runs))
    requires ParsedAttestation(rules, a) && PersistedWell(rules, runs, databaseSchemaVersion)
    requires rules.isUuid(runs[0].runId) && rules.isUuid(runs[1].runId)
    ensures forall row | row in Rows(runs, a.matchTruth) ::
      GoodRow(rules, row) && (row.runId == runs[0].runId || row.runId == runs[1].runId)
  {
    hide GoodRow, Rows, ParsedAttestation, PersistedWell, HasInitialDecisions, TruthCovers, FactualCandidates, GoodCandidate;
    SameLength(runs, a.matchTruth);
    forall row | row in Rows(runs, a.matchTruth)
      ensures GoodRow(rules, row) && (row.runId == runs[0].runId || row.runId == runs[1].runId)
    {
      var k :| 0 <= k < |Rows(runs, a.matchTruth)| && Rows(runs, a.matchTruth)[k] == row;
      FactualCandidateIsGood(rules, runs, databaseSchemaVersion, k);
      RowIsGood(rules, runs, a, k);
    }
  }

  lemma MatchingNeedsCounts(rules: Rules, exported: seq<ExportedRun>, rows: seq<AuditRow>)
    requires |exported| == 3
    requires forall row | row in rows :: GoodRow(rules, row) && (row.runId == exported[0].runId || row.runId == exported[1].runId)
    ensures GoodMatching(rules, exported, rows) <==>
      (&& Distinct(RowIds(rows))
       && CountTrue(rows, OfRun(exported[1].runId)) == exported[1].candidateCount > 0
       && CountTrue(rows, OfRun(exported[0].runId)) == FactualRunCounts(exported)[exported[0].runId] > 0)
  {
    hide GoodRow, CountTrue, Distinct;
    assert forall runId :: runId in FactualRunCounts(exported) <==> runId == exported[0].runId || runId == exported[1].runId;
  }

  /** The row checks hold exactly when the factual runs are apart. */
  lemma MatchingVerifiesWhenApart(rules: Rules, runs: seq<PersistedRun>, a: Attestation, databaseSchemaVersion: string,
                                  exported: seq<ExportedRun>)
    requires |runs| == 3 && HasInitialDecisions(FactualCandidates(runs)) && TruthCovers(a.matchTruth, FactualCandidates(runs))
    requires ParsedAttestation(rules, a) && PersistedWell(rules, runs, databaseSchemaVersion)
    requires rules.isUuid(runs[0].runId) && rules.isUuid(runs[1].runId) && |runs[0].candidates| > 0 && |runs[1].candidates| > 0
    requires |exported| == 3 && forall i | 0 <= i < 2 :: exported[i].runId == runs[i].runId && exported[i].candidateCount == |runs[i].candidates|
    ensures GoodMatching(rules, exported, Rows(runs, a.matchTruth)) <==> FactualApart(runs)
  {
    hide GoodRow, GoodMatching, Rows, CountTrue, Distinct, ParsedAttestation, PersistedWell, HasInitialDecisions, TruthCovers,
      FactualCandidates;
    RowsAreGood(rules, runs, a, databaseSchemaVersion);
    MatchingNeedsCounts(rules, exported, Rows(runs, a.matchTruth));
    RowIdsAreCandidateIds(runs, a.matchTruth);
    RowCounts(runs, a.matchTruth, runs[0].runId);
    RowCounts(runs, a.matchTruth, runs[1].runId);
  }

  lemma TracksAreGood(rules: Rules, candidates: seq<Candidate>)
    requires forall c | c in candidates :: GoodCandidate(rules, c)
    ensures GoodTracks(rules, FactualTracks(candidates)) && |FactualTracks(candidates)| <= |candidates|
    ensures GoodTracks(rules, CuratedTracks(candidates)) && |CuratedTracks(candidates)| == |Filter(candidates, InManifest())|
  {
    var cited, placed := Filter(candidates, HasFactualCitation()), ByPosition(candidates);
    SortKeepsMembers(Filter(candidates, InManifest()), PositionKey());
    hide Filter, SortBy;
    assert forall k | 0 <= k < |cited| :: cited[k] in cited;
    assert forall k | 0 <= k < |placed| :: placed[k] in placed;
  }

  lemma AllThree<T>(s: seq<T>)
    requires |s| == 3
    ensures s == [s[0], s[1], s[2]]
  {
  }

  /** The export of a bound run carries its binding. */
  lemma ExportCarriesBinding(rules: Rules, expected: Binding, run: PersistedRun)
    requires BindingHolds(rules, expected, run)
    ensures BindingOf(ExportRun(rules, run)) == expected && |run.candidates| > 0
    ensures ExportRun(rules, run).runId == run.runId == expected.runId && ExportRun(rules, run).candidateCount == |run.candidates|
  {
    hide ContiguousPositions;
  }

  /** The attestation rebuilt from the artifact is the attested one, but for the order of the match truth. */
  lemma AttestationReadBack(rules: Rules, generatedAt: string, databaseSchemaVersion: string, fixtureVersion: string, a: Attestation,
                            runs: seq<PersistedRun>)
    requires var built := Build(rules, generatedAt, databaseSchemaVersion, fixtureVersion, a, runs); built.Ok?
    ensures var content := Build(rules, generatedAt, databaseSchemaVersion, fixtureVersion, a, runs).value.content;
      |content.runs| == 3 && content.matching == Rows(runs, a.matchTruth)
      && Reconstructed(content) == a.(matchTruth := TruthsOf(Rows(runs, a.matchTruth)))
  {
    hide BindingHolds, CanBuild, Audit, FactualTracks, CuratedTracks, TruthsOf, AttestationHash, HasInitialDecisions, TruthCovers,
      FactualCandidates, ExportRun, BindingOf;
    CanBuildMeans(rules, generatedAt, fixtureVersion, a, runs);
    ExportCarriesBinding(rules, a.runs[0], runs[0]);
    ExportCarriesBinding(rules, a.runs[1], runs[1]);
    ExportCarriesBinding(rules, a.runs[2], runs[2]);
    AllThree(a.runs);
  }

  lemma HashReadBack(rules: Rules, a: Attestation, back: seq<Truth>)
    requires SoundRules(rules) && Distinct(TruthIds(a.matchTruth)) && multiset(back) == multiset(a.matchTruth)
    requires forall t | t in a.matchTruth :: rules.isUuid(t.candidateId)
    ensures AttestationHash(rules, a.(matchTruth := back)) == AttestationHash(rules, a)
  {
    SameContents(back, a.matchTruth);
    IdsApart(rules, a.matchTruth);
    forall i, j | 0 <= i < j < |back| ensures TruthKey(rules)(back[i]) != TruthKey(rules)(back[j]) {
      BackApart(a.matchTruth, back, i, j);
    }
    hide SortBy;
    SortForgetsOrder(back, a.matchTruth, TruthKey(rules));
  }

  lemma IdsApart(rules: Rules, truth: seq<Truth>)
    requires SoundRules(rules) && Distinct(TruthIds(truth)) && forall t | t in truth :: rules.isUuid(t.candidateId)
    ensures KeysApart(truth, TruthKey(rules))
  {
    forall i, j | 0 <= i < j < |truth| ensures TruthKey(rules)(truth[i]) != TruthKey(rules)(truth[j]) {
      assert TruthIds(truth)[i] != TruthIds(truth)[j];
    }
  }

  lemma BackApart(truth: seq<Truth>, back: seq<Truth>, i: nat, j: nat)
    requires Distinct(TruthIds(truth)) && multiset(back) == multiset(truth) && i < j < |back|
    ensures back[i].candidateId != back[j].candidateId
  {
    forall k, l | 0 <= k < l < |truth| ensures truth[k] != truth[l] {
      assert TruthIds(truth)[k] != TruthIds(truth)[l];
    }
    SameContents(back, truth);
    assert back[i] in truth && back[j] in truth;
    if back[i].candidateId == back[j].candidateId {
      OneTruthPerId(truth, back[i], back[j]);
      assert false;
    }
  }

  lemma ExportedRunIsGood(rules: Rules, expected: Binding, run: PersistedRun)
    requires BindingHolds(rules, expected, run) && rules.isDigest(run.briefHash) && rules.isTimestamp(run.manifestLockedAt)
    requires rules.isUuid(expected.runId) && rules.isUuid(expected.manifestId)
    requires rules.isDigest(expected.manifestContentHash) && rules.isDigest(expected.matchSnapshotHash)
    ensures GoodRun(rules, ExportRun(rules, run), run.benchmark)
  {
    hide ContiguousPositions;
  }

  lemma ExportedPartsAreGood(rules: Rules, generatedAt: string, databaseSchemaVersion: string, fixtureVersion: string, a: Attestation,
                             runs: seq<PersistedRun>)
    requires ParsedAttestation(rules, a) && PersistedWell(rules, runs, databaseSchemaVersion)
    requires CanBuild(rules, generatedAt, fixtureVersion, a, runs)
    ensures forall i | 0 <= i < 3 :: GoodRun(rules, ExportRun(rules, runs[i]), NAMES[i])
    ensures forall i | 0 <= i < 3 ::
      GoodTracks(rules, FactualTracks(runs[i].candidates)) && |FactualTracks(runs[i].candidates)| <= |runs[i].candidates|
    ensures forall i | 0 <= i < 3 ::
      (GoodTracks(rules, CuratedTracks(runs[i].candidates))
       && |CuratedTracks(runs[i].candidates)| == |Filter(runs[i].candidates, InManifest())|)
  {
    hide BindingHolds, GoodCandidate, GoodTracks, FactualTracks, CuratedTracks, ExportRun, GoodRun, HasInitialDecisions, TruthCovers,
      GoodRatings, GoodRationales;
    forall i | 0 <= i < 3
      ensures GoodRun(rules, ExportRun(rules, runs[i]), NAMES[i])
      ensures GoodTracks(rules, FactualTracks(runs[i].candidates)) && |FactualTracks(runs[i].candidates)| <= |runs[i].candidates|
      ensures GoodTracks(rules, CuratedTracks(runs[i].candidates))
           && |CuratedTracks(runs[i].candidates)| == |Filter(runs[i].candidates, InManifest())|
    {
      assert runs[i] in runs;
      ExportedRunIsGood(rules, a.runs[i], runs[i]);
      TracksAreGood(rules, runs[i].candidates);
    }
  }

  /** Everything but the rows and the attestation hash. */
  lemma OtherPartsVerify(rules: Rules, generatedAt: string, databaseSchemaVersion: string, fixtureVersion: string, a: Attestation,
                         runs: seq<PersistedRun>)
    requires SoundRules(rules) && ParsedAttestation(rules, a) && PersistedWell(rules, runs, databaseSchemaVersion)
    requires Build(rules, generatedAt, databaseSchemaVersion, fixtureVersion, a, runs).Ok?
    ensures var artifact := Build(rules, generatedAt, databaseSchemaVersion, fixtureVersion, a, runs).value;
      Verified(rules, artifact, fixtureVersion) <==>
        (&& |artifact.content.runs| == 3
         && GoodMatching(rules, artifact.content.runs, artifact.content.matching)
         && artifact.content.attestationHash == AttestationHash(rules, Reconstructed(artifact.content)))
  {
    hide Verified, CanBuild, ParsedAttestation, PersistedWell, Reconstructed, AttestationHash, GoodMatching, HeaderVerifies,
      TracksVerify, GoodRun;
    BuiltHeader(rules, generatedAt, databaseSchemaVersion, fixtureVersion, a, runs);
    BuiltTracks(rules, generatedAt, databaseSchemaVersion, fixtureVersion, a, runs);
    VerifiedParts(rules, Build(rules, generatedAt, databaseSchemaVersion, fixtureVersion, a, runs).value, fixtureVersion);
  }

  ghost predicate HeaderVerifies(rules: Rules, artifact: Artifact, fixtureVersion: string) {
    var c := artifact.content;
    && c.fixtureVersion == fixtureVersion && rules.isTimestamp(c.generatedAt)
    && rules.isDigest(artifact.artifactHash) && artifact.artifactHash == rules.contentHash(c)
    && rules.isText(c.attestedBy, 200) && rules.isTimestamp(c.attestedAt) && rules.isDigest(c.attestationHash)
    && GoodRationales(rules, c.rationales) && rules.isText(c.databaseSchemaVersion, 40) && GoodRatings(c.ratings)
  }

  ghost predicate TracksVerify(rules: Rules, c: Content) {
    && |c.runs| == 3 && GoodRun(rules, c.runs[0], NAMES[0]) && GoodRun(rules, c.runs[1], NAMES[1]) && GoodRun(rules, c.runs[2], NAMES[2])
    && |c.holdouts| == 2 && GoodTracks(rules, c.holdouts[0]) && GoodTracks(rules, c.holdouts[1])
    && |c.holdouts[0]| <= c.runs[0].candidateCount && |c.holdouts[1]| <= c.runs[1].candidateCount
    && GoodTracks(rules, c.curatedTracks) && |c.curatedTracks| == c.runs[2].manifestTrackCount
  }

  lemma VerifiedParts(rules: Rules, artifact: Artifact, fixtureVersion: string)
    ensures Verified(rules, artifact, fixtureVersion) <==>
      (&& HeaderVerifies(rules, artifact, fixtureVersion) && TracksVerify(rules, artifact.content)
       && |artifact.content.runs| == 3
       && GoodMatching(rules, artifact.content.runs, artifact.content.matching)
       && artifact.content.attestationHash == AttestationHash(rules, Reconstructed(artifact.content)))
  {
    hide GoodRun, GoodTracks, GoodMatching, AttestationHash, Reconstructed, GoodRationales, GoodRatings;
  }

  lemma BuiltHeader(rules: Rules, generatedAt: string, databaseSchemaVersion: string, fixtureVersion: string, a: Attestation,
                    runs: seq<PersistedRun>)
    requires SoundRules(rules) && ParsedAttestation(rules, a) && PersistedWell(rules, runs, databaseSchemaVersion)
    requires Build(rules, generatedAt, databaseSchemaVersion, fixtureVersion, a, runs).Ok?
    ensures HeaderVerifies(rules, Build(rules, generatedAt, databaseSchemaVersion, fixtureVersion, a, runs).value, fixtureVersion)
  {
    hide BindingHolds, Audit, FactualTracks, CuratedTracks, GoodRationales, GoodRatings, HasInitialDecisions, TruthCovers, ExportRun;
  }

  lemma BuiltTracks(rules: Rules, generatedAt: string, databaseSchemaVersion: string, fixtureVersion: string, a: Attestation,
                    runs: seq<PersistedRun>)
    requires ParsedAttestation(rules, a) && PersistedWell(rules, runs, databaseSchemaVersion)
    requires Build(rules, generatedAt, databaseSchemaVersion, fixtureVersion, a, runs).Ok?
    ensures TracksVerify(rules, Build(rules, generatedAt, databaseSchemaVersion, fixtureVersion, a, runs).value.content)
  {
    ExportedPartsAreGood(rules, generatedAt, databaseSchemaVersion, fixtureVersion, a, runs);
    hide BindingHolds, Audit, FactualTracks, CuratedTracks, GoodTracks, GoodRun, HasInitialDecisions, TruthCovers, ParsedAttestation,
      PersistedWell, AttestationHash;
  }

  /** Round trip: what was built verifies exactly when the factual runs are apart, and then the attestation reads back. */
  lemma ExportRoundTrip(rules: Rules, generatedAt: string, databaseSchemaVersion: string, fixtureVersion: string, a: Attestation,
                        runs: seq<PersistedRun>)
    requires SoundRules(rules) && ParsedAttestation(rules, a) && PersistedWell(rules, runs, databaseSchemaVersion)
    requires Build(rules, generatedAt, databaseSchemaVersion, fixtureVersion, a, runs).Ok?
    ensures |runs| == 3
    ensures var artifact := Build(rules, generatedAt, databaseSchemaVersion, fixtureVersion, a, runs).value;
      && (Verified(rules, artifact, fixtureVersion) <==> FactualApart(runs))
      && |artifact.content.runs| == 3
      && var back := Reconstructed(artifact.content);
         (FactualApart(runs) ==> back == a.(matchTruth := back.matchTruth) && multiset(back.matchTruth) == multiset(a.matchTruth))
  {
    BuiltFacts(rules, generatedAt, databaseSchemaVersion, fixtureVersion, a, runs);
    AttestationReadBack(rules, generatedAt, databaseSchemaVersion, fixtureVersion, a, runs);
    OtherPartsVerify(rules, generatedAt, databaseSchemaVersion, fixtureVersion, a, runs);
    var artifact := Build(rules, generatedAt, databaseSchemaVersion, fixtureVersion, a, runs).value;
    MatchingVerifiesWhenApart(rules, runs, a, databaseSchemaVersion, artifact.content.runs);
    hide Build, Verified, GoodMatching, Reconstructed, AttestationHash, Rows, CanBuild, PersistedWell;
    if FactualApart(runs) {
      TruthReadBack(runs, a.matchTruth);
      HashReadBack(rules, a, TruthsOf(Rows(runs, a.matchTruth)));
    }
  }

  lemma RunIdsAreUuids(rules: Rules, a: Attestation)
    requires ParsedAttestation(rules, a)
    ensures |a.runs| == 3 && rules.isUuid(a.runs[0].runId) && rules.isUuid(a.runs[1].runId)
  {
    hide GoodCatalogIds, GoodRatings, GoodRationales;
  }

  lemma BuiltFacts(rules: Rules, generatedAt: string, databaseSchemaVersion: string, fixtureVersion: string, a: Attestation,
                   runs: seq<PersistedRun>)
    requires ParsedAttestation(rules, a)
    requires Build(rules, generatedAt, databaseSchemaVersion, fixtureVersion, a, runs).Ok?
    ensures |runs| == 3 && HasInitialDecisions(FactualCandidates(runs)) && TruthCovers(a.matchTruth, FactualCandidates(runs))
    ensures rules.isUuid(runs[0].runId) && rules.isUuid(runs[1].runId) && |runs[0].candidates| > 0 && |runs[1].candidates| > 0
    ensures var content := Build(rules, generatedAt, databaseSchemaVersion, fixtureVersion, a, runs).value.content;
      && |content.runs| == 3 && content.attestationHash == AttestationHash(rules, a)
      && forall i | 0 <= i < 2 :: content.runs[i].runId == runs[i].runId && content.runs[i].candidateCount == |runs[i].candidates|
  {
    hide BindingHolds, CanBuild, Audit, FactualTracks, CuratedTracks, AttestationHash, HasInitialDecisions, TruthCovers, FactualCandidates,
      ParsedAttestation, ExportRun;
    RunIdsAreUuids(rules, a);
    CanBuildMeans(rules, generatedAt, fixtureVersion, a, runs);
    ExportCarriesBinding(rules, a.runs[0], runs[0]);
    ExportCarriesBinding(rules, a.runs[1], runs[1]);
  }

  // ---------- an instance ----------

  /** The texts of a small export: two factual runs with one candidate each, and a curated one. */
  datatype Words = Words(
    text: string, digest: Hash, time: string, manifestId: string,
    runIds: (string, string), candidateIds: (string, string), thirdRun: string, otherCandidate: string)

  /** One accepted candidate outside the manifest. */
  function OneCandidate(w: Words, candidateId: string): Candidate {
    Candidate(candidateId, w.text, w.text, w.text, None, Some(w.text), None, Some(w.time), None, [], [], w.text)
  }

  function OneRun(w: Words, name: Name, runId: string, candidateId: string): PersistedRun {
    PersistedRun(name, runId, w.text, "us", w.digest, w.manifestId, w.digest, w.time, [OneCandidate(w, candidateId)])
  }

  function ThreeRuns(w: Words): (r: seq<PersistedRun>)
    ensures |r| == 3
  {
    [OneRun(w, PaulinhoDaCosta, w.runIds.0, w.candidateIds.0), OneRun(w, MichaelJackson, w.runIds.1, w.candidateIds.1),
     OneRun(w, BerlinTechno, w.thirdRun, w.otherCandidate)]
  }

  function TruthAbout(w: Words, candidateId: string): Truth {
    Truth(candidateId, false, [], w.text)
  }

  function TruthOfBoth(w: Words): seq<Truth> {
    if w.candidateIds.0 == w.candidateIds.1 then [TruthAbout(w, w.candidateIds.0)]
    else [TruthAbout(w, w.candidateIds.0), TruthAbout(w, w.candidateIds.1)]
  }

  function OneBinding(rules: Rules, w: Words, run: PersistedRun): Binding {
    Binding(run.runId, w.manifestId, w.digest, rules.snapshotHash(run))
  }

  function OneAttestation(rules: Rules, w: Words): Attestation {
    var runs := ThreeRuns(w);
    Attestation(w.text, w.text, w.time, [OneBinding(rules, w, runs[0]), OneBinding(rules, w, runs[1]), OneBinding(rules, w, runs[2])],
                TruthOfBoth(w), seq(RATING_COUNT, _ => 5.0), seq(RATING_COUNT, _ => w.text))
  }

  /** The rules accept the words: texts of at least forty characters' room, digests, times and ids. */
  ghost predicate Accepts(rules: Rules, w: Words) {
    && w.text != "" && (forall n: nat | n >= 40 :: rules.isText(w.text, n)) && rules.isDigest(w.digest) && rules.isTimestamp(w.time)
    && rules.isUuid(w.manifestId) && rules.isUuid(w.runIds.0) && rules.isUuid(w.runIds.1) && rules.isUuid(w.thirdRun)
    && rules.isUuid(w.candidateIds.0) && rules.isUuid(w.candidateIds.1)
    && (forall run | run in ThreeRuns(w) :: rules.isDigest(rules.snapshotHash(run)))
  }

  lemma OneRunBinds(rules: Rules, w: Words, name: Name, runId: string, candidateId: string)
    requires w.text != ""
    ensures var run := OneRun(w, name, runId, candidateId);
      BindingHolds(rules, OneBinding(rules, w, run), run) && run.benchmark == name
  {
    var run := OneRun(w, name, runId, candidateId);
    assert Filter(run.candidates, InManifest()) == [] by {
      assert run.candidates[..0] == [];
    }
    assert ByPosition(run.candidates) == [];
  }

  lemma TruthOfBothIds(w: Words)
    ensures forall id :: id in TruthIds(TruthOfBoth(w)) <==> id == w.candidateIds.0 || id == w.candidateIds.1
    ensures Distinct(TruthIds(TruthOfBoth(w)))
    ensures forall t | t in TruthOfBoth(w) ::
      (t == TruthAbout(w, t.candidateId) && (t.candidateId == w.candidateIds.0 || t.candidateId == w.candidateIds.1))
  {
    var truth := TruthOfBoth(w);
    assert TruthIds(truth) == if w.candidateIds.0 == w.candidateIds.1 then [w.candidateIds.0] else [w.candidateIds.0, w.candidateIds.1];
  }

  lemma InstanceIsParsed(rules: Rules, w: Words)
    requires Accepts(rules, w)
    ensures ParsedAttestation(rules, OneAttestation(rules, w)) && PersistedWell(rules, ThreeRuns(w), w.text)
  {
    TruthOfBothIds(w);
    hide TruthOfBoth;
    var runs := ThreeRuns(w);
    assert runs[0] in runs && runs[1] in runs && runs[2] in runs;
  }

  lemma InstanceIsCovered(w: Words)
    ensures var candidates := FactualCandidates(ThreeRuns(w));
      && HasInitialDecisions(candidates) && TruthCovers(TruthOfBoth(w), candidates)
      && CandidateIds(candidates) == [w.candidateIds.0, w.candidateIds.1]
  {
    var candidates := FactualCandidates(ThreeRuns(w));
    assert candidates == [OneCandidate(w, w.candidateIds.0), OneCandidate(w, w.candidateIds.1)];
    assert CandidateIds(candidates) == [w.candidateIds.0, w.candidateIds.1];
    TruthOfBothIds(w);
    hide TruthOfBoth;
    var truth := TruthOfBoth(w);
    forall k | 0 <= k < |truth| ensures truth[k].candidateId in CandidateIds(candidates) {
      assert TruthIds(truth)[k] in TruthIds(truth);
    }
  }

  lemma AllowedBuilds(rules: Rules, generatedAt: string, databaseSchemaVersion: string, fixtureVersion: string, a: Attestation,
                      runs: seq<PersistedRun>)
    requires CanBuild(rules, generatedAt, fixtureVersion, a, runs)
    ensures Build(rules, generatedAt, databaseSchemaVersion, fixtureVersion, a, runs).Ok?
  {
    hide CanBuild, Audit, FactualTracks, CuratedTracks, AttestationHash, ExportRun;
  }

  lemma InstanceBuilds(rules: Rules, w: Words)
    requires Accepts(rules, w)
    ensures Build(rules, w.time, w.text, w.text, OneAttestation(rules, w), ThreeRuns(w)).Ok?
  {
    hide BindingHolds, HasInitialDecisions, TruthCovers, TruthOfBoth, FactualCandidates, OneRun, OneBinding, Build;
    OneRunBinds(rules, w, PaulinhoDaCosta, w.runIds.0, w.candidateIds.0);
    OneRunBinds(rules, w, MichaelJackson, w.runIds.1, w.candidateIds.1);
    OneRunBinds(rules, w, BerlinTechno, w.thirdRun, w.otherCandidate);
    InstanceIsCovered(w);
    AllowedBuilds(rules, w.time, w.text, w.text, OneAttestation(rules, w), ThreeRuns(w));
  }

  lemma InstanceIsApart(w: Words)
    ensures FactualApart(ThreeRuns(w)) <==> w.runIds.0 != w.runIds.1 && w.candidateIds.0 != w.candidateIds.1
  {
    InstanceIsCovered(w);
    hide FactualCandidates, TruthCovers, HasInitialDecisions, TruthOfBoth, CandidateIds;
    var ids := [w.candidateIds.0, w.candidateIds.1];
    assert Distinct(ids) <==> ids[0] != ids[1];
  }

  /** Under any sound rules: building accepts factual runs that share a run id or a candidate; verification then refuses what was built. */
  lemma BuildAcceptsSharedRuns(rules: Rules, w: Words)
    requires SoundRules(rules) && Accepts(rules, w)
    ensures var a, runs := OneAttestation(rules, w), ThreeRuns(w);
      && ParsedAttestation(rules, a) && PersistedWell(rules, runs, w.text)
      && Build(rules, w.time, w.text, w.text, a, runs).Ok?
      && (Verified(rules, Build(rules, w.time, w.text, w.text, a, runs).value, w.text)
          <==> w.runIds.0 != w.runIds.1 && w.candidateIds.0 != w.candidateIds.1)
  {
    InstanceIsParsed(rules, w);
    InstanceBuilds(rules, w);
    hide SoundRules, Accepts, ParsedAttestation, PersistedWell, Build, Verified, Reconstructed, OneAttestation, CandidateIds,
         FactualCandidates, TruthCovers, HasInitialDecisions, TruthOfBoth, FactualApart;
    ExportRoundTrip(rules, w.time, w.text, w.text, OneAttestation(rules, w), ThreeRuns(w));
    InstanceIsApart(w);
  }

  /** Rules that accept every text, and compare ids by their characters. */
  function PlainRules(): Rules {
    Rules(_ => "h", _ => "h", _ => "h", (id: string) => seq(|id|, i requires 0 <= i < |id| => id[i] as int),
          _ => true, _ => true, _ => true, (_, _) => true, _ => true)
  }

  /** Such rules exist. */
  lemma SoundRulesExist(w: Words)
    requires w.text != ""
    ensures SoundRules(PlainRules()) && Accepts(PlainRules(), w)
  {
    var rules := PlainRules();
    forall x, y | rules.collation(x) == rules.collation(y) ensures x == y {
      assert |x| == |rules.collation(x)| == |y|;
      forall i | 0 <= i < |x| ensures x[i] == y[i] {
        assert rules.collation(x)[i] == x[i] as int && rules.collation(y)[i] == y[i] as int;
      }
    }
  }
}
