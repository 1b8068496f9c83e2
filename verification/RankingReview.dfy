/** The blinded ranking review: five documents that must bind to each other, and the verdict over paired scores. */
module RankingReview {
  import opened Collections
  import opened Medians

  type Hash = string

  // ---------- documents, as their validators leave them ----------

  /** An entry of a document's list, found by its identifier. */
  datatype Named<+T> = Named(id: string, body: T)

  datatype Identity = Identity(orderedManifestHash: Hash, outputHash: Hash)

  datatype Scores = Scores(relevance: real, discoveryQuality: real, coherence: real, sequencing: real)

  datatype Output = Output(identity: Identity, scores: Scores)

  datatype Labels = Labels(baseline: string, candidate: string)

  datatype Pair = Pair(baseline: Output, candidate: Output)

  datatype Candidate = Candidate(sourceRevision: string, imageDigest: string)

  datatype Release = Release(stableTag: string, version: string, sourceRevision: string, imageDigest: string, finalizationHash: Hash)

  datatype BaselineIdentity = BaselineIdentity(release: Release, metadataHash: Hash)

  /** Arms are named by their blind labels. */
  type Arms<T> = seq<Named<T>>

  datatype ProtectedBaseline = ProtectedBaseline(release: Release, fixtures: seq<Named<Identity>>)
  datatype BlindedPackage = BlindedPackage(randomizationId: string, fixtures: seq<Named<Arms<Identity>>>)
  datatype Scorecard = Scorecard(blindedPackageHash: Hash, reviewedAt: string, fixtures: seq<Named<Arms<Output>>>)
  datatype Mapping = Mapping(blindedPackageHash: Hash, baselineMetadataHash: Hash, candidate: Candidate, fixtures: seq<Named<Labels>>)
  datatype Artifact = Artifact(
    candidate: Candidate, baseline: BaselineIdentity, blindedPackageHash: Hash, blindMappingHash: Hash, reviewedAt: string,
    pairs: seq<Named<Pair>>)

  /** The hash of each kind of content. */
  datatype Hashes = Hashes(
    metadata: ProtectedBaseline -> Hash, package: BlindedPackage -> Hash, mapping: Mapping -> Hash,
    baseline: BaselineIdentity -> Hash, candidate: Candidate -> Hash, scores: Scores -> Hash)

  const MINIMUM_FIXTURES := 3

  predicate DistinctIds<T>(s: seq<Named<T>>) {
    forall i | 0 <= i < |s| :: forall j | i < j < |s| :: s[i].id != s[j].id
  }

  /** new Map(...).get(id): the last entry with the identifier. */
  function Lookup<T>(s: seq<Named<T>>, id: string): (r: Option<T>)
    ensures r.Some? ==> Named(id, r.value) in s
    ensures r.None? ==> forall x | x in s :: x.id != id
  {
    if |s| == 0 then None
    else
      assert s == s[..|s| - 1] + [s[|s| - 1]];
      if s[|s| - 1].id == id then Some(s[|s| - 1].body) else Lookup(s[..|s| - 1], id)
  }

  function Ids<T>(s: seq<Named<T>>): set<string> {
    set i | 0 <= i < |s| :: s[i].id
  }

  predicate IsScore(x: real) {
    1.0 <= x <= 5.0
  }

  predicate AreScores(s: Scores) {
    IsScore(s.relevance) && IsScore(s.discoveryQuality) && IsScore(s.coherence) && IsScore(s.sequencing)
  }

  predicate TwoArms<T>(fixtures: seq<Named<Arms<T>>>) {
    forall i | 0 <= i < |fixtures| :: |fixtures[i].body| == 2 && DistinctIds(fixtures[i].body)
  }

  predicate ArmsApart<T>(fixtures: seq<Named<Arms<T>>>) {
    forall i | 0 <= i < |fixtures| :: forall j | i < j < |fixtures| :: Ids(fixtures[i].body) !! Ids(fixtures[j].body)
  }

  predicate ValidFixtures<T>(fixtures: seq<Named<T>>) {
    |fixtures| >= MINIMUM_FIXTURES && DistinctIds(fixtures)
  }

  predicate ValidPackage(p: BlindedPackage) {
    ValidFixtures(p.fixtures) && TwoArms(p.fixtures) && ArmsApart(p.fixtures)
  }

  predicate ValidScorecard(c: Scorecard) {
    && ValidFixtures(c.fixtures) && TwoArms(c.fixtures) && ArmsApart(c.fixtures)
    && forall i | 0 <= i < |c.fixtures| :: forall j | 0 <= j < |c.fixtures[i].body| :: AreScores(c.fixtures[i].body[j].body.scores)
  }

  predicate ValidMapping(m: Mapping) {
    && ValidFixtures(m.fixtures)
    && (forall i | 0 <= i < |m.fixtures| :: m.fixtures[i].body.baseline != m.fixtures[i].body.candidate)
    && forall i | 0 <= i < |m.fixtures| :: forall j | i < j < |m.fixtures| ::
         {m.fixtures[i].body.baseline, m.fixtures[i].body.candidate} !! {m.fixtures[j].body.baseline, m.fixtures[j].body.candidate}
  }

  predicate ValidArtifact(a: Artifact) {
    && ValidFixtures(a.pairs)
    && a.candidate.sourceRevision != a.baseline.release.sourceRevision
    && a.candidate.imageDigest != a.baseline.release.imageDigest
    && forall i | 0 <= i < |a.pairs| :: AreScores(a.pairs[i].body.baseline.scores) && AreScores(a.pairs[i].body.candidate.scores)
  }

  // ---------- bindings ----------

  /** Every scored arm is an arm of the package, with the same output. */
  predicate ScorecardBinds(hashes: Hashes, c: Scorecard, p: BlindedPackage) {
    && ValidScorecard(c) && ValidPackage(p)
    && c.blindedPackageHash == hashes.package(p) && |c.fixtures| == |p.fixtures|
    && forall i | 0 <= i < |c.fixtures| ::
         var packaged := Lookup(p.fixtures, c.fixtures[i].id);
         && packaged.Some?
         && forall j | 0 <= j < |c.fixtures[i].body| ::
              Lookup(packaged.value, c.fixtures[i].body[j].id) == Some(c.fixtures[i].body[j].body.identity)
  }

  datatype Bundle = Bundle(artifact: Artifact, baseline: ProtectedBaseline, package: BlindedPackage, scorecard: Scorecard, mapping: Mapping)

  predicate HeadersBind(hashes: Hashes, b: Bundle, approvedMetadataHash: Hash, expected: Candidate) {
    var metadataHash, packageHash := hashes.metadata(b.baseline), hashes.package(b.package);
    && metadataHash == approvedMetadataHash
    && hashes.baseline(b.artifact.baseline) == hashes.baseline(BaselineIdentity(b.baseline.release, metadataHash))
    && hashes.candidate(b.artifact.candidate) == hashes.candidate(expected)
    && b.artifact.blindedPackageHash == packageHash
    && b.artifact.blindMappingHash == hashes.mapping(b.mapping)
    && b.mapping.blindedPackageHash == packageHash
    && b.scorecard.blindedPackageHash == packageHash
    && b.artifact.reviewedAt == b.scorecard.reviewedAt
    && b.mapping.baselineMetadataHash == metadataHash
    && hashes.candidate(b.mapping.candidate) == hashes.candidate(expected)
  }

  /** One pair against the four other documents. */
  predicate PairBinds(hashes: Hashes, b: Bundle, id: string, pair: Pair) {
    var baseline, packaged := Lookup(b.baseline.fixtures, id), Lookup(b.package.fixtures, id);
    var mapped, scored := Lookup(b.mapping.fixtures, id), Lookup(b.scorecard.fixtures, id);
    && baseline.Some? && packaged.Some? && mapped.Some? && scored.Some?
    && (var mappedBaseline := Lookup(packaged.value, mapped.value.baseline);
        var mappedCandidate := Lookup(packaged.value, mapped.value.candidate);
        var scoredBaseline := Lookup(scored.value, mapped.value.baseline);
        var scoredCandidate := Lookup(scored.value, mapped.value.candidate);
        && mappedBaseline.Some? && mappedCandidate.Some? && scoredBaseline.Some? && scoredCandidate.Some?
        && mapped.value.baseline != mapped.value.candidate
        && pair.baseline.identity == baseline.value
        && pair.baseline.identity == mappedBaseline.value
        && pair.candidate.identity == mappedCandidate.value
        && hashes.scores(pair.baseline.scores) == hashes.scores(scoredBaseline.value.scores)
        && hashes.scores(pair.candidate.scores) == hashes.scores(scoredCandidate.value.scores))
  }

  predicate Accepted(hashes: Hashes, b: Bundle, approvedMetadataHash: Hash, expected: Candidate) {
    && ValidArtifact(b.artifact) && ValidFixtures(b.baseline.fixtures) && ValidMapping(b.mapping)
    && ScorecardBinds(hashes, b.scorecard, b.package)
    && HeadersBind(hashes, b, approvedMetadataHash, expected)
    && |b.artifact.pairs| == |b.baseline.fixtures| == |b.package.fixtures|
    && |b.artifact.pairs| == |b.scorecard.fixtures| == |b.mapping.fixtures|
    && forall i | 0 <= i < |b.artifact.pairs| :: PairBinds(hashes, b, b.artifact.pairs[i].id, b.artifact.pairs[i].body)
  }

  /** Scores that some pair of the artifact or some arm of the scorecard shows. */
  ghost predicate Shown(b: Bundle, s: Scores) {
    || (exists i :: 0 <= i < |b.artifact.pairs|
          && (b.artifact.pairs[i].body.baseline.scores == s || b.artifact.pairs[i].body.candidate.scores == s))
    || ShownInScorecard(b.scorecard, s)
  }

  ghost predicate ShownInScorecard(c: Scorecard, s: Scores) {
    exists fixture, arm :: fixture in c.fixtures && arm in fixture.body && arm.body.scores == s
  }

  /** No two scores that the documents show collide. */
  ghost predicate NoCollision(hashes: Hashes, b: Bundle) {
    forall x, y :: Shown(b, x) && Shown(b, y) && hashes.scores(x) == hashes.scores(y) ==> x == y
  }

  // ---------- pigeonhole ----------

  lemma LookupMember<T>(s: seq<Named<T>>, id: string)
    ensures Lookup(s, id).Some? <==> id in Ids(s)
  {
    var found := Lookup(s, id);
    if found.Some? {
      var i :| 0 <= i < |s| && s[i] == Named(id, found.value);
    }
    hide Lookup;
    assert forall i | 0 <= i < |s| :: s[i] in s;
  }

  lemma {:induction false} IdsCount<T>(s: seq<Named<T>>)
    requires DistinctIds(s)
    ensures |Ids(s)| == |s|
  {
    if |s| > 0 {
      var before, last := s[..|s| - 1], s[|s| - 1];
      IdsCount(before);
      assert s == before + [last];
      GrowByOne(Ids(before), last.id, Ids(s), true);
    }
  }

  /** Lists of equal length with distinct identifiers, one within the other, have the same identifiers. */
  lemma SameIds<A, B>(a: seq<Named<A>>, b: seq<Named<B>>)
    requires DistinctIds(a) && DistinctIds(b) && |a| == |b|
    requires forall i | 0 <= i < |a| :: Lookup(b, a[i].id).Some?
    ensures Ids(a) == Ids(b)
  {
    IdsCount(a);
    IdsCount(b);
    forall id | id in Ids(a) ensures id in Ids(b) {
      var i :| 0 <= i < |a| && a[i].id == id;
      assert Named(id, Lookup(b, id).value) in b;
    }
    SubsetCardinality(Ids(a), Ids(b));
  }

  // ---------- what acceptance means ----------

  /** Accepted documents cover exactly the same fixtures. */
  lemma AcceptedFixturesAgree(hashes: Hashes, b: Bundle, approvedMetadataHash: Hash, expected: Candidate)
    requires Accepted(hashes, b, approvedMetadataHash, expected)
    ensures Ids(b.artifact.pairs) == Ids(b.baseline.fixtures) == Ids(b.package.fixtures)
    ensures Ids(b.artifact.pairs) == Ids(b.scorecard.fixtures) == Ids(b.mapping.fixtures)
  {
    hide HeadersBind, Lookup;
    forall i | 0 <= i < |b.artifact.pairs|
      ensures Lookup(b.baseline.fixtures, b.artifact.pairs[i].id).Some? && Lookup(b.package.fixtures, b.artifact.pairs[i].id).Some?
      ensures Lookup(b.scorecard.fixtures, b.artifact.pairs[i].id).Some? && Lookup(b.mapping.fixtures, b.artifact.pairs[i].id).Some?
    {
      assert PairBinds(hashes, b, b.artifact.pairs[i].id, b.artifact.pairs[i].body);
    }
    hide PairBinds;
    SameIds(b.artifact.pairs, b.baseline.fixtures);
    SameIds(b.artifact.pairs, b.package.fixtures);
    SameIds(b.artifact.pairs, b.scorecard.fixtures);
    SameIds(b.artifact.pairs, b.mapping.fixtures);
  }

  /** Two different labels among two arms name them both. */
  lemma LabelsAreArms<T>(arms: Arms<T>, x: string, y: string)
    requires |arms| == 2 && x != y && Lookup(arms, x).Some? && Lookup(arms, y).Some?
    ensures Ids(arms) == {x, y}
  {
    assert Named(x, Lookup(arms, x).value) in arms && Named(y, Lookup(arms, y).value) in arms;
    assert forall a | a in arms :: a == arms[0] || a == arms[1];
    assert arms[0] in arms && arms[1] in arms;
  }

  /** The two scored outputs that a fixture's labels point to. */
  function PairOf(scorecard: Scorecard, mapping: Mapping, id: string): Option<Pair> {
    var mapped, scored := Lookup(mapping.fixtures, id), Lookup(scorecard.fixtures, id);
    if mapped.None? || scored.None? then None
    else
      var baseline, candidate := Lookup(scored.value, mapped.value.baseline), Lookup(scored.value, mapped.value.candidate);
      if baseline.None? || candidate.None? then None else Some(Pair(baseline.value, candidate.value))
  }

  lemma ScoredArm(hashes: Hashes, c: Scorecard, p: BlindedPackage, id: string, arm: string)
    requires ScorecardBinds(hashes, c, p)
    requires Lookup(c.fixtures, id).Some? && Lookup(Lookup(c.fixtures, id).value, arm).Some?
    ensures Lookup(p.fixtures, id).Some?
    ensures Lookup(Lookup(p.fixtures, id).value, arm) == Some(Lookup(Lookup(c.fixtures, id).value, arm).value.identity)
  {
    hide ValidScorecard, ValidPackage, Lookup;
    var arms := Lookup(c.fixtures, id).value;
    var i :| 0 <= i < |c.fixtures| && c.fixtures[i] == Named(id, arms);
    var j :| 0 <= j < |arms| && arms[j] == Named(arm, Lookup(arms, arm).value);
    assert Lookup(Lookup(p.fixtures, c.fixtures[i].id).value, c.fixtures[i].body[j].id) == Some(c.fixtures[i].body[j].body.identity);
  }

  /** The mapping is a bijection from baseline and candidate onto the two arms of every fixture. */
  lemma MappingIsBijection(hashes: Hashes, b: Bundle, approvedMetadataHash: Hash, expected: Candidate, id: string)
    requires Accepted(hashes, b, approvedMetadataHash, expected) && id in Ids(b.artifact.pairs)
    ensures Lookup(b.mapping.fixtures, id).Some? && Lookup(b.package.fixtures, id).Some? && Lookup(b.scorecard.fixtures, id).Some?
    ensures var labels := Lookup(b.mapping.fixtures, id).value;
      && labels.baseline != labels.candidate
      && Ids(Lookup(b.package.fixtures, id).value) == {labels.baseline, labels.candidate}
      && Ids(Lookup(b.scorecard.fixtures, id).value) == {labels.baseline, labels.candidate}
  {
    hide Lookup, HeadersBind, ValidArtifact, ValidMapping;
    var i :| 0 <= i < |b.artifact.pairs| && b.artifact.pairs[i].id == id;
    assert PairBinds(hashes, b, id, b.artifact.pairs[i].body);
    var labels := Lookup(b.mapping.fixtures, id).value;
    ArmsOf(b.package.fixtures, id);
    ArmsOf(b.scorecard.fixtures, id);
    LabelsAreArms(Lookup(b.package.fixtures, id).value, labels.baseline, labels.candidate);
    LabelsAreArms(Lookup(b.scorecard.fixtures, id).value, labels.baseline, labels.candidate);
  }

  /** What a label points to in the scorecard is shown there. */
  lemma ScoredIsShown(c: Scorecard, id: string, arm: string)
    requires Lookup(c.fixtures, id).Some? && Lookup(Lookup(c.fixtures, id).value, arm).Some?
    ensures ShownInScorecard(c, Lookup(Lookup(c.fixtures, id).value, arm).value.scores)
  {
    hide Lookup;
    var arms := Lookup(c.fixtures, id).value;
    assert Named(id, arms) in c.fixtures && Named(arm, Lookup(arms, arm).value) in Named(id, arms).body;
  }

  /** Each pair is what the scorecard and the mapping say, and its baseline is the protected one. */
  lemma AcceptedPairIsDerived(hashes: Hashes, b: Bundle, approvedMetadataHash: Hash, expected: Candidate, i: nat)
    requires Accepted(hashes, b, approvedMetadataHash, expected) && NoCollision(hashes, b) && i < |b.artifact.pairs|
    ensures var id, pair := b.artifact.pairs[i].id, b.artifact.pairs[i].body;
      && PairOf(b.scorecard, b.mapping, id) == Some(pair)
      && Lookup(b.baseline.fixtures, id) == Some(pair.baseline.identity)
  {
    hide Lookup, HeadersBind, ValidArtifact, ValidMapping, ShownInScorecard;
    var id, pair := b.artifact.pairs[i].id, b.artifact.pairs[i].body;
    assert PairBinds(hashes, b, id, pair);
    var labels := Lookup(b.mapping.fixtures, id).value;
    ScoredArm(hashes, b.scorecard, b.package, id, labels.baseline);
    ScoredArm(hashes, b.scorecard, b.package, id, labels.candidate);
    ScoredIsShown(b.scorecard, id, labels.baseline);
    ScoredIsShown(b.scorecard, id, labels.candidate);
    assert Shown(b, pair.baseline.scores) && Shown(b, pair.candidate.scores);
  }

  lemma ArmsOf<T>(fixtures: seq<Named<Arms<T>>>, id: string)
    requires TwoArms(fixtures) && Lookup(fixtures, id).Some?
    ensures |Lookup(fixtures, id).value| == 2
  {
    var k :| 0 <= k < |fixtures| && fixtures[k] == Named(id, Lookup(fixtures, id).value);
  }

  /** No other scores or outputs could be accepted: scorecard and mapping fix the artifact's pairs by fixture. */
  lemma AcceptedPairsAreUnique(hashes: Hashes, a: Bundle, b: Bundle, hash: Hash, expected: Candidate, hash': Hash, expected': Candidate)
    requires Accepted(hashes, a, hash, expected) && Accepted(hashes, b, hash', expected')
    requires NoCollision(hashes, a) && NoCollision(hashes, b)
    requires a.scorecard == b.scorecard && a.mapping == b.mapping
    ensures Ids(a.artifact.pairs) == Ids(b.artifact.pairs)
    ensures forall id :: Lookup(a.artifact.pairs, id) == Lookup(b.artifact.pairs, id)
  {
    AcceptedFixturesAgree(hashes, a, hash, expected);
    AcceptedFixturesAgree(hashes, b, hash', expected');
    forall id ensures Lookup(a.artifact.pairs, id) == Lookup(b.artifact.pairs, id) {
      AcceptedLookup(hashes, a, hash, expected, id);
      AcceptedLookup(hashes, b, hash', expected', id);
    }
  }

  lemma AcceptedLookup(hashes: Hashes, b: Bundle, hash: Hash, expected: Candidate, id: string)
    requires Accepted(hashes, b, hash, expected) && NoCollision(hashes, b)
    ensures Lookup(b.artifact.pairs, id) == if id in Ids(b.artifact.pairs) then PairOf(b.scorecard, b.mapping, id) else None
  {
    hide Lookup, PairOf, HeadersBind, PairBinds, ValidArtifact, ScorecardBinds, ValidMapping, NoCollision;
    LookupMember(b.artifact.pairs, id);
    var found := Lookup(b.artifact.pairs, id);
    if found.Some? {
      var i :| 0 <= i < |b.artifact.pairs| && b.artifact.pairs[i] == Named(id, found.value);
      AcceptedPairIsDerived(hashes, b, hash, expected, i);
    }
  }

  /** A fixture whose derived pair starts from the protected baseline. */
  ghost predicate Coherent(b: Bundle, id: string) {
    && PairOf(b.scorecard, b.mapping, id).Some?
    && Lookup(b.baseline.fixtures, id) == Some(PairOf(b.scorecard, b.mapping, id).value.baseline.identity)
  }

  lemma DerivedPairBinds(hashes: Hashes, b: Bundle, id: string)
    requires ScorecardBinds(hashes, b.scorecard, b.package) && ValidMapping(b.mapping) && Coherent(b, id)
    ensures PairBinds(hashes, b, id, PairOf(b.scorecard, b.mapping, id).value)
  {
    var labels := Lookup(b.mapping.fixtures, id).value;
    ScoredArm(hashes, b.scorecard, b.package, id, labels.baseline);
    ScoredArm(hashes, b.scorecard, b.package, id, labels.candidate);
    assert labels.baseline != labels.candidate by {
      var k :| 0 <= k < |b.mapping.fixtures| && b.mapping.fixtures[k] == Named(id, labels);
    }
  }

  /** Exactly the derived artifacts are accepted: valid, bound documents of one size, with every pair read off scorecard and mapping. */
  lemma AcceptedExactlyWhenDerived(hashes: Hashes, b: Bundle, hash: Hash, expected: Candidate)
    requires NoCollision(hashes, b)
    ensures Accepted(hashes, b, hash, expected) <==>
      (&& ValidArtifact(b.artifact) && ValidFixtures(b.baseline.fixtures) && ValidMapping(b.mapping)
       && ScorecardBinds(hashes, b.scorecard, b.package) && HeadersBind(hashes, b, hash, expected)
       && |b.artifact.pairs| == |b.baseline.fixtures| == |b.package.fixtures|
       && |b.artifact.pairs| == |b.scorecard.fixtures| == |b.mapping.fixtures|
       && forall i | 0 <= i < |b.artifact.pairs| ::
            Coherent(b, b.artifact.pairs[i].id) && PairOf(b.scorecard, b.mapping, b.artifact.pairs[i].id) == Some(b.artifact.pairs[i].body))
  {
    hide Lookup, PairOf, HeadersBind, PairBinds, ValidArtifact, ScorecardBinds, ValidMapping, NoCollision, Coherent;
    if Accepted(hashes, b, hash, expected) {
      forall i | 0 <= i < |b.artifact.pairs|
        ensures Coherent(b, b.artifact.pairs[i].id) && PairOf(b.scorecard, b.mapping, b.artifact.pairs[i].id) == Some(b.artifact.pairs[i].body)
      {
        AcceptedPairIsDerived(hashes, b, hash, expected, i);
        DerivedIsCoherent(b, b.artifact.pairs[i].id);
      }
    }
    forall i | 0 <= i < |b.artifact.pairs| && ScorecardBinds(hashes, b.scorecard, b.package) && ValidMapping(b.mapping)
               && Coherent(b, b.artifact.pairs[i].id) && PairOf(b.scorecard, b.mapping, b.artifact.pairs[i].id) == Some(b.artifact.pairs[i].body)
      ensures PairBinds(hashes, b, b.artifact.pairs[i].id, b.artifact.pairs[i].body)
    {
      DerivedPairBinds(hashes, b, b.artifact.pairs[i].id);
    }
  }

  lemma DerivedIsCoherent(b: Bundle, id: string)
    requires PairOf(b.scorecard, b.mapping, id).Some?
    requires Lookup(b.baseline.fixtures, id) == Some(PairOf(b.scorecard, b.mapping, id).value.baseline.identity)
    ensures Coherent(b, id)
  {
  }

  // ---------- an instance ----------

  /** A list with one entry per fixture. */
  function PerFixture<T>(ids: seq<string>, body: string -> T): (r: seq<Named<T>>)
    ensures |r| == |ids| && forall i | 0 <= i < |ids| :: r[i] == Named(ids[i], body(ids[i]))
  {
    seq(|ids|, i requires 0 <= i < |ids| => Named(ids[i], body(ids[i])))
  }

  lemma {:induction false} LookupPerFixture<T>(ids: seq<string>, body: string -> T, id: string)
    ensures Lookup(PerFixture(ids, body), id) == if id in ids then Some(body(id)) else None
  {
    if |ids| > 0 {
      var before := ids[..|ids| - 1];
      LookupPerFixture(before, body, id);
      assert PerFixture(ids, body)[..|ids| - 1] == PerFixture(before, body);
      assert ids == before + [ids[|ids| - 1]];
    }
  }

  const RELEASE := Release("stable", "1", "old", "old", "f")
  const CANDIDATE := Candidate("new", "new")
  const SHOWN_BEFORE := Identity("m0", "o0")
  const SHOWN_AFTER := Identity("m1", "o1")

  function BaselineLabel(id: string): string { id + "0" }
  function CandidateLabel(id: string): string { id + "1" }

  function TwoOf<T>(id: string, baseline: T, candidate: T): Arms<T> {
    [Named(BaselineLabel(id), baseline), Named(CandidateLabel(id), candidate)]
  }

  function PackageOf(ids: seq<string>): BlindedPackage {
    BlindedPackage("r", PerFixture(ids, id => TwoOf(id, SHOWN_BEFORE, SHOWN_AFTER)))
  }

  function BaselineOf(ids: seq<string>): ProtectedBaseline {
    ProtectedBaseline(RELEASE, PerFixture(ids, id => SHOWN_BEFORE))
  }

  /** Every fixture scored low before and high after. */
  function ScorecardOf(hashes: Hashes, ids: seq<string>, low: Scores, high: Scores): Scorecard {
    Scorecard(hashes.package(PackageOf(ids)), "t",
              PerFixture(ids, id => TwoOf(id, Output(SHOWN_BEFORE, low), Output(SHOWN_AFTER, high))))
  }

  function MappingOf(hashes: Hashes, ids: seq<string>): Mapping {
    Mapping(hashes.package(PackageOf(ids)), hashes.metadata(BaselineOf(ids)), CANDIDATE,
            PerFixture(ids, id => Labels(BaselineLabel(id), CandidateLabel(id))))
  }

  function ArtifactOf(hashes: Hashes, ids: seq<string>, low: Scores, high: Scores): Artifact {
    Artifact(CANDIDATE, BaselineIdentity(RELEASE, hashes.metadata(BaselineOf(ids))), hashes.package(PackageOf(ids)),
             hashes.mapping(MappingOf(hashes, ids)), "t",
             PerFixture(ids, id => Pair(Output(SHOWN_BEFORE, low), Output(SHOWN_AFTER, high))))
  }

  function BundleOf(hashes: Hashes, ids: seq<string>, low: Scores, high: Scores): Bundle {
    Bundle(ArtifactOf(hashes, ids, low, high), BaselineOf(ids), PackageOf(ids), ScorecardOf(hashes, ids, low, high), MappingOf(hashes, ids))
  }

  lemma LabelsApart(id: string, id': string)
    ensures BaselineLabel(id) != CandidateLabel(id')
    ensures id != id' ==> BaselineLabel(id) != BaselineLabel(id') && CandidateLabel(id) != CandidateLabel(id')
  {
    var x, y, x', y' := BaselineLabel(id), CandidateLabel(id), BaselineLabel(id'), CandidateLabel(id');
    assert x[|x| - 1] != y'[|y'| - 1];
    assert id == x[..|x| - 1] == y[..|y| - 1] && id' == x'[..|x'| - 1] == y'[..|y'| - 1];
  }

  lemma TwoOfArms<T>(id: string, baseline: T, candidate: T)
    ensures DistinctIds(TwoOf(id, baseline, candidate))
    ensures Ids(TwoOf(id, baseline, candidate)) == {BaselineLabel(id), CandidateLabel(id)}
    ensures Lookup(TwoOf(id, baseline, candidate), BaselineLabel(id)) == Some(baseline)
    ensures Lookup(TwoOf(id, baseline, candidate), CandidateLabel(id)) == Some(candidate)
  {
    LabelsApart(id, id);
    hide BaselineLabel, CandidateLabel;
    var arms := TwoOf(id, baseline, candidate);
    assert arms[..1] == [arms[0]];
    assert arms[0] in arms && arms[1] in arms;
    assert BaselineLabel(id) in Ids(arms) && CandidateLabel(id) in Ids(arms) by {
      assert arms[0].id == BaselineLabel(id) && arms[1].id == CandidateLabel(id);
    }
  }

  lemma TwoOfFixtures<T>(ids: seq<string>, baseline: T, candidate: T)
    requires |ids| >= MINIMUM_FIXTURES && Distinct(ids)
    ensures var fixtures := PerFixture(ids, id => TwoOf(id, baseline, candidate));
      ValidFixtures(fixtures) && TwoArms(fixtures) && ArmsApart(fixtures)
  {
    var fixtures := PerFixture(ids, id => TwoOf(id, baseline, candidate));
    hide DistinctIds, Ids, TwoOf, BaselineLabel, CandidateLabel;
    forall i | 0 <= i < |fixtures| ensures |fixtures[i].body| == 2 && DistinctIds(fixtures[i].body) {
      TwoOfLength(ids[i], baseline, candidate);
      TwoOfArms(ids[i], baseline, candidate);
    }
    forall i | 0 <= i < |fixtures|
      ensures forall j | i < j < |fixtures| :: Ids(fixtures[i].body) !! Ids(fixtures[j].body)
    {
      forall j | i < j < |fixtures| ensures Ids(fixtures[i].body) !! Ids(fixtures[j].body) {
        TwoOfArms(ids[i], baseline, candidate);
        TwoOfArms(ids[j], baseline, candidate);
        LabelsApart(ids[i], ids[j]);
        LabelsApart(ids[j], ids[i]);
      }
    }
    DistinctFixtures(ids, fixtures);
  }

  lemma TwoOfLength<T>(id: string, baseline: T, candidate: T)
    ensures |TwoOf(id, baseline, candidate)| == 2
  {
  }

  lemma DistinctFixtures<T>(ids: seq<string>, fixtures: seq<Named<T>>)
    requires Distinct(ids) && |fixtures| == |ids| && forall i | 0 <= i < |ids| :: fixtures[i].id == ids[i]
    ensures DistinctIds(fixtures)
  {
  }

  lemma InstanceIsValid(hashes: Hashes, ids: seq<string>, low: Scores, high: Scores)
    requires |ids| >= MINIMUM_FIXTURES && Distinct(ids) && AreScores(low) && AreScores(high)
    ensures var b := BundleOf(hashes, ids, low, high);
      && ValidArtifact(b.artifact) && ValidFixtures(b.baseline.fixtures) && ValidMapping(b.mapping)
      && ValidPackage(b.package) && ValidScorecard(b.scorecard)
  {
    var b := BundleOf(hashes, ids, low, high);
    hide AreScores, BaselineLabel, CandidateLabel, TwoOf;
    TwoOfFixtures(ids, SHOWN_BEFORE, SHOWN_AFTER);
    TwoOfFixtures(ids, Output(SHOWN_BEFORE, low), Output(SHOWN_AFTER, high));
    DistinctFixtures(ids, b.artifact.pairs);
    DistinctFixtures(ids, b.baseline.fixtures);
    DistinctFixtures(ids, b.mapping.fixtures);
    forall i, j | 0 <= i < |ids| && 0 <= j < |ids| ensures BaselineLabel(ids[i]) != CandidateLabel(ids[j])
      && (i != j ==> BaselineLabel(ids[i]) != BaselineLabel(ids[j]) && CandidateLabel(ids[i]) != CandidateLabel(ids[j]))
    {
      LabelsApart(ids[i], ids[j]);
    }
    forall i | 0 <= i < |ids| ensures forall j | 0 <= j < 2 :: AreScores(b.scorecard.fixtures[i].body[j].body.scores) {
      TwoOfBodies(ids[i], Output(SHOWN_BEFORE, low), Output(SHOWN_AFTER, high));
    }
  }

  lemma TwoOfBodies<T>(id: string, baseline: T, candidate: T)
    ensures |TwoOf(id, baseline, candidate)| == 2
    ensures TwoOf(id, baseline, candidate)[0] == Named(BaselineLabel(id), baseline)
    ensures TwoOf(id, baseline, candidate)[1] == Named(CandidateLabel(id), candidate)
  {
  }

  lemma InstanceFixtureBinds(hashes: Hashes, ids: seq<string>, low: Scores, high: Scores, i: nat)
    requires i < |ids|
    ensures var c, p := ScorecardOf(hashes, ids, low, high), PackageOf(ids);
      && Lookup(p.fixtures, c.fixtures[i].id).Some?
      && forall j | 0 <= j < |c.fixtures[i].body| ::
           Lookup(Lookup(p.fixtures, c.fixtures[i].id).value, c.fixtures[i].body[j].id) == Some(c.fixtures[i].body[j].body.identity)
  {
    hide TwoOf, BaselineLabel, CandidateLabel, Lookup;
    LookupPerFixture(ids, id => TwoOf(id, SHOWN_BEFORE, SHOWN_AFTER), ids[i]);
    TwoOfBodies(ids[i], Output(SHOWN_BEFORE, low), Output(SHOWN_AFTER, high));
    TwoOfArms(ids[i], SHOWN_BEFORE, SHOWN_AFTER);
  }

  lemma InstanceScorecardBinds(hashes: Hashes, ids: seq<string>, low: Scores, high: Scores)
    requires |ids| >= MINIMUM_FIXTURES && Distinct(ids) && AreScores(low) && AreScores(high)
    ensures ScorecardBinds(hashes, ScorecardOf(hashes, ids, low, high), PackageOf(ids))
  {
    hide ValidScorecard, ValidPackage, ValidMapping, ValidArtifact, ValidFixtures, AreScores, TwoOf, BaselineLabel, CandidateLabel, Lookup;
    InstanceIsValid(hashes, ids, low, high);
    var c, p := ScorecardOf(hashes, ids, low, high), PackageOf(ids);
    forall i | 0 <= i < |c.fixtures|
      ensures Lookup(p.fixtures, c.fixtures[i].id).Some?
      ensures forall j | 0 <= j < |c.fixtures[i].body| ::
        Lookup(Lookup(p.fixtures, c.fixtures[i].id).value, c.fixtures[i].body[j].id) == Some(c.fixtures[i].body[j].body.identity)
    {
      InstanceFixtureBinds(hashes, ids, low, high, i);
    }
  }

  lemma InstancePairBinds(hashes: Hashes, ids: seq<string>, low: Scores, high: Scores, id: string)
    requires id in ids
    ensures PairBinds(hashes, BundleOf(hashes, ids, low, high), id, Pair(Output(SHOWN_BEFORE, low), Output(SHOWN_AFTER, high)))
  {
    hide TwoOf, Lookup;
    LookupPerFixture(ids, id => SHOWN_BEFORE, id);
    LookupPerFixture(ids, id => TwoOf(id, SHOWN_BEFORE, SHOWN_AFTER), id);
    LookupPerFixture(ids, id => Labels(BaselineLabel(id), CandidateLabel(id)), id);
    LookupPerFixture(ids, id => TwoOf(id, Output(SHOWN_BEFORE, low), Output(SHOWN_AFTER, high)), id);
    TwoOfArms(id, SHOWN_BEFORE, SHOWN_AFTER);
    TwoOfArms(id, Output(SHOWN_BEFORE, low), Output(SHOWN_AFTER, high));
    LabelsApart(id, id);
    hide BaselineLabel, CandidateLabel;
  }

  lemma InstanceScorecardShows(hashes: Hashes, ids: seq<string>, low: Scores, high: Scores, s: Scores)
    requires ShownInScorecard(ScorecardOf(hashes, ids, low, high), s)
    ensures s == low || s == high
  {
    hide TwoOf, PackageOf;
    var c := ScorecardOf(hashes, ids, low, high);
    var fixture, arm :| fixture in c.fixtures && arm in fixture.body && arm.body.scores == s;
    var i :| 0 <= i < |ids| && c.fixtures[i] == fixture;
    TwoOfBodies(ids[i], Output(SHOWN_BEFORE, low), Output(SHOWN_AFTER, high));
    hide ScorecardOf;
  }

  lemma InstanceShows(hashes: Hashes, ids: seq<string>, low: Scores, high: Scores, s: Scores)
    requires |ids| > 0
    ensures Shown(BundleOf(hashes, ids, low, high), s) <==> s == low || s == high
  {
    hide ScorecardOf, MappingOf, PackageOf, BaselineOf, ShownInScorecard;
    var b := BundleOf(hashes, ids, low, high);
    if ShownInScorecard(b.scorecard, s) {
      InstanceScorecardShows(hashes, ids, low, high, s);
    }
    assert b.artifact.pairs[0].body.baseline.scores == low && b.artifact.pairs[0].body.candidate.scores == high;
  }

  lemma InstanceIsAccepted(hashes: Hashes, ids: seq<string>, low: Scores, high: Scores)
    requires |ids| >= MINIMUM_FIXTURES && Distinct(ids) && AreScores(low) && AreScores(high)
    ensures var b := BundleOf(hashes, ids, low, high);
      Accepted(hashes, b, hashes.metadata(b.baseline), CANDIDATE)
  {
    var b := BundleOf(hashes, ids, low, high);
    InstanceIsValid(hashes, ids, low, high);
    InstanceScorecardBinds(hashes, ids, low, high);
    hide ValidArtifact, ValidMapping, ValidFixtures, ScorecardBinds, PairBinds, TwoOf, AreScores, ValidPackage, ValidScorecard,
         BaselineLabel, CandidateLabel;
    forall i | 0 <= i < |ids| ensures PairBinds(hashes, b, b.artifact.pairs[i].id, b.artifact.pairs[i].body) {
      InstancePairBinds(hashes, ids, low, high, ids[i]);
    }
  }

  /** Acceptance without collisions is possible: any fixtures, any two scores, any hashes that tell these two apart. */
  lemma AcceptanceIsPossible(hashes: Hashes, ids: seq<string>, low: Scores, high: Scores)
    requires |ids| >= MINIMUM_FIXTURES && Distinct(ids) && AreScores(low) && AreScores(high)
    ensures var b := BundleOf(hashes, ids, low, high);
      && Accepted(hashes, b, hashes.metadata(b.baseline), CANDIDATE)
      && (NoCollision(hashes, b) <==> low == high || hashes.scores(low) != hashes.scores(high))
  {
    hide Accepted, BundleOf, Shown, AreScores;
    InstanceIsAccepted(hashes, ids, low, high);
    forall s ensures Shown(BundleOf(hashes, ids, low, high), s) <==> s == low || s == high {
      InstanceShows(hashes, ids, low, high, s);
    }
  }

  // ---------- the verdict ----------

  datatype Dimension = Relevance | DiscoveryQuality | Coherence | Sequencing

  const DIMENSIONS := [Relevance, DiscoveryQuality, Coherence, Sequencing]

  function ScoreOf(s: Scores, d: Dimension): real {
    match d
    case Relevance => s.relevance
    case DiscoveryQuality => s.discoveryQuality
    case Coherence => s.coherence
    case Sequencing => s.sequencing
  }

  datatype Reason =
    | CandidateMedianBelowFour(dimension: Dimension)
    | MaterialMedianRegression(dimension: Dimension)
    | FixtureDimensionRegression(fixtureId: string, dimension: Dimension)

  function BaselineScores(pairs: seq<Named<Pair>>, d: Dimension): (r: seq<real>)
    ensures |r| == |pairs| && forall k | 0 <= k < |pairs| :: r[k] == ScoreOf(pairs[k].body.baseline.scores, d)
  {
    seq(|pairs|, k requires 0 <= k < |pairs| => ScoreOf(pairs[k].body.baseline.scores, d))
  }

  function CandidateScores(pairs: seq<Named<Pair>>, d: Dimension): (r: seq<real>)
    ensures |r| == |pairs| && forall k | 0 <= k < |pairs| :: r[k] == ScoreOf(pairs[k].body.candidate.scores, d)
  {
    seq(|pairs|, k requires 0 <= k < |pairs| => ScoreOf(pairs[k].body.candidate.scores, d))
  }

  predicate MedianBelowFour(pairs: seq<Named<Pair>>, d: Dimension)
    requires |pairs| > 0
  {
    Median(CandidateScores(pairs, d)) < 4.0
  }

  predicate MedianRegresses(pairs: seq<Named<Pair>>, d: Dimension)
    requires |pairs| > 0
  {
    Median(CandidateScores(pairs, d)) < Median(BaselineScores(pairs, d))
  }

  function MedianReasonsOf(below: bool, regresses: bool, d: Dimension): (r: seq<Reason>)
    ensures forall reason ::
      (reason in r <==> (below && reason == CandidateMedianBelowFour(d)) || (regresses && reason == MaterialMedianRegression(d)))
  {
    (if below then [CandidateMedianBelowFour(d)] else []) + (if regresses then [MaterialMedianRegression(d)] else [])
  }

  function MedianReasons(pairs: seq<Named<Pair>>, dimensions: seq<Dimension>): (r: seq<Reason>)
    requires |pairs| > 0
    ensures forall d :: CandidateMedianBelowFour(d) in r <==> d in dimensions && MedianBelowFour(pairs, d)
    ensures forall d :: MaterialMedianRegression(d) in r <==> d in dimensions && MedianRegresses(pairs, d)
    ensures forall reason | reason in r :: !reason.FixtureDimensionRegression?
  {
    if |dimensions| == 0 then []
    else
      var d := dimensions[0];
      assert dimensions == [d] + dimensions[1..];
      MedianReasonsOf(MedianBelowFour(pairs, d), MedianRegresses(pairs, d), d) + MedianReasons(pairs, dimensions[1..])
  }

  predicate Regresses(pair: Pair, d: Dimension) {
    ScoreOf(pair.candidate.scores, d) < ScoreOf(pair.baseline.scores, d)
  }

  function PairReasons(pair: Named<Pair>, dimensions: seq<Dimension>): (r: seq<Reason>)
    ensures forall id, d :: FixtureDimensionRegression(id, d) in r <==> id == pair.id && d in dimensions && Regresses(pair.body, d)
    ensures forall reason | reason in r :: reason.FixtureDimensionRegression?
  {
    if |dimensions| == 0 then []
    else
      (if Regresses(pair.body, dimensions[0]) then [FixtureDimensionRegression(pair.id, dimensions[0])] else [])
      + PairReasons(pair, dimensions[1..])
  }

  function FixtureReasons(pairs: seq<Named<Pair>>): (r: seq<Reason>)
    ensures forall id, d ::
      (FixtureDimensionRegression(id, d) in r
       <==> exists k :: 0 <= k < |pairs| && pairs[k].id == id && d in DIMENSIONS && Regresses(pairs[k].body, d))
    ensures forall reason | reason in r :: reason.FixtureDimensionRegression?
  {
    if |pairs| == 0 then []
    else
      assert forall k | 1 <= k < |pairs| :: pairs[1..][k - 1] == pairs[k];
      PairReasons(pairs[0], DIMENSIONS) + FixtureReasons(pairs[1..])
  }

  /** The reason codes of a review: medians first, then every fixture and dimension that got worse. */
  function ReasonCodes(artifact: Artifact): seq<Reason>
    requires ValidArtifact(artifact)
  {
    MedianReasons(artifact.pairs, DIMENSIONS) + FixtureReasons(artifact.pairs)
  }

  lemma DimensionListed(d: Dimension)
    ensures d in DIMENSIONS
  {
    match d
    case Relevance => assert DIMENSIONS[0] == d;
    case DiscoveryQuality => assert DIMENSIONS[1] == d;
    case Coherence => assert DIMENSIONS[2] == d;
    case Sequencing => assert DIMENSIONS[3] == d;
  }

  /** A median regression never comes without a fixture that regressed in the same dimension. */
  lemma MedianRegressionHasFixture(artifact: Artifact, d: Dimension)
    requires ValidArtifact(artifact) && MaterialMedianRegression(d) in ReasonCodes(artifact)
    ensures exists id :: FixtureDimensionRegression(id, d) in ReasonCodes(artifact)
  {
    hide Median, MedianReasons, FixtureReasons;
    var pairs := artifact.pairs;
    DimensionListed(d);
    if forall k | 0 <= k < |pairs| :: !Regresses(pairs[k].body, d) {
      MedianDominance(BaselineScores(pairs, d), CandidateScores(pairs, d));
      assert false;
    }
    var k :| 0 <= k < |pairs| && Regresses(pairs[k].body, d);
    assert FixtureDimensionRegression(pairs[k].id, d) in FixtureReasons(pairs);
  }

  /** Passed exactly when no fixture got worse anywhere and every candidate median reaches four. */
  lemma PassedByMedians(artifact: Artifact)
    requires ValidArtifact(artifact)
    ensures ReasonCodes(artifact) == [] <==>
      (&& (forall k, d | 0 <= k < |artifact.pairs| :: !Regresses(artifact.pairs[k].body, d))
       && (forall d :: Median(CandidateScores(artifact.pairs, d)) >= 4.0))
  {
    hide Median, MedianReasons, FixtureReasons, Regresses;
    var codes := ReasonCodes(artifact);
    forall d ensures d in DIMENSIONS { DimensionListed(d); }
    if codes != [] {
      var reason := codes[0];
      assert reason in codes;
      if reason.MaterialMedianRegression? {
        MedianRegressionHasFixture(artifact, reason.dimension);
      }
    } else {
      forall k, d | 0 <= k < |artifact.pairs| ensures !Regresses(artifact.pairs[k].body, d) {
        assert FixtureDimensionRegression(artifact.pairs[k].id, d) !in FixtureReasons(artifact.pairs);
      }
      forall d ensures Median(CandidateScores(artifact.pairs, d)) >= 4.0 {
        assert CandidateMedianBelowFour(d) !in MedianReasons(artifact.pairs, DIMENSIONS);
      }
    }
  }
}
