/** What acceptance and the verdict of a review mean, on the documents' own fields and on counts of scores. */
module ReviewOutcomes {
  import opened Collections
  import opened Counting
  import opened Medians
  import opened RankingReview

  // ---------- the verdict ----------

  /** No dimension of the pair got worse. */
  predicate NothingWorse(pair: Pair) {
    var before, after := pair.baseline.scores, pair.candidate.scores;
    && after.relevance >= before.relevance && after.discoveryQuality >= before.discoveryQuality
    && after.coherence >= before.coherence && after.sequencing >= before.sequencing
  }

  /** The candidate's scores in one dimension. */
  function Column(pairs: seq<Named<Pair>>, score: Scores -> real): (r: seq<real>)
    ensures |r| == |pairs| && forall k | 0 <= k < |pairs| :: r[k] == score(pairs[k].body.candidate.scores)
  {
    seq(|pairs|, k requires 0 <= k < |pairs| => score(pairs[k].body.candidate.scores))
  }

  /** The two middle values, found by counting, reach four on average; of an odd number of values they are one. */
  ghost predicate MiddleReachesFour(values: seq<real>) {
    forall low, high | IsLowMiddle(values, low) && IsHighMiddle(values, high) :: low + high >= 8.0
  }

  lemma MiddleIsMedian(values: seq<real>)
    requires |values| > 0
    ensures MiddleReachesFour(values) <==> Median(values) >= 4.0
  {
    hide Median, HasRank;
    var low, high := MiddlesExist(values);
    MedianIsMiddle(values, low, high);
    forall low', high' | IsLowMiddle(values, low') && IsHighMiddle(values, high')
      ensures 2.0 * Median(values) == low' + high'
    {
      MedianIsMiddle(values, low', high');
    }
  }

  lemma ColumnsAreScores(pairs: seq<Named<Pair>>)
    ensures CandidateScores(pairs, Relevance) == Column(pairs, (s: Scores) => s.relevance)
    ensures CandidateScores(pairs, DiscoveryQuality) == Column(pairs, (s: Scores) => s.discoveryQuality)
    ensures CandidateScores(pairs, Coherence) == Column(pairs, (s: Scores) => s.coherence)
    ensures CandidateScores(pairs, Sequencing) == Column(pairs, (s: Scores) => s.sequencing)
  {
  }

  lemma NothingWorseExactly(pair: Pair)
    ensures NothingWorse(pair) <==> forall d :: !Regresses(pair, d)
  {
    assert Regresses(pair, Relevance) <==> pair.candidate.scores.relevance < pair.baseline.scores.relevance;
    assert Regresses(pair, DiscoveryQuality) <==> pair.candidate.scores.discoveryQuality < pair.baseline.scores.discoveryQuality;
    assert Regresses(pair, Coherence) <==> pair.candidate.scores.coherence < pair.baseline.scores.coherence;
    assert Regresses(pair, Sequencing) <==> pair.candidate.scores.sequencing < pair.baseline.scores.sequencing;
    forall d | NothingWorse(pair) ensures !Regresses(pair, d) {
      match d { case Relevance => case DiscoveryQuality => case Coherence => case Sequencing => }
    }
  }

  /** The verdict: passed exactly when no fixture got worse in anything and the middle of the candidate's scores reaches four in
      every dimension. */
  lemma PassedExactly(artifact: Artifact)
    requires ValidArtifact(artifact)
    ensures ReasonCodes(artifact) == [] <==>
      && (forall k | 0 <= k < |artifact.pairs| :: NothingWorse(artifact.pairs[k].body))
      && MiddleReachesFour(Column(artifact.pairs, (s: Scores) => s.relevance))
      && MiddleReachesFour(Column(artifact.pairs, (s: Scores) => s.discoveryQuality))
      && MiddleReachesFour(Column(artifact.pairs, (s: Scores) => s.coherence))
      && MiddleReachesFour(Column(artifact.pairs, (s: Scores) => s.sequencing))
  {
    hide Median, MiddleReachesFour, Regresses, NothingWorse, ReasonCodes, CandidateScores, Column;
    PassedByMedians(artifact);
    ColumnsAreScores(artifact.pairs);
    forall k | 0 <= k < |artifact.pairs|
      ensures NothingWorse(artifact.pairs[k].body) <==> forall d :: !Regresses(artifact.pairs[k].body, d)
    {
      NothingWorseExactly(artifact.pairs[k].body);
    }
    forall d: Dimension ensures Median(CandidateScores(artifact.pairs, d)) >= 4.0 <==> MiddleReachesFour(CandidateScores(artifact.pairs, d)) {
      MiddleIsMedian(CandidateScores(artifact.pairs, d));
    }
    if && MiddleReachesFour(CandidateScores(artifact.pairs, Relevance)) && MiddleReachesFour(CandidateScores(artifact.pairs, DiscoveryQuality))
       && MiddleReachesFour(CandidateScores(artifact.pairs, Coherence)) && MiddleReachesFour(CandidateScores(artifact.pairs, Sequencing)) {
      forall d: Dimension ensures MiddleReachesFour(CandidateScores(artifact.pairs, d)) {
        match d { case Relevance => case DiscoveryQuality => case Coherence => case Sequencing => }
      }
    }
  }

  // ---------- acceptance ----------

  /** The documents name each other: the approved baseline, one package, one mapping, one time and the expected candidate. */
  lemma HeadersBindExactly(hashes: Hashes, b: Bundle, approvedMetadataHash: Hash, expected: Candidate)
    ensures HeadersBind(hashes, b, approvedMetadataHash, expected) <==>
      && approvedMetadataHash == hashes.metadata(b.baseline) == b.mapping.baselineMetadataHash
      && hashes.baseline(b.artifact.baseline) == hashes.baseline(BaselineIdentity(b.baseline.release, approvedMetadataHash))
      && hashes.package(b.package) == b.artifact.blindedPackageHash == b.mapping.blindedPackageHash == b.scorecard.blindedPackageHash
      && hashes.mapping(b.mapping) == b.artifact.blindMappingHash
      && hashes.candidate(expected) == hashes.candidate(b.artifact.candidate) == hashes.candidate(b.mapping.candidate)
      && b.scorecard.reviewedAt == b.artifact.reviewedAt
  {
  }

  predicate InRange(s: Scores) {
    && 1.0 <= s.relevance && s.relevance <= 5.0 && 1.0 <= s.discoveryQuality && s.discoveryQuality <= 5.0
    && 1.0 <= s.coherence && s.coherence <= 5.0 && 1.0 <= s.sequencing && s.sequencing <= 5.0
  }

  /** An artifact is valid exactly when it compares at least three different fixtures, releases another revision and image than the
      baseline's, and holds scores from one to five. */
  lemma ValidArtifactExactly(a: Artifact)
    ensures ValidArtifact(a) <==>
      && |a.pairs| >= 3
      && (forall i, j | 0 <= i < j < |a.pairs| :: a.pairs[i].id != a.pairs[j].id)
      && a.baseline.release.sourceRevision != a.candidate.sourceRevision
      && a.baseline.release.imageDigest != a.candidate.imageDigest
      && forall i | 0 <= i < |a.pairs| :: InRange(a.pairs[i].body.baseline.scores) && InRange(a.pairs[i].body.candidate.scores)
  {
  }

  /** At least three different fixtures with two labelled arms each, and no label twice among all of them. */
  ghost predicate TwoLabelsEach<T>(fixtures: seq<Named<Arms<T>>>) {
    && |fixtures| >= 3
    && (forall i, j | 0 <= i < j < |fixtures| :: fixtures[i].id != fixtures[j].id)
    && (forall i | 0 <= i < |fixtures| :: |fixtures[i].body| == 2 && fixtures[i].body[0].id != fixtures[i].body[1].id)
    && (forall i, j | 0 <= i < j < |fixtures| :: forall x, y | x in fixtures[i].body && y in fixtures[j].body :: x.id != y.id)
  }

  lemma IdsOf<T>(s: seq<Named<T>>)
    ensures forall x | x in s :: x.id in Ids(s)
    ensures forall id | id in Ids(s) :: exists x :: x in s && x.id == id
  {
    forall id | id in Ids(s) ensures exists x :: x in s && x.id == id {
      var i :| 0 <= i < |s| && s[i].id == id;
      assert s[i] in s;
    }
  }

  lemma NoSharedId<T>(s: seq<Named<T>>, t: seq<Named<T>>)
    ensures Ids(s) !! Ids(t) <==> forall x, y | x in s && y in t :: x.id != y.id
  {
    IdsOf(s);
    IdsOf(t);
    hide Ids;
    if id :| id in Ids(s) && id in Ids(t) {
      var x :| x in s && x.id == id;
      var y :| y in t && y.id == id;
      assert !(x.id != y.id);
    }
  }

  lemma TwoLabelsExactly<T>(fixtures: seq<Named<Arms<T>>>)
    ensures ValidFixtures(fixtures) && TwoArms(fixtures) && ArmsApart(fixtures) <==> TwoLabelsEach(fixtures)
  {
    hide Ids;
    forall i, j | 0 <= i < j < |fixtures|
      ensures Ids(fixtures[i].body) !! Ids(fixtures[j].body) <==>
        forall x, y | x in fixtures[i].body && y in fixtures[j].body :: x.id != y.id
    {
      NoSharedId(fixtures[i].body, fixtures[j].body);
    }
  }

  lemma ValidPackageExactly(p: BlindedPackage)
    ensures ValidPackage(p) <==> TwoLabelsEach(p.fixtures)
  {
    TwoLabelsExactly(p.fixtures);
  }

  lemma ValidScorecardExactly(c: Scorecard)
    ensures ValidScorecard(c) <==>
      TwoLabelsEach(c.fixtures) && forall fixture, arm | fixture in c.fixtures && arm in fixture.body :: InRange(arm.body.scores)
  {
    hide TwoLabelsEach, InRange, AreScores;
    TwoLabelsExactly(c.fixtures);
    forall s: Scores ensures AreScores(s) <==> InRange(s) { ScoresInRange(s); }
    assert (forall i | 0 <= i < |c.fixtures| :: forall j | 0 <= j < |c.fixtures[i].body| :: AreScores(c.fixtures[i].body[j].body.scores))
      <==> forall fixture, arm | fixture in c.fixtures && arm in fixture.body :: InRange(arm.body.scores) by {
      ScoredArms(c.fixtures);
    }
  }

  lemma ScoresInRange(s: Scores)
    ensures AreScores(s) <==> InRange(s)
  {
  }

  lemma ScoredArms(fixtures: seq<Named<Arms<Output>>>)
    ensures (forall i | 0 <= i < |fixtures| :: forall j | 0 <= j < |fixtures[i].body| :: AreScores(fixtures[i].body[j].body.scores))
      <==> forall fixture, arm | fixture in fixtures && arm in fixture.body :: AreScores(arm.body.scores)
  {
    hide AreScores;
    if forall fixture, arm | fixture in fixtures && arm in fixture.body :: AreScores(arm.body.scores) {
      forall i | 0 <= i < |fixtures| ensures forall j | 0 <= j < |fixtures[i].body| :: AreScores(fixtures[i].body[j].body.scores) {
        assert fixtures[i] in fixtures;
        assert forall j | 0 <= j < |fixtures[i].body| :: fixtures[i].body[j] in fixtures[i].body;
      }
    }
  }

  /** A mapping names two different labels for each of at least three fixtures, and no label for two fixtures. */
  lemma ValidMappingExactly(m: Mapping)
    ensures ValidMapping(m) <==>
      && |m.fixtures| >= 3
      && (forall i, j | 0 <= i < j < |m.fixtures| :: m.fixtures[i].id != m.fixtures[j].id)
      && (forall i | 0 <= i < |m.fixtures| :: m.fixtures[i].body.baseline != m.fixtures[i].body.candidate)
      && forall i, j | 0 <= i < j < |m.fixtures| :: NoSharedLabel(m.fixtures[i].body, m.fixtures[j].body)
  {
    assert forall x: Labels, y: Labels :: NoSharedLabel(x, y) <==> {x.baseline, x.candidate} !! {y.baseline, y.candidate};
    hide NoSharedLabel;
  }

  predicate NoSharedLabel(x: Labels, y: Labels) {
    x.baseline != y.baseline && x.baseline != y.candidate && x.candidate != y.baseline && x.candidate != y.candidate
  }

  /** An accepted bundle: valid documents of one size, naming each other, whose scorecard lists exactly the package's arms. */
  lemma AcceptedSays(hashes: Hashes, b: Bundle, approvedMetadataHash: Hash, expected: Candidate)
    requires Accepted(hashes, b, approvedMetadataHash, expected)
    ensures TwoLabelsEach(b.package.fixtures) && TwoLabelsEach(b.scorecard.fixtures)
    ensures forall fixture, arm | fixture in b.scorecard.fixtures && arm in fixture.body :: InRange(arm.body.scores)
    ensures approvedMetadataHash == hashes.metadata(b.baseline)
    ensures hashes.package(b.package) == b.artifact.blindedPackageHash == b.mapping.blindedPackageHash == b.scorecard.blindedPackageHash
    ensures |b.artifact.pairs| == |b.baseline.fixtures| == |b.package.fixtures| == |b.scorecard.fixtures| == |b.mapping.fixtures|
    ensures b.artifact.pairs != [] && b.artifact.candidate.sourceRevision != b.artifact.baseline.release.sourceRevision
  {
    hide PairBinds, TwoLabelsEach, InRange, ValidScorecard, ValidPackage, ValidMapping;
    ValidPackageExactly(b.package);
    ValidScorecardExactly(b.scorecard);
  }

  /** A scorecard binds to a package exactly when both are valid, it carries the package's hash, they are of one size, and every
      scored arm is an arm of the same fixture with the same output. */
  lemma ScorecardBindsExactly(hashes: Hashes, c: Scorecard, p: BlindedPackage)
    ensures ScorecardBinds(hashes, c, p) <==>
      && ValidScorecard(c) && ValidPackage(p) && hashes.package(p) == c.blindedPackageHash && |c.fixtures| == |p.fixtures|
      && forall fixture, arm | fixture in c.fixtures && arm in fixture.body :: ShownArm(p, fixture.id, arm.id, arm.body.identity)
  {
    hide ValidScorecard, ValidPackage, ShownArm, Lookup;
    assert forall i | 0 <= i < |c.fixtures| :: c.fixtures[i] in c.fixtures;
    if ValidPackage(p) {
      forall fixture, arm, identity ensures ShownArm(p, fixture, arm, identity) <==>
        Lookup(p.fixtures, fixture).Some? && Lookup(Lookup(p.fixtures, fixture).value, arm) == Some(identity)
      {
        ArmShown(p, fixture, arm, identity);
      }
      if forall fixture, arm | fixture in c.fixtures && arm in fixture.body :: ShownArm(p, fixture.id, arm.id, arm.body.identity) {
        if ValidScorecard(c) { AllArmsShown(c, p); }
      }
    }
  }

  /** Some fixture of the package has this identifier and shows this output under this label. */
  ghost predicate ShownArm(p: BlindedPackage, fixture: string, name: string, identity: Identity) {
    exists f, arm :: f in p.fixtures && f.id == fixture && arm in f.body && arm.id == name && arm.body == identity
  }

  lemma {:induction false} LookupFinds<T>(s: seq<Named<T>>, x: Named<T>)
    requires DistinctIds(s) && x in s
    ensures Lookup(s, x.id) == Some(x.body)
  {
    var n := |s| - 1;
    assert s == s[..n] + [s[n]];
    if s[n] != x {
      LookupFinds(s[..n], x);
      var k :| 0 <= k < n && s[k] == x;
    }
  }

  lemma ArmShown(p: BlindedPackage, fixture: string, name: string, identity: Identity)
    requires ValidPackage(p)
    ensures ShownArm(p, fixture, name, identity) <==>
      Lookup(p.fixtures, fixture).Some? && Lookup(Lookup(p.fixtures, fixture).value, name) == Some(identity)
  {
    hide Lookup, ArmsApart;
    if ShownArm(p, fixture, name, identity) {
      var f, arm :| f in p.fixtures && f.id == fixture && arm in f.body && arm.id == name && arm.body == identity;
      LookupFinds(p.fixtures, f);
      var k :| 0 <= k < |p.fixtures| && p.fixtures[k] == f;
      LookupFinds(f.body, arm);
    }
    if Lookup(p.fixtures, fixture).Some? && Lookup(Lookup(p.fixtures, fixture).value, name) == Some(identity) {
      assert Named(fixture, Lookup(p.fixtures, fixture).value) in p.fixtures;
      assert Named(name, identity) in Lookup(p.fixtures, fixture).value;
    }
  }

  lemma AllArmsShown(c: Scorecard, p: BlindedPackage)
    requires ValidPackage(p) && ValidScorecard(c)
    requires forall fixture, arm | fixture in c.fixtures && arm in fixture.body :: ShownArm(p, fixture.id, arm.id, arm.body.identity)
    ensures forall i | 0 <= i < |c.fixtures| ::
      && Lookup(p.fixtures, c.fixtures[i].id).Some?
      && forall j | 0 <= j < |c.fixtures[i].body| ::
           Lookup(Lookup(p.fixtures, c.fixtures[i].id).value, c.fixtures[i].body[j].id) == Some(c.fixtures[i].body[j].body.identity)
  {
    hide ShownArm, Lookup, ArmsApart, AreScores, ValidPackage;
    forall i | 0 <= i < |c.fixtures|
      ensures Lookup(p.fixtures, c.fixtures[i].id).Some?
      ensures forall j | 0 <= j < |c.fixtures[i].body| ::
        Lookup(Lookup(p.fixtures, c.fixtures[i].id).value, c.fixtures[i].body[j].id) == Some(c.fixtures[i].body[j].body.identity)
    {
      var f := c.fixtures[i];
      assert f in c.fixtures && |f.body| == 2;
      forall j | 0 <= j < |f.body| ensures Lookup(p.fixtures, f.id).Some? && Lookup(Lookup(p.fixtures, f.id).value, f.body[j].id) == Some(f.body[j].body.identity) {
        assert f.body[j] in f.body;
        ArmShown(p, f.id, f.body[j].id, f.body[j].body.identity);
      }
      assert Lookup(p.fixtures, f.id).Some? by { assert f.body[0] in f.body; ArmShown(p, f.id, f.body[0].id, f.body[0].body.identity); }
    }
  }

  // ---------- the codes ----------

  /** A code names the dimension whose scores got worse. */
  lemma CodesNameDimensions(artifact: Artifact, id: string)
    requires ValidArtifact(artifact)
    ensures FixtureDimensionRegression(id, Relevance) in ReasonCodes(artifact) <==>
      exists pair :: pair in artifact.pairs && pair.id == id && pair.body.candidate.scores.relevance < pair.body.baseline.scores.relevance
    ensures FixtureDimensionRegression(id, DiscoveryQuality) in ReasonCodes(artifact) <==>
      exists pair :: pair in artifact.pairs && pair.id == id
        && pair.body.candidate.scores.discoveryQuality < pair.body.baseline.scores.discoveryQuality
    ensures FixtureDimensionRegression(id, Coherence) in ReasonCodes(artifact) <==>
      exists pair :: pair in artifact.pairs && pair.id == id && pair.body.candidate.scores.coherence < pair.body.baseline.scores.coherence
    ensures FixtureDimensionRegression(id, Sequencing) in ReasonCodes(artifact) <==>
      exists pair :: pair in artifact.pairs && pair.id == id && pair.body.candidate.scores.sequencing < pair.body.baseline.scores.sequencing
  {
    hide FixtureReasons, MedianReasons, Regresses;
    forall d: Dimension ensures FixtureDimensionRegression(id, d) in ReasonCodes(artifact) <==>
      exists pair :: pair in artifact.pairs && pair.id == id && Regresses(pair.body, d)
    {
      FixtureCode(artifact, id, d);
    }
    forall pair: Pair
      ensures Regresses(pair, Relevance) <==> pair.candidate.scores.relevance < pair.baseline.scores.relevance
      ensures Regresses(pair, DiscoveryQuality) <==> pair.candidate.scores.discoveryQuality < pair.baseline.scores.discoveryQuality
      ensures Regresses(pair, Coherence) <==> pair.candidate.scores.coherence < pair.baseline.scores.coherence
      ensures Regresses(pair, Sequencing) <==> pair.candidate.scores.sequencing < pair.baseline.scores.sequencing
    {
      RegressesByField(pair);
    }
  }

  lemma RegressesByField(pair: Pair)
    ensures Regresses(pair, Relevance) <==> pair.candidate.scores.relevance < pair.baseline.scores.relevance
    ensures Regresses(pair, DiscoveryQuality) <==> pair.candidate.scores.discoveryQuality < pair.baseline.scores.discoveryQuality
    ensures Regresses(pair, Coherence) <==> pair.candidate.scores.coherence < pair.baseline.scores.coherence
    ensures Regresses(pair, Sequencing) <==> pair.candidate.scores.sequencing < pair.baseline.scores.sequencing
  {
  }

  lemma FixtureCode(artifact: Artifact, id: string, d: Dimension)
    requires ValidArtifact(artifact)
    ensures FixtureDimensionRegression(id, d) in ReasonCodes(artifact) <==>
      exists pair :: pair in artifact.pairs && pair.id == id && Regresses(pair.body, d)
  {
    hide FixtureReasons, MedianReasons, Regresses;
    DimensionListed(d);
    var pairs := artifact.pairs;
    if pair :| pair in pairs && pair.id == id && Regresses(pair.body, d) {
      var k :| 0 <= k < |pairs| && pairs[k] == pair;
    }
    if k :| 0 <= k < |pairs| && pairs[k].id == id && Regresses(pairs[k].body, d) {
      assert pairs[k] in pairs;
    }
  }
}
