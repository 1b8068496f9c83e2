/** rankCatalogMatches: which catalog result is accepted, offered for review, or neither. */
module CatalogAcceptance {
  import opened Collections
  import opened StableSorting
  import opened CatalogClusters
  import opened CatalogFamilies
  import opened CatalogRanking

  datatype Status = Accepted | Review | Unavailable

  datatype MatchResult = MatchResult(status: Status, song: Option<Song>, alternatives: seq<Song>)

  // ---------- the kinds of match ----------

  predicate Clean(c: Comparison) {
    !c.isrcConflict && !c.versionConflict && !c.yearConflict
  }

  function IdentifierCompatible(candidate: Candidate): Match -> bool {
    (m: Match) =>
      && m.comparison.isrcMatch && m.comparison.artistExact
      && (m.comparison.titleExact || m.comparison.baseTitleExact || m.comparison.compactTitleExact)
      && CompatibleDuration(candidate.durationMs, m.song.durationInMillis)
      && !m.comparison.versionConflict && !m.comparison.yearConflict
  }

  function MetadataCompatible(candidate: Candidate): Match -> bool {
    (m: Match) =>
      && !m.comparison.isrcConflict && m.comparison.artistExact && m.comparison.titleExact
      && (candidate.album != "" || candidate.durationMs != 0)
      && (candidate.album == "" || m.comparison.albumExact)
      && (candidate.durationMs == 0 || m.comparison.durationExact)
      && !m.comparison.versionConflict && !m.comparison.yearConflict
  }

  predicate IsDirectReview(m: Match) {
    && !m.comparison.isrcConflict && !m.comparison.versionConflict
    && (m.comparison.titleExact || m.comparison.baseTitleExact || m.comparison.compactTitleExact || m.comparison.partStemExact)
    && m.comparison.artistCompatible
  }

  function DirectReview(): Match -> bool {
    (m: Match) => IsDirectReview(m)
  }

  function TitleReview(): Match -> bool {
    (m: Match) => !m.comparison.isrcConflict && (m.comparison.titleExact || m.comparison.baseTitleExact)
  }

  /** Neither ISRC nor duration nor version label: only such candidates reach the family resolver. */
  predicate IsSparse(candidate: Candidate) {
    candidate.isrc == "" && candidate.durationMs == 0 && candidate.versionLabel == ""
  }

  function ExactTitle(): Match -> bool {
    (m: Match) => m.comparison.artistExact && m.comparison.titleExact && Clean(m.comparison)
  }

  predicate SharesIsrc(rules: Rules, m: Match, exact: seq<Match>) {
    rules.isrcKey(m.song) != "" && exists e :: e in exact && rules.isrcKey(e.song) == rules.isrcKey(m.song)
  }

  function StableBaseTitle(rules: Rules, exact: seq<Match>): Match -> bool {
    (m: Match) =>
      && m.comparison.artistExact && !m.comparison.titleExact && m.comparison.baseTitleExact && Clean(m.comparison)
      && SharesIsrc(rules, m, exact)
  }

  function StrongCredit(): Match -> bool {
    (m: Match) =>
      && Clean(m.comparison)
      && (m.comparison.artistCollaboratorSetExact || m.comparison.artistCatalogRolePrefixedSetExact) && m.comparison.titleExact
  }

  function LooseCredit(): Match -> bool {
    (m: Match) =>
      && Clean(m.comparison)
      && ((m.comparison.artistExact && m.comparison.catalogFeatureCreditTitleVariant)
          || (m.comparison.artistCreditContainsCandidate && m.comparison.titleExact))
  }

  function OnAlbum(): Match -> bool {
    (m: Match) => m.comparison.albumExact
  }

  function NotUnsafe(rules: Rules): Match -> bool {
    (m: Match) => !rules.unsafeLoose(m.song)
  }

  function Sparse(candidate: Candidate, ranked: seq<Match>, p: Match -> bool): (r: seq<Match>)
    ensures forall m | m in r :: m in ranked && p(m)
  {
    if IsSparse(candidate) then Filter(ranked, p) else []
  }

  /** Exact titles, and base titles that an exact title vouches for with the same ISRC. */
  function RecordingFamily(rules: Rules, candidate: Candidate, ranked: seq<Match>): seq<Match> {
    var exact := Sparse(candidate, ranked, ExactTitle());
    exact + Sparse(candidate, ranked, StableBaseTitle(rules, exact))
  }

  function OnlyAlbum(candidate: Candidate, matches: seq<Match>, otherwise: Match -> bool): (r: seq<Match>)
    ensures forall m | m in r :: m in matches
  {
    if candidate.album != "" then Filter(matches, OnAlbum()) else Filter(matches, otherwise)
  }

  function Anything(): Match -> bool {
    (m: Match) => true
  }

  /** Exactly one match of a kind, and it is the best ranked result. */
  predicate UniqueBest(matches: seq<Match>, best: Match) {
    |matches| == 1 && matches[0].song.id == best.song.id
  }

  /** A set of results identifies a recording: on the album, or by corroboration without it. */
  ghost predicate Resolves(rules: Rules, candidate: Candidate, album: seq<Match>, all: seq<Match>, allowSingleton: bool) {
    Identifies(rules, album, allowSingleton) || (candidate.album != "" && Identifies(rules, all, false))
  }

  /** What such results resolve to: the album comes first. */
  ghost predicate StandsFor(rules: Rules, album: seq<Match>, all: seq<Match>, allowSingleton: bool, r: Match) {
    if Identifies(rules, album, allowSingleton) then Represents(rules, album, r) else Represents(rules, all, r)
  }

  /** When a result is accepted: a unique identifier, unique exact metadata, or a recording family of a sparse candidate. */
  ghost predicate Acceptable(rules: Rules, candidate: Candidate, ranked: seq<Match>) {
    && |ranked| > 0
    && (|| BestIsUnique(candidate, ranked)
        || ResolvesTitle(rules, candidate, ranked)
        || ResolvesStrongCredit(rules, candidate, ranked)
        || ResolvesLooseCredit(rules, candidate, ranked))
  }

  function TitleMatches(rules: Rules, candidate: Candidate, ranked: seq<Match>): seq<Match> {
    OnlyAlbum(candidate, RecordingFamily(rules, candidate, ranked), Anything())
  }

  function StrongMatches(rules: Rules, candidate: Candidate, ranked: seq<Match>): seq<Match> {
    OnlyAlbum(candidate, Sparse(candidate, ranked, StrongCredit()), NotDerived(rules))
  }

  function LooseMatches(rules: Rules, candidate: Candidate, ranked: seq<Match>): seq<Match> {
    OnlyAlbum(candidate, Sparse(candidate, ranked, LooseCredit()), NotUnsafe(rules))
  }

  ghost predicate ResolvesTitle(rules: Rules, candidate: Candidate, ranked: seq<Match>) {
    Resolves(rules, candidate, TitleMatches(rules, candidate, ranked), RecordingFamily(rules, candidate, ranked), true)
  }

  ghost predicate ResolvesStrongCredit(rules: Rules, candidate: Candidate, ranked: seq<Match>) {
    Resolves(rules, candidate, StrongMatches(rules, candidate, ranked), Sparse(candidate, ranked, StrongCredit()), true)
  }

  ghost predicate ResolvesLooseCredit(rules: Rules, candidate: Candidate, ranked: seq<Match>) {
    Resolves(rules, candidate, LooseMatches(rules, candidate, ranked), Sparse(candidate, ranked, LooseCredit()), candidate.album != "")
  }

  /** What a sparse candidate resolves to: titles before strong credits before loose credits. */
  ghost predicate SparseChoice(rules: Rules, candidate: Candidate, ranked: seq<Match>, r: Match) {
    if ResolvesTitle(rules, candidate, ranked) then
      StandsFor(rules, TitleMatches(rules, candidate, ranked), RecordingFamily(rules, candidate, ranked), true, r)
    else if ResolvesStrongCredit(rules, candidate, ranked) then
      StandsFor(rules, StrongMatches(rules, candidate, ranked), Sparse(candidate, ranked, StrongCredit()), true, r)
    else
      StandsFor(rules, LooseMatches(rules, candidate, ranked), Sparse(candidate, ranked, LooseCredit()), candidate.album != "", r)
  }

  ghost predicate BestIsUnique(candidate: Candidate, ranked: seq<Match>)
    requires |ranked| > 0
  {
    || UniqueBest(Filter(ranked, IdentifierCompatible(candidate)), ranked[0])
    || UniqueBest(Filter(ranked, MetadataCompatible(candidate)), ranked[0])
  }

  /** Which result is accepted: the best ranked one when it is unique of its kind, otherwise what the families resolve to. */
  ghost predicate IsChosen(rules: Rules, candidate: Candidate, ranked: seq<Match>, r: Match)
    requires |ranked| > 0
  {
    if BestIsUnique(candidate, ranked) then r == ranked[0] else SparseChoice(rules, candidate, ranked, r)
  }

  /** The decision leaves no freedom. */
  lemma ChoiceIsUnique(rules: Rules, candidate: Candidate, ranked: seq<Match>, r: Match, r': Match)
    requires |ranked| > 0 && IsChosen(rules, candidate, ranked, r) && IsChosen(rules, candidate, ranked, r')
    ensures r == r'
  {
    hide ResolvesTitle, ResolvesStrongCredit, ResolvesLooseCredit, BestIsUnique, TitleMatches, StrongMatches, LooseMatches,
         RecordingFamily, Sparse, Represents, Identifies;
    forall matches | Represents(rules, matches, r) && Represents(rules, matches, r') ensures r == r' {
      RepresentativeIsUnique(rules, matches, r, r');
    }
  }

  // ---------- acceptance ----------

  method ResolveFamily(rules: Rules, candidate: Candidate, album: seq<Match>, all: seq<Match>, allowSingleton: bool)
    returns (r: Option<Match>)
    requires Distinct(album) && Distinct(all) && forall m | m in album :: m in all
    ensures r.Some? <==> Resolves(rules, candidate, album, all, allowSingleton)
    ensures r.Some? ==> r.value in all && StandsFor(rules, album, all, allowSingleton, r.value)
  {
    hide Identifies, Represents;
    r := SelectCanonicalSparseMatch(rules, album, allowSingleton);
    if r.None? && candidate.album != "" {
      r := SelectCanonicalSparseMatch(rules, all, false);
    }
  }

  lemma RankedIsDistinct(texts: Texts, candidate: Candidate, songs: seq<Song>, ranked: seq<Match>)
    requires IsRanking(texts, candidate, songs, ranked)
    ensures Distinct(ranked)
  {
  }

  lemma OnlyAlbumDistinct(candidate: Candidate, matches: seq<Match>, otherwise: Match -> bool)
    requires Distinct(matches)
    ensures Distinct(OnlyAlbum(candidate, matches, otherwise))
  {
    FilterDistinct(matches, OnAlbum());
    FilterDistinct(matches, otherwise);
  }

  lemma RecordingFamilyDistinct(rules: Rules, candidate: Candidate, ranked: seq<Match>)
    requires Distinct(ranked)
    ensures Distinct(RecordingFamily(rules, candidate, ranked))
  {
    var exact := Sparse(candidate, ranked, ExactTitle());
    var stable := Sparse(candidate, ranked, StableBaseTitle(rules, exact));
    FilterDistinct(ranked, ExactTitle());
    FilterDistinct(ranked, StableBaseTitle(rules, exact));
    hide Sparse;
    forall i, j | 0 <= i < |exact| && 0 <= j < |stable| ensures exact[i] != stable[j] {
      assert exact[i] in exact && stable[j] in stable;
    }
  }

  /** Title and artist tie an accepted result to the candidate. */
  predicate IsBound(c: Comparison) {
    || (c.artistExact && (c.titleExact || c.baseTitleExact || c.compactTitleExact || c.catalogFeatureCreditTitleVariant))
    || ((c.artistCollaboratorSetExact || c.artistCatalogRolePrefixedSetExact || c.artistCreditContainsCandidate) && c.titleExact)
  }

  method ResolveSparse(rules: Rules, candidate: Candidate, ranked: seq<Match>) returns (r: Option<Match>)
    requires Distinct(ranked)
    ensures r.Some? <==>
      (ResolvesTitle(rules, candidate, ranked) || ResolvesStrongCredit(rules, candidate, ranked)
       || ResolvesLooseCredit(rules, candidate, ranked))
    ensures r.Some? ==> SparseChoice(rules, candidate, ranked, r.value)
    ensures r.Some? ==> r.value in ranked && Clean(r.value.comparison) && IsBound(r.value.comparison) && IsSparse(candidate)
  {
    hide Resolves, StandsFor, Distinct, OnlyAlbum, Sparse, RecordingFamily;
    var family := RecordingFamily(rules, candidate, ranked);
    RecordingFamilyDistinct(rules, candidate, ranked);
    OnlyAlbumDistinct(candidate, family, Anything());
    FamilyIsClean(rules, candidate, ranked);
    r := ResolveFamily(rules, candidate, TitleMatches(rules, candidate, ranked), family, true);
    if r.Some? { return; }
    var strong := Sparse(candidate, ranked, StrongCredit());
    SparseIsClean(candidate, ranked, StrongCredit());
    OnlyAlbumDistinct(candidate, strong, NotDerived(rules));
    r := ResolveFamily(rules, candidate, StrongMatches(rules, candidate, ranked), strong, true);
    if r.Some? { return; }
    var loose := Sparse(candidate, ranked, LooseCredit());
    SparseIsClean(candidate, ranked, LooseCredit());
    OnlyAlbumDistinct(candidate, loose, NotUnsafe(rules));
    r := ResolveFamily(rules, candidate, LooseMatches(rules, candidate, ranked), loose, candidate.album != "");
  }

  lemma SparseIsClean(candidate: Candidate, ranked: seq<Match>, p: Match -> bool)
    requires Distinct(ranked) && forall m: Match | p(m) :: Clean(m.comparison) && IsBound(m.comparison)
    ensures Distinct(Sparse(candidate, ranked, p))
    ensures forall m | m in Sparse(candidate, ranked, p) :: m in ranked && Clean(m.comparison) && IsBound(m.comparison) && IsSparse(candidate)
  {
    FilterDistinct(ranked, p);
  }

  lemma FamilyIsClean(rules: Rules, candidate: Candidate, ranked: seq<Match>)
    requires Distinct(ranked)
    ensures forall m | m in RecordingFamily(rules, candidate, ranked) ::
      m in ranked && Clean(m.comparison) && IsBound(m.comparison) && IsSparse(candidate)
  {
    var exact := Sparse(candidate, ranked, ExactTitle());
    SparseIsClean(candidate, ranked, ExactTitle());
    SparseIsClean(candidate, ranked, StableBaseTitle(rules, exact));
    hide Sparse;
  }

  /** The unique match of a kind is the best ranked result itself. */
  lemma UniqueBestIsBest(texts: Texts, candidate: Candidate, songs: seq<Song>, ranked: seq<Match>, p: Match -> bool)
    requires IsRanking(texts, candidate, songs, ranked) && |ranked| > 0
    requires UniqueBest(Filter(ranked, p), ranked[0])
    ensures p(ranked[0])
  {
    var only := Filter(ranked, p)[0];
    assert only in Filter(ranked, p);
    var i :| 0 <= i < |ranked| && ranked[i] == only;
    assert i == 0;
  }

  function Songs(matches: seq<Match>): seq<Song> {
    Mapped(matches, (m: Match) => m.song)
  }

  function OtherSong(id: string): Match -> bool {
    (m: Match) => m.song.id != id
  }

  function FirstFew(songs: seq<Song>, limit: nat): (r: seq<Song>)
    ensures |r| <= limit && forall song | song in r :: song in songs
  {
    if |songs| <= limit then songs else songs[..limit]
  }

  /** The next ranked results with another id. */
  function Alternatives(ranked: seq<Match>, id: string, limit: nat): (r: seq<Song>)
    ensures |r| <= limit && forall song | song in r :: song.id != id && exists m :: m in ranked && m.song == song
  {
    var others := Filter(ranked, OtherSong(id));
    assert forall k | 0 <= k < |others| :: others[k] in others;
    FirstFew(Songs(others), limit)
  }

  /** The result that is accepted, if any: sound and complete for the three acceptance paths. */
  method Accept(rules: Rules, texts: Texts, candidate: Candidate, songs: seq<Song>, ranked: seq<Match>) returns (r: Option<Match>)
    requires IsRanking(texts, candidate, songs, ranked) && |ranked| > 0
    ensures r.Some? <==> Acceptable(rules, candidate, ranked)
    ensures r.Some? ==> IsChosen(rules, candidate, ranked, r.value)
    ensures r.Some? ==> r.value in ranked && Clean(r.value.comparison) && IsBound(r.value.comparison)
    ensures r.Some? && !IsSparse(candidate) ==> r.value == ranked[0]
  {
    hide ResolvesTitle, ResolvesStrongCredit, ResolvesLooseCredit, SparseChoice, UniqueBest;
    var best := ranked[0];
    var identifierMatches := Filter(ranked, IdentifierCompatible(candidate));
    var metadataMatches := Filter(ranked, MetadataCompatible(candidate));
    RankedIsDistinct(texts, candidate, songs, ranked);
    var sparse := ResolveSparse(rules, candidate, ranked);
    var exactIdentifier := UniqueBest(identifierMatches, best);
    var exactMetadata := UniqueBest(metadataMatches, best);
    if exactIdentifier || exactMetadata {
      if exactIdentifier { UniqueBestIsBest(texts, candidate, songs, ranked, IdentifierCompatible(candidate)); }
      if exactMetadata { UniqueBestIsBest(texts, candidate, songs, ranked, MetadataCompatible(candidate)); }
      return Some(best);
    }
    return sparse;
  }

  // ---------- the result ----------

  /** A song that the caller sees is a merged song, and the primary one is not repeated among the alternatives. */
  ghost predicate WellFormed(songs: seq<Song>, r: MatchResult) {
    && (r.song.Some? ==> r.song.value in songs && forall a | a in r.alternatives :: a.id != r.song.value.id)
    && (forall a | a in r.alternatives :: a in songs)
    && |r.alternatives| <= 4
    && (r.status.Accepted? ==> r.song.Some?) && (r.status.Unavailable? ==> r.song.None?)
  }

  /** m is the best ranked match of its kind. */
  ghost predicate BestOf(ranked: seq<Match>, p: Match -> bool, m: Match) {
    exists k :: 0 <= k < |ranked| && ranked[k] == m && p(m) && forall j | 0 <= j < k :: !p(ranked[j])
  }

  lemma {:induction false} FilterHead(ranked: seq<Match>, p: Match -> bool)
    requires |Filter(ranked, p)| > 0
    ensures BestOf(ranked, p, Filter(ranked, p)[0])
  {
    var before, last := ranked[..|ranked| - 1], ranked[|ranked| - 1];
    assert ranked == before + [last];
    FilterOneMore(before, last, p);
    if |Filter(before, p)| > 0 {
      FilterHead(before, p);
      var k :| 0 <= k < |before| && before[k] == Filter(before, p)[0] && forall j | 0 <= j < k :: !p(before[j]);
      assert ranked[k] == Filter(ranked, p)[0];
    } else {
      forall j | 0 <= j < |before| ensures !p(ranked[j]) {
        assert ranked[j] == before[j];
        assert before[j] !in Filter(before, p);
      }
      assert ranked[|before|] == last;
    }
  }

  /** Only one result has the title, and its version is right. */
  predicate IsOnlyTitle(titles: seq<Match>) {
    |titles| == 1 && !titles[0].comparison.versionConflict
  }

  /** What is shown without acceptance: the best direct review; or, for choosing, the results with the title; or just the best results. */
  ghost predicate IsOffer(ranked: seq<Match>, r: MatchResult) {
    var titles := Filter(ranked, TitleReview());
    if exists m :: m in ranked && IsDirectReview(m) then
      && r.status.Review?
      && exists m :: BestOf(ranked, DirectReview(), m) && r.song == Some(m.song) && r.alternatives == Alternatives(ranked, m.song.id, 4)
    else
      && r.song.None? && (r.status.Review? <==> |titles| > 0) && (r.status.Unavailable? <==> |titles| == 0)
      && r.alternatives ==
         if IsOnlyTitle(titles) then [titles[0].song] + Alternatives(ranked, titles[0].song.id, 3)
         else FirstFew(Songs(if |titles| > 0 then titles else ranked), 4)
  }

  method PrimaryWithAlternatives(texts: Texts, candidate: Candidate, songs: seq<Song>, ranked: seq<Match>, status: Status, primary: Match)
    returns (r: MatchResult)
    requires IsRanking(texts, candidate, songs, ranked) && primary in ranked && !status.Unavailable?
    ensures WellFormed(songs, r)
    ensures r == MatchResult(status, Some(primary.song), Alternatives(ranked, primary.song.id, 4))
  {
    r := MatchResult(status, Some(primary.song), Alternatives(ranked, primary.song.id, 4));
  }

  lemma TitleReviewsAreSongs(texts: Texts, candidate: Candidate, songs: seq<Song>, ranked: seq<Match>, titles: seq<Match>)
    requires IsRanking(texts, candidate, songs, ranked) && titles == Filter(ranked, TitleReview())
    ensures forall song | song in Songs(titles) :: song in songs
    ensures forall song | song in Songs(ranked) :: song in songs
    ensures forall song, id | song in Alternatives(ranked, id, 3) :: song in songs
    ensures |titles| > 0 ==> titles[0].song in songs
  {
    hide Filter, Alternatives;
    assert forall k | 0 <= k < |titles| :: titles[k] in titles;
    assert forall k | 0 <= k < |ranked| :: ranked[k] in ranked;
  }

  /** What is shown when there is no direct review, whichever branch shows it. */
  lemma OfferWithoutDirect(texts: Texts, candidate: Candidate, songs: seq<Song>, ranked: seq<Match>, titles: seq<Match>, r: MatchResult)
    requires IsRanking(texts, candidate, songs, ranked) && titles == Filter(ranked, TitleReview())
    requires forall m | m in ranked :: !IsDirectReview(m)
    requires r.song.None? && !r.status.Accepted? && (r.status.Review? <==> |titles| > 0)
    requires r.alternatives ==
      if IsOnlyTitle(titles) then [titles[0].song] + Alternatives(ranked, titles[0].song.id, 3)
      else FirstFew(Songs(if |titles| > 0 then titles else ranked), 4)
    ensures WellFormed(songs, r) && IsOffer(ranked, r)
  {
    hide IsRanking, Filter, BestOf, Alternatives, FirstFew, Songs, TitleReview, IsDirectReview;
    TitleReviewsAreSongs(texts, candidate, songs, ranked, titles);
  }

  method ReviewOrUnavailable(texts: Texts, candidate: Candidate, songs: seq<Song>, ranked: seq<Match>) returns (r: MatchResult)
    requires IsRanking(texts, candidate, songs, ranked) && |ranked| > 0
    ensures WellFormed(songs, r) && !r.status.Accepted? && IsOffer(ranked, r)
    ensures r.song.Some? ==> exists m :: m in ranked && m.song == r.song.value && IsDirectReview(m)
  {
    hide Filter, Alternatives, FirstFew, Songs;
    var direct := Filter(ranked, DirectReview());
    if |direct| > 0 {
      assert direct[0] in direct;
      FilterHead(ranked, DirectReview());
      r := PrimaryWithAlternatives(texts, candidate, songs, ranked, Review, direct[0]);
      return;
    }
    assert forall m | m in ranked :: m !in direct;
    var titleReviews := Filter(ranked, TitleReview());
    if |titleReviews| == 1 && !titleReviews[0].comparison.versionConflict {
      var only := titleReviews[0];
      var others := Alternatives(ranked, only.song.id, 3);
      r := MatchResult(Review, None, [only.song] + others);
    } else if |titleReviews| > 0 {
      r := MatchResult(Review, None, FirstFew(Songs(titleReviews), 4));
    } else {
      r := MatchResult(Unavailable, None, FirstFew(Songs(ranked), 4));
    }
    OfferWithoutDirect(texts, candidate, songs, ranked, titleReviews, r);
  }

  /** The best of its kind is in the ranking and unique. */
  lemma BestOfIsUnique(ranked: seq<Match>, p: Match -> bool, m: Match, m': Match)
    requires BestOf(ranked, p, m) && BestOf(ranked, p, m')
    ensures m == m' && m in ranked && p(m)
  {
  }

  /** The whole answer for a ranking. */
  ghost predicate Answers(rules: Rules, candidate: Candidate, found: seq<Song>, ranked: seq<Match>, r: MatchResult) {
    if |ranked| == 0 then r == MatchResult(Unavailable, None, FirstFew(found, 4))
    else if Acceptable(rules, candidate, ranked) then
      exists m :: m in ranked && IsChosen(rules, candidate, ranked, m)
        && r == MatchResult(Accepted, Some(m.song), Alternatives(ranked, m.song.id, 4))
    else !r.status.Accepted? && IsOffer(ranked, r)
  }

  /** A ranking has one answer: whatever meets the description is the result. */
  lemma AnswerIsUnique(rules: Rules, candidate: Candidate, found: seq<Song>, ranked: seq<Match>, r: MatchResult, r': MatchResult)
    requires Answers(rules, candidate, found, ranked, r) && Answers(rules, candidate, found, ranked, r')
    ensures r == r'
  {
    hide Acceptable, IsChosen, Alternatives, FirstFew, BestOf, IsDirectReview, Filter;
    if |ranked| == 0 {
    } else if Acceptable(rules, candidate, ranked) {
      var m :| m in ranked && IsChosen(rules, candidate, ranked, m)
        && r == MatchResult(Accepted, Some(m.song), Alternatives(ranked, m.song.id, 4));
      var m' :| m' in ranked && IsChosen(rules, candidate, ranked, m')
        && r' == MatchResult(Accepted, Some(m'.song), Alternatives(ranked, m'.song.id, 4));
      ChoiceIsUnique(rules, candidate, ranked, m, m');
    } else if exists m :: m in ranked && IsDirectReview(m) {
      var m :| BestOf(ranked, DirectReview(), m) && r.song == Some(m.song) && r.alternatives == Alternatives(ranked, m.song.id, 4);
      var m' :| BestOf(ranked, DirectReview(), m') && r'.song == Some(m'.song) && r'.alternatives == Alternatives(ranked, m'.song.id, 4);
      BestOfIsUnique(ranked, DirectReview(), m, m');
    }
  }

  /** What a song must show to be offered for review on its own. */
  predicate Reviewable(c: Comparison) {
    && c.artistCompatible && (c.titleExact || c.baseTitleExact || c.compactTitleExact || c.partStemExact)
    && !c.isrcConflict && !c.versionConflict
  }

  /** No song outscores the first of the ranking. */
  lemma FirstOutscores(rules: Rules, texts: Texts, candidate: Candidate, songs: seq<Song>, ranked: seq<Match>)
    requires |ranked| > 0 && BestScoreFirst(ranked) && RanksSongs(rules, texts, candidate, songs, ranked)
    ensures forall song | song in songs ::
      ScoreOf(rules, texts, candidate, song) <= ScoreOf(rules, texts, candidate, ranked[0].song)
  {
    hide ScoreOf;
    forall song | song in songs ensures ScoreOf(rules, texts, candidate, song) <= ScoreOf(rules, texts, candidate, ranked[0].song) {
      var m :| m in ranked && m.song == song;
      var k :| 0 <= k < |ranked| && ranked[k] == m;
      assert ranked[0] in ranked;
    }
  }

  /** Nor does a reviewable song outscore the one that is shown for review. */
  lemma ReviewedOutscores(rules: Rules, texts: Texts, candidate: Candidate, songs: seq<Song>, ranked: seq<Match>, r: MatchResult)
    requires IsRanking(texts, candidate, songs, ranked)
    requires BestScoreFirst(ranked) && RanksSongs(rules, texts, candidate, songs, ranked) && IsOffer(ranked, r)
    ensures r.song.Some? ==>
      forall song | song in songs && Reviewable(Compare(texts, candidate, song)) ::
        ScoreOf(rules, texts, candidate, song) <= ScoreOf(rules, texts, candidate, r.song.value)
  {
    hide ScoreOf, Compare, IsOffer, BestOf, BestScoreFirst, IsDirectReview, Reviewable;
    if r.song.Some? {
      var best := OfferedIsBest(ranked, r);
      forall song | song in songs && Reviewable(Compare(texts, candidate, song))
        ensures ScoreOf(rules, texts, candidate, song) <= ScoreOf(rules, texts, candidate, r.song.value)
      {
        var m :| m in ranked && m.song == song;
        BestOutscores(ranked, best, m) by { ReviewableIsDirect(m); }
      }
    }
  }

  lemma OfferedIsBest(ranked: seq<Match>, r: MatchResult) returns (best: Match)
    requires IsOffer(ranked, r) && r.song.Some?
    ensures BestOf(ranked, DirectReview(), best) && best in ranked && r.song == Some(best.song)
  {
    hide Filter, Alternatives, FirstFew, Songs, IsDirectReview;
    best :| BestOf(ranked, DirectReview(), best) && r.song == Some(best.song);
  }

  lemma ReviewableIsDirect(m: Match)
    ensures Reviewable(m.comparison) <==> IsDirectReview(m)
  {
  }

  lemma BestOutscores(ranked: seq<Match>, best: Match, m: Match)
    requires BestScoreFirst(ranked) && BestOf(ranked, DirectReview(), best) && m in ranked && IsDirectReview(m)
    ensures m.score <= best.score
  {
    hide IsDirectReview;
    var i :| 0 <= i < |ranked| && ranked[i] == best && DirectReview()(best) && forall j | 0 <= j < i :: !DirectReview()(ranked[j]);
    var k :| 0 <= k < |ranked| && ranked[k] == m;
    assert DirectReview()(ranked[k]);
  }

  /** The result of a search: accepted exactly when acceptable, and whatever is accepted conflicts in nothing. */
  method RankCatalogMatches(rules: Rules, texts: Texts, candidate: Candidate, found: seq<Song>) returns (r: MatchResult)
    ensures var ranked := RankSongs(rules, texts, candidate, Merged(found));
      Answers(rules, candidate, found, ranked, r) && (r.status.Accepted? <==> Acceptable(rules, candidate, ranked))
    ensures BestScoreFirst(RankSongs(rules, texts, candidate, Merged(found)))
    ensures RanksSongs(rules, texts, candidate, Merged(found), RankSongs(rules, texts, candidate, Merged(found)))
    ensures r.status.Accepted? && (candidate.isrc != "" || candidate.durationMs != 0 || candidate.versionLabel != "") ==>
      forall song | song in Merged(found) ::
        ScoreOf(rules, texts, candidate, song) <= ScoreOf(rules, texts, candidate, r.song.value)
    ensures r.status.Review? && r.song.Some? ==>
      forall song | song in Merged(found) && Reviewable(Compare(texts, candidate, song)) ::
        ScoreOf(rules, texts, candidate, song) <= ScoreOf(rules, texts, candidate, r.song.value)
    ensures |Merged(found)| > 0 ==> WellFormed(Merged(found), r)
    ensures r.status.Accepted? ==>
      Clean(Compare(texts, candidate, r.song.value)) && IsBound(Compare(texts, candidate, r.song.value))
    ensures r.song.Some? ==>
      !Compare(texts, candidate, r.song.value).isrcConflict && !Compare(texts, candidate, r.song.value).versionConflict
  {
    hide Acceptable, IsChosen, IsOffer, Score, IsBound, Merged, BestScoreFirst, RanksSongs, ScoreOf, Compare, Reviewable;
    assert Flatten([found]) == found by { assert Flatten<Song>([]) == []; }
    var songs := MergeCatalogSongs([found]);
    MergedIsDistinct(found);
    RankIsRanking(rules, texts, candidate, songs);
    RankIsOrdered(rules, texts, candidate, songs);
    var ranked := RankSongs(rules, texts, candidate, songs);
    hide RankSongs;
    if |ranked| == 0 {
      NothingAcceptable(rules, candidate, ranked);
      return MatchResult(Unavailable, None, FirstFew(found, 4));
    }
    var accepted := Accept(rules, texts, candidate, songs, ranked);
    if accepted.Some? {
      r := PrimaryWithAlternatives(texts, candidate, songs, ranked, Accepted, accepted.value);
      FirstOutscores(rules, texts, candidate, songs, ranked);
    } else {
      r := ReviewOrUnavailable(texts, candidate, songs, ranked);
      ReviewedOutscores(rules, texts, candidate, songs, ranked, r);
    }
  }

  lemma NothingAcceptable(rules: Rules, candidate: Candidate, ranked: seq<Match>)
    requires |ranked| == 0
    ensures !Acceptable(rules, candidate, ranked)
  {
  }
}
