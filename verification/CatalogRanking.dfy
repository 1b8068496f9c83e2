/** The front of rankCatalogMatches: merge the results by id, compare them with the candidate, rank them by score. */
module CatalogRanking {
  import opened Collections
  import opened StableSorting
  import opened CatalogClusters
  import opened CatalogFamilies

  /** An absent ISRC, album or version label is the empty string, an absent duration is zero. */
  datatype Candidate = Candidate(isrc: string, album: string, durationMs: int, versionLabel: string, details: string)

  /** Text normalisation and comparison: given functions. */
  datatype Texts = Texts(upperCase: string -> string, compare: (Candidate, Song) -> Comparison)

  // ---------- merging ----------

  function MergedIds(songs: seq<Song>): set<string> {
    set song | song in songs :: song.id
  }

  /** The first song of every id; songs without an id are dropped. */
  function Merged(songs: seq<Song>): (r: seq<Song>)
    ensures forall song | song in r :: song in songs && song.id != ""
  {
    if |songs| == 0 then []
    else
      var before, last := Merged(songs[..|songs| - 1]), songs[|songs| - 1];
      assert songs == songs[..|songs| - 1] + [last];
      if last.id == "" || last.id in MergedIds(before) then before else before + [last]
  }

  ghost predicate DistinctIds(songs: seq<Song>) {
    forall i, j | 0 <= i < j < |songs| :: songs[i].id != songs[j].id
  }

  lemma {:induction false} MergedIsDistinct(songs: seq<Song>)
    ensures DistinctIds(Merged(songs))
  {
    if |songs| > 0 {
      MergedIsDistinct(songs[..|songs| - 1]);
      var before := Merged(songs[..|songs| - 1]);
      forall i | 0 <= i < |before| ensures before[i].id in MergedIds(before) {}
    }
  }

  /** Merging keeps exactly the first song of each id. */
  lemma {:induction false} MergedKeepsFirst(songs: seq<Song>, i: nat)
    requires i < |songs| && songs[i].id != "" && forall j | 0 <= j < i :: songs[j].id != songs[i].id
    ensures songs[i] in Merged(songs)
  {
    var n := |songs| - 1;
    var before := Merged(songs[..n]);
    if i < n {
      MergedKeepsFirst(songs[..n], i);
    } else {
      forall song | song in before ensures song.id != songs[n].id {
        var j :| 0 <= j < n && songs[j] == song;
      }
    }
  }

  lemma MergedOneMore(songs: seq<Song>, song: Song)
    ensures Merged(songs + [song]) ==
      if song.id == "" || song.id in MergedIds(Merged(songs)) then Merged(songs) else Merged(songs) + [song]
    ensures MergedIds(Merged(songs) + [song]) == MergedIds(Merged(songs)) + {song.id}
  {
    assert (songs + [song])[..|songs|] == songs;
    assert forall x :: x in Merged(songs) + [song] <==> x in Merged(songs) || x == song;
  }

  method MergeGroup(group: seq<Song>, ghost earlier: seq<Song>, values: seq<Song>, merged: map<string, Song>)
    returns (values': seq<Song>, merged': map<string, Song>)
    requires values == Merged(earlier) && merged.Keys == MergedIds(values)
    ensures values' == Merged(earlier + group) && merged'.Keys == MergedIds(values')
  {
    hide Merged, MergedIds;
    values', merged' := values, merged;
    assert earlier + group[..0] == earlier;
    for i := 0 to |group|
      invariant values' == Merged(earlier + group[..i]) && merged'.Keys == MergedIds(values')
    {
      var song := group[i];
      MergedOneMore(earlier + group[..i], song);
      assert earlier + group[..i + 1] == earlier + group[..i] + [song];
      if song.id == "" || song.id in merged' { continue; }
      merged' := merged'[song.id := song];
      values' := values' + [song];
    }
    assert group[..|group|] == group;
  }

  method MergeCatalogSongs(groups: seq<seq<Song>>) returns (values: seq<Song>)
    ensures values == Merged(Flatten(groups))
  {
    values := [];
    var merged: map<string, Song> := map[];
    assert MergedIds([]) == {} && merged.Keys == {};
    for g := 0 to |groups|
      invariant values == Merged(Flatten(groups[..g])) && merged.Keys == MergedIds(values)
    {
      FlattenOneMore(groups[..g], groups[g]);
      assert groups[..g + 1] == groups[..g] + [groups[g]];
      values, merged := MergeGroup(groups[g], Flatten(groups[..g]), values, merged);
    }
    assert groups[..|groups|] == groups;
  }

  // ---------- comparing and ranking ----------

  const DURATION_TOLERANCE := 3000

  predicate CompatibleDuration(candidateMs: int, songMs: int) {
    candidateMs == 0 || songMs == 0 || -DURATION_TOLERANCE <= candidateMs - songMs <= DURATION_TOLERANCE
  }

  predicate IsrcsPresent(candidate: Candidate, song: Song) {
    candidate.isrc != "" && song.isrc != ""
  }

  function Compare(texts: Texts, candidate: Candidate, song: Song): Comparison {
    texts.compare(candidate, song).(
      isrcMatch := IsrcsPresent(candidate, song) && texts.upperCase(candidate.isrc) == texts.upperCase(song.isrc),
      isrcConflict := IsrcsPresent(candidate, song) && texts.upperCase(candidate.isrc) != texts.upperCase(song.isrc),
      durationExact := candidate.durationMs != 0 && song.durationInMillis != 0
                       && CompatibleDuration(candidate.durationMs, song.durationInMillis))
  }

  function Weight(holds: bool, points: int): int {
    if holds then points else 0
  }

  function ArtistScore(exact: bool, compatible: bool): int {
    if exact then 30 else Weight(compatible, 18)
  }

  function TitleScore(exact: bool, base: bool, compact: bool, part: bool): int {
    if exact then 40 else if base then 28 else if compact then 24 else Weight(part, 18)
  }

  function Score(c: Comparison, penalty: int): int {
    Weight(c.isrcMatch, 100) - Weight(c.isrcConflict, 200)
    + ArtistScore(c.artistExact, c.artistCompatible)
    + TitleScore(c.titleExact, c.baseTitleExact, c.compactTitleExact, c.partStemExact)
    + Weight(c.albumExact, 15) + Weight(c.durationExact, 10)
    - Weight(c.versionConflict, 100) - Weight(c.yearConflict, 60) - penalty
  }

  function RankOne(rules: Rules, texts: Texts, candidate: Candidate, songs: seq<Song>, i: nat): Match
    requires i < |songs|
  {
    var comparison := Compare(texts, candidate, songs[i]);
    Match(songs[i], i, comparison, Score(comparison, rules.penalty(songs[i])))
  }

  function ScoreKey(): Match -> seq<int> {
    (m: Match) => [-m.score, m.sourceIndex]
  }

  function RankSongs(rules: Rules, texts: Texts, candidate: Candidate, songs: seq<Song>): seq<Match> {
    SortBy(seq(|songs|, i requires 0 <= i < |songs| => RankOne(rules, texts, candidate, songs, i)), ScoreKey())
  }

  /** Every ranked item is one of the merged songs with its own comparison, and no song is ranked twice. */
  ghost predicate IsRanking(texts: Texts, candidate: Candidate, songs: seq<Song>, ranked: seq<Match>) {
    && |ranked| == |songs|
    && (forall m | m in ranked :: m.song in songs && m.comparison == Compare(texts, candidate, m.song))
    && (forall i, j | 0 <= i < j < |ranked| :: ranked[i].song.id != ranked[j].song.id)
  }

  lemma RankIsRanking(rules: Rules, texts: Texts, candidate: Candidate, songs: seq<Song>)
    requires DistinctIds(songs)
    ensures IsRanking(texts, candidate, songs, RankSongs(rules, texts, candidate, songs))
  {
    hide Score, SortBy, Compare;
    var items := seq(|songs|, i requires 0 <= i < |songs| => RankOne(rules, texts, candidate, songs, i));
    var ranked := SortBy(items, ScoreKey());
    assert RankSongs(rules, texts, candidate, songs) == ranked;
    SortKeepsMembers(items, ScoreKey());
    assert Distinct(items);
    SameContents(items, ranked);
    forall i, j | 0 <= i < j < |ranked| ensures ranked[i].song.id != ranked[j].song.id {
      assert ranked[i] in items && ranked[j] in items;
      var k :| 0 <= k < |items| && items[k] == ranked[i];
      var l :| 0 <= l < |items| && items[l] == ranked[j];
    }
  }

  // ---------- what the ranking and the score mean ----------

  /** Higher scores come first, and of equal scores the earlier merged song. */
  ghost predicate BestScoreFirst(ranked: seq<Match>) {
    forall i, j | 0 <= i < j < |ranked| ::
      ranked[i].score > ranked[j].score || (ranked[i].score == ranked[j].score && ranked[i].sourceIndex < ranked[j].sourceIndex)
  }

  /** Every merged song is ranked once, with its place among them and its own score. */
  ghost predicate RanksSongs(rules: Rules, texts: Texts, candidate: Candidate, songs: seq<Song>, ranked: seq<Match>) {
    && (forall m | m in ranked ::
          && m.sourceIndex < |songs| && songs[m.sourceIndex] == m.song
          && m.score == ScoreOf(rules, texts, candidate, m.song))
    && forall song | song in songs :: exists m :: m in ranked && m.song == song
  }

  function ScoreOf(rules: Rules, texts: Texts, candidate: Candidate, song: Song): int {
    Score(Compare(texts, candidate, song), rules.penalty(song))
  }

  lemma SortedItemsOrder(a: Match, b: Match)
    requires !KeyLess(ScoreKey()(b), ScoreKey()(a)) && a.sourceIndex != b.sourceIndex
    ensures a.score > b.score || (a.score == b.score && a.sourceIndex < b.sourceIndex)
  {
    var (x, y) := (ScoreKey()(a), ScoreKey()(b));
    assert x[1..] == [a.sourceIndex] && y[1..] == [b.sourceIndex];
    assert x[0] == -a.score && y[0] == -b.score;
    KeyLessTotal(x, y);
  }

  lemma RankedItems(rules: Rules, texts: Texts, candidate: Candidate, songs: seq<Song>)
    ensures RanksSongs(rules, texts, candidate, songs, RankSongs(rules, texts, candidate, songs))
    ensures SortedBy(RankSongs(rules, texts, candidate, songs), ScoreKey())
  {
    hide Score, SortBy, Compare, KeyLess, ScoreKey, SortedBy;
    var items := seq(|songs|, i requires 0 <= i < |songs| => RankOne(rules, texts, candidate, songs, i));
    SortBySorts(items, ScoreKey());
    SortKeepsMembers(items, ScoreKey());
    forall song | song in songs ensures exists m :: m in SortBy(items, ScoreKey()) && m.song == song {
      var k :| 0 <= k < |songs| && songs[k] == song;
      assert items[k] in items;
    }
  }

  /** The ranking is by score, best first. */
  lemma RankIsOrdered(rules: Rules, texts: Texts, candidate: Candidate, songs: seq<Song>)
    requires DistinctIds(songs)
    ensures BestScoreFirst(RankSongs(rules, texts, candidate, songs))
    ensures RanksSongs(rules, texts, candidate, songs, RankSongs(rules, texts, candidate, songs))
  {
    hide ScoreOf, KeyLess, ScoreKey, RankSongs;
    var ranked := RankSongs(rules, texts, candidate, songs);
    RankedItems(rules, texts, candidate, songs);
    RankIsRanking(rules, texts, candidate, songs);
    forall i, j | 0 <= i < j < |ranked|
      ensures ranked[i].score > ranked[j].score || (ranked[i].score == ranked[j].score && ranked[i].sourceIndex < ranked[j].sourceIndex)
    {
      assert ranked[i] in ranked && ranked[j] in ranked;
      SortedItemsOrder(ranked[i], ranked[j]);
    }
  }

  /** The same ISRC counts 100 and another one costs 200. */
  lemma IsrcPoints(c: Comparison)
    ensures Score(c.(isrcMatch := true), 0) == Score(c.(isrcMatch := false), 0) + 100
    ensures Score(c.(isrcConflict := true), 0) == Score(c.(isrcConflict := false), 0) - 200
  {
    hide ArtistScore, TitleScore;
  }

  /** The album counts 15 and the duration 10. */
  lemma ContextPoints(c: Comparison)
    ensures Score(c.(albumExact := true), 0) == Score(c.(albumExact := false), 0) + 15
    ensures Score(c.(durationExact := true), 0) == Score(c.(durationExact := false), 0) + 10
  {
    hide ArtistScore, TitleScore;
  }

  /** The penalty is taken from everything. */
  lemma PenaltyPoints(c: Comparison, penalty: int)
    ensures Score(c, penalty) == Score(c, 0) - penalty
  {
    hide ArtistScore, TitleScore, Weight;
  }

  /** Another version costs 100, another year 60. */
  lemma ConflictPoints(c: Comparison)
    ensures Score(c.(versionConflict := true), 0) == Score(c.(versionConflict := false), 0) - 100
    ensures Score(c.(yearConflict := true), 0) == Score(c.(yearConflict := false), 0) - 60
  {
    hide ArtistScore, TitleScore;
  }

  /** An exact artist counts 30 and a compatible one 18; of both, the exact one counts. */
  lemma ArtistPoints(c: Comparison)
    requires !c.artistExact && !c.artistCompatible
    ensures Score(c.(artistCompatible := true), 0) == Score(c, 0) + 18
    ensures Score(c.(artistExact := true), 0) == Score(c, 0) + 30
    ensures Score(c.(artistExact := true, artistCompatible := true), 0) == Score(c, 0) + 30
  {
  }

  /** The best agreement of the titles counts, whatever else agrees: 40, 28, 24 or 18. */
  lemma TitlePoints(c: Comparison, base: bool, compact: bool, part: bool)
    requires !c.titleExact && !c.baseTitleExact && !c.compactTitleExact && !c.partStemExact
    ensures Score(c.(partStemExact := true), 0) == Score(c, 0) + 18
    ensures Score(c.(compactTitleExact := true, partStemExact := part), 0) == Score(c, 0) + 24
    ensures Score(c.(baseTitleExact := true, compactTitleExact := compact, partStemExact := part), 0) == Score(c, 0) + 28
    ensures Score(c.(titleExact := true, baseTitleExact := base, compactTitleExact := compact, partStemExact := part), 0)
      == Score(c, 0) + 40
  {
  }

  /** A song that shows none of it scores minus its penalty. */
  lemma NoPoints(c: Comparison, penalty: int)
    requires !c.isrcMatch && !c.isrcConflict && !c.artistExact && !c.artistCompatible && !c.titleExact && !c.baseTitleExact
    requires !c.compactTitleExact && !c.partStemExact && !c.albumExact && !c.durationExact && !c.versionConflict && !c.yearConflict
    ensures Score(c, penalty) == -penalty
  {
  }

  /** Only the ISRC and duration flags are added to the given comparison: an ISRC agrees or conflicts when both are known, in
      any letter case, and durations agree when both are known and lie within three seconds. */
  lemma ComparisonFlags(texts: Texts, candidate: Candidate, song: Song)
    ensures var c, given := Compare(texts, candidate, song), texts.compare(candidate, song);
      && c == given.(isrcMatch := c.isrcMatch, isrcConflict := c.isrcConflict, durationExact := c.durationExact)
      && (c.isrcMatch || c.isrcConflict <==> candidate.isrc != "" && song.isrc != "")
      && (c.isrcMatch ==> texts.upperCase(candidate.isrc) == texts.upperCase(song.isrc))
      && (c.isrcConflict ==> texts.upperCase(candidate.isrc) != texts.upperCase(song.isrc))
      && (c.durationExact <==> candidate.durationMs != 0 && song.durationInMillis != 0
                               && candidate.durationMs - song.durationInMillis <= 3000
                               && song.durationInMillis - candidate.durationMs <= 3000)
  {
  }
}
