/** The choice the sequencer makes at each position, stated without heaps, cursors or stale entries. */
module SequencingPolicy {
  import opened Collections
  import opened PriorityHeap
  import opened PlaylistGroups

  const ARTIST_LOOKAHEAD: nat := 16
  const ALBUM_LOOKAHEAD: nat := 8
  const TRACK_LOOKAHEAD: nat := 4
  const SCORE_EPSILON: real := 0.000000001

  datatype Preference = Smooth | Contrast

  datatype TransitionScore = TransitionScore(value: real, comparedWeight: real)

  /** rows carry the identity keys; transition scores any row after any other (or after nothing). */
  datatype Playlist = Playlist(
    rows: seq<Row>,
    transition: (Option<nat>, nat) -> TransitionScore,
    preference: Preference)

  datatype Proposal = Proposal(artist: Key, album: Key, row: nat, transition: TransitionScore)

  function AbsoluteDifference(x: real, y: real): real {
    if x >= y then x - y else y - x
  }

  /** Whether a group can still be spread out after one of its rows is taken. */
  predicate GroupSafeAfterSelection(selectedRemaining: int, maximumOtherRemaining: int, remainingTotal: nat) {
    selectedRemaining <= remainingTotal / 2 && maximumOtherRemaining <= (remainingTotal + 1) / 2
  }

  /** What the guard means: taking a row of g leaves every group of g's kind placeable without neighbours. */
  ghost predicate SafeChoice(rows: seq<Row>, live: set<nat>, g: Group) {
    var left := |live| - 1;
    && Count(rows, live, g) - 1 <= left / 2
    && forall h | h in Peers(rows, live, g) && h != g :: Count(rows, live, h) <= (left + 1) / 2
  }

  // ---------- which row stands for an album ----------

  /** Does a later candidate row replace the best one so far? */
  predicate BetterRow(preference: Preference, row: nat, score: TransitionScore, best: nat, bestScore: TransitionScore) {
    || (if preference.Smooth? then score.value > bestScore.value + SCORE_EPSILON
        else score.value < bestScore.value - SCORE_EPSILON)
    || (AbsoluteDifference(score.value, bestScore.value) <= SCORE_EPSILON
        && (score.comparedWeight > bestScore.comparedWeight
            || (score.comparedWeight == bestScore.comparedWeight && row < best)))
  }

  function BestRow(list: Playlist, previous: Option<nat>, candidates: seq<nat>): (r: nat)
    requires |candidates| > 0
    ensures r in candidates
  {
    var last := candidates[|candidates| - 1];
    if |candidates| == 1 then last
    else
      var best := BestRow(list, previous, candidates[..|candidates| - 1]);
      if BetterRow(list.preference, last, list.transition(previous, last), best, list.transition(previous, best))
      then last else best
  }

  function StillLive(positions: seq<nat>, live: set<nat>): (r: seq<nat>)
    ensures forall i | i in r :: i in positions && i in live
    ensures forall i | i in positions && i in live :: i in r
  {
    if |positions| == 0 then []
    else
      var last := positions[|positions| - 1];
      StillLive(positions[..|positions| - 1], live) + (if last in live then [last] else [])
  }

  /** The first few rows of an album that are still to be placed. */
  function FirstAvailable(positions: seq<nat>, live: set<nat>, maximum: nat): (r: seq<nat>)
    ensures |r| <= maximum
    ensures forall i | i in r :: i in positions && i in live
  {
    var available := StillLive(positions, live);
    if |available| <= maximum then available
    else assert forall k | 0 <= k < maximum :: available[k] in available; available[..maximum]
  }

  function AlbumCandidates(list: Playlist, live: set<nat>, artist: Key, album: Key): seq<nat> {
    FirstAvailable(Positions(list.rows, OfArtistAlbum(artist, album)), live, TRACK_LOOKAHEAD)
  }

  ghost predicate IsProposal(list: Playlist, live: set<nat>, previous: Option<nat>, p: Proposal) {
    var candidates := AlbumCandidates(list, live, p.artist, p.album);
    && |candidates| > 0
    && p.row == BestRow(list, previous, candidates)
    && p.transition == list.transition(previous, p.row)
  }

  // ---------- the bounded frontier ----------

  /** Fewer than 16 artists outrank the artist, and fewer than 8 of the artist's albums outrank the album. */
  ghost predicate InFrontier(rows: seq<Row>, live: set<nat>, artist: Key, album: Key) {
    && Count(rows, live, OfArtistAlbum(artist, album)) > 0
    && |Outrankers(rows, live, OfArtist(artist))| < ARTIST_LOOKAHEAD
    && |Outrankers(rows, live, OfArtistAlbum(artist, album))| < ALBUM_LOOKAHEAD
  }

  /** p's artist, or its album within the same artist, ranks above q's. */
  ghost predicate Precedes(rows: seq<Row>, live: set<nat>, p: Proposal, q: Proposal) {
    if p.artist == q.artist
    then Higher(GroupRank(rows, live, OfArtistAlbum(p.artist, p.album)), GroupRank(rows, live, OfArtistAlbum(q.artist, q.album)))
    else Higher(GroupRank(rows, live, OfArtist(p.artist)), GroupRank(rows, live, OfArtist(q.artist)))
  }

  /** ps holds one proposal for each frontier album, best artist first and best album first. */
  ghost predicate IsFrontier(list: Playlist, live: set<nat>, previous: Option<nat>, ps: seq<Proposal>) {
    && (forall k | 0 <= k < |ps| ::
          InFrontier(list.rows, live, ps[k].artist, ps[k].album) && IsProposal(list, live, previous, ps[k]))
    && (forall j, k | 0 <= j < k < |ps| :: Precedes(list.rows, live, ps[j], ps[k]))
    && (forall a, b | InFrontier(list.rows, live, a, b) :: exists k :: 0 <= k < |ps| && ps[k].artist == a && ps[k].album == b)
  }

  // ---------- filters and the final choice ----------

  function ProposalScore(list: Playlist, live: set<nat>, p: Proposal, maximumArtistRemaining: nat): real {
    var artistRemaining := Count(list.rows, live, OfArtist(p.artist));
    var albumRemaining := Count(list.rows, live, OfArtistAlbum(p.artist, p.album));
    Score(list.preference, p.transition.value, artistRemaining, albumRemaining, maximumArtistRemaining)
  }

  function Score(preference: Preference, transition: real, artistRemaining: nat, albumRemaining: nat,
                 maximumArtistRemaining: nat): real {
    var artistUrgency := if maximumArtistRemaining > 0 then artistRemaining as real / maximumArtistRemaining as real else 0.0;
    var albumUrgency := if artistRemaining > 0 then albumRemaining as real / artistRemaining as real else 0.0;
    var transitionValue := if preference.Contrast? then 1.0 - transition else transition;
    transitionValue * 0.68 + artistUrgency * 0.24 + albumUrgency * 0.08
  }

  predicate BetterProposal(list: Playlist, live: set<nat>, p: Proposal, q: Proposal, maximumArtistRemaining: nat) {
    var left := ProposalScore(list, live, p, maximumArtistRemaining);
    var right := ProposalScore(list, live, q, maximumArtistRemaining);
    var leftArtist, rightArtist := Count(list.rows, live, OfArtist(p.artist)), Count(list.rows, live, OfArtist(q.artist));
    var leftAlbum, rightAlbum :=
      Count(list.rows, live, OfArtistAlbum(p.artist, p.album)), Count(list.rows, live, OfArtistAlbum(q.artist, q.album));
    BetterByTie(left, right, p.transition.comparedWeight, q.transition.comparedWeight,
                leftArtist, rightArtist, leftAlbum, rightAlbum, p.row, q.row)
  }

  predicate BetterByTie(leftScore: real, rightScore: real, leftWeight: real, rightWeight: real,
                        leftArtist: nat, rightArtist: nat, leftAlbum: nat, rightAlbum: nat, leftRow: nat, rightRow: nat) {
    if AbsoluteDifference(leftScore, rightScore) > SCORE_EPSILON then leftScore > rightScore
    else if leftWeight != rightWeight then leftWeight > rightWeight
    else if leftArtist != rightArtist then leftArtist > rightArtist
    else if leftAlbum != rightAlbum then leftAlbum > rightAlbum
    else leftRow < rightRow
  }

  function OtherArtist(artist: Key): Proposal -> bool {
    (p: Proposal) => p.artist != artist
  }

  function OtherAlbum(album: Key): Proposal -> bool {
    (p: Proposal) => p.album != album
  }

  ghost function SafeArtist(list: Playlist, live: set<nat>): Proposal -> bool {
    (p: Proposal) => SafeChoice(list.rows, live, OfArtist(p.artist))
  }

  ghost function SafeAlbum(list: Playlist, live: set<nat>): Proposal -> bool {
    (p: Proposal) => SafeChoice(list.rows, live, OfAlbum(p.album))
  }

  ghost function Eligible(list: Playlist, live: set<nat>, previous: Option<nat>, ps: seq<Proposal>): (r: seq<Proposal>)
    requires previous.Some? ==> previous.value < |list.rows|
    ensures forall p | p in r :: p in ps
    ensures |ps| > 0 ==> |r| > 0
  {
    var e1 := AfterArtist(list, previous, ps);
    var e2 := Prefer(e1, SafeArtist(list, live));
    var e3 := AfterAlbum(list, previous, e2);
    Prefer(e3, SafeAlbum(list, live))
  }

  function AfterArtist(list: Playlist, previous: Option<nat>, ps: seq<Proposal>): (r: seq<Proposal>)
    requires previous.Some? ==> previous.value < |list.rows|
    ensures forall p | p in r :: p in ps
    ensures |ps| > 0 ==> |r| > 0
  {
    if previous.None? then ps else Prefer(ps, OtherArtist(list.rows[previous.value].artist))
  }

  function AfterAlbum(list: Playlist, previous: Option<nat>, ps: seq<Proposal>): (r: seq<Proposal>)
    requires previous.Some? ==> previous.value < |list.rows|
    ensures forall p | p in r :: p in ps
    ensures |ps| > 0 ==> |r| > 0
  {
    if previous.None? then ps else Prefer(ps, OtherAlbum(list.rows[previous.value].album))
  }

  function BestProposal(list: Playlist, live: set<nat>, ps: seq<Proposal>, maximumArtistRemaining: nat): (r: Proposal)
    requires |ps| > 0
    ensures r in ps
  {
    var last := ps[|ps| - 1];
    if |ps| == 1 then last
    else
      var best := BestProposal(list, live, ps[..|ps| - 1], maximumArtistRemaining);
      if BetterProposal(list, live, last, best, maximumArtistRemaining) then last else best
  }

  ghost function Decide(list: Playlist, live: set<nat>, previous: Option<nat>, ps: seq<Proposal>): (r: Proposal)
    requires previous.Some? ==> previous.value < |list.rows|
    requires |ps| > 0
    ensures r in Eligible(list, live, previous, ps)
  {
    var maximumArtistRemaining := Count(list.rows, live, OfArtist(ps[0].artist));
    BestProposal(list, live, Eligible(list, live, previous, ps), maximumArtistRemaining)
  }

  /** row is what the sequencer puts next when live rows remain and previous was placed last. */
  ghost predicate Step(list: Playlist, live: set<nat>, previous: Option<nat>, row: nat) {
    && (previous.Some? ==> previous.value < |list.rows|)
    && exists ps :: |ps| > 0 && IsFrontier(list, live, previous, ps) && row == Decide(list, live, previous, ps).row
  }

  // ---------- whole sequences ----------

  ghost function Remaining(list: Playlist, order: seq<nat>): set<nat> {
    AllRows(list.rows) - Elements(order)
  }

  function Last(order: seq<nat>): Option<nat> {
    if |order| == 0 then None else Some(order[|order| - 1])
  }

  /** Every position of order was chosen by Step. */
  ghost predicate FollowsPolicy(list: Playlist, order: seq<nat>) {
    forall k | 0 <= k < |order| :: Step(list, Remaining(list, order[..k]), Last(order[..k]), order[k])
  }

  ghost predicate IsSequence(list: Playlist, order: seq<nat>) {
    |order| == |list.rows| && FollowsPolicy(list, order)
  }
}
