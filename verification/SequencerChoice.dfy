/** The four fallback filters and the final comparison, read off the mutable states. */
module SequencerChoice {
  import opened Collections
  import opened PriorityHeap
  import opened PlaylistGroups
  import opened SequencingPolicy
  import opened SequencerState
  import opened SequencerProposals
  import opened SequencerFrontier
  import opened AlbumCountIndex

  function MaximumOtherArtistRemaining(selected: ArtistState, topArtists: seq<ArtistState>): nat
    reads topArtists
  {
    if |topArtists| == 0 then 0
    else if topArtists[0] != selected then topArtists[0].remaining
    else MaximumOtherArtistRemaining(selected, topArtists[1..])
  }

  function MaximumOtherAlbumRemaining(selectedKey: Key, topAlbums: seq<CountState>): nat
    reads topAlbums
  {
    if |topAlbums| == 0 then 0
    else if topAlbums[0].key != selectedKey then topAlbums[0].remaining
    else MaximumOtherAlbumRemaining(selectedKey, topAlbums[1..])
  }

  // ---------- what the guards compute ----------

  /** The guard on the leaders' counts is the guard on all groups. */
  lemma GuardSeesAllGroups(rows: seq<Row>, live: set<nat>, kind: Group, keys: seq<Key>, limit: nat, selected: Key)
    requires kind.OfArtist? || kind.OfAlbum?
    requires Leading(rows, live, kind, keys, limit) && limit >= 2 && |live| > 0
    ensures GroupSafeAfterSelection(Count(rows, live, GroupFor(kind, selected)) - 1,
                                    FirstOtherCount(rows, live, kind, keys, selected), |live| - 1)
            <==> SafeChoice(rows, live, GroupFor(kind, selected))
  {
    hide Count, Peers, Leading;
    var g := GroupFor(kind, selected);
    FirstOtherIsMaximum(rows, live, kind, keys, limit, selected);
    hide FirstOtherCount;
    forall h: Group ensures h in Peers(rows, live, g) <==> SameKind(g, h) && Count(rows, live, h) > 0 {
      PeersByCount(rows, live, g, h);
    }
    forall h | h in Peers(rows, live, g) && h != g
      ensures exists b :: b != selected && h == GroupFor(kind, b)
    {
      var b := if kind.OfArtist? then h.artist else h.album;
      assert h == GroupFor(kind, b);
    }
  }

  lemma {:induction false} ArtistMaximum(selected: ArtistState, top: seq<ArtistState>, rows: seq<Row>, live: set<nat>)
    requires forall ar | ar in top :: ar.remaining == Count(rows, live, OfArtist(ar.key))
    requires forall ar | ar in top && ar != selected :: ar.key != selected.key
    ensures MaximumOtherArtistRemaining(selected, top) == FirstOtherCount(rows, live, ARTISTS, ArtistKeys(top), selected.key)
  {
    if |top| > 0 {
      assert top[0] in top;
      assert ArtistKeys(top)[1..] == ArtistKeys(top[1..]);
      ArtistMaximum(selected, top[1..], rows, live);
    }
  }

  lemma {:induction false} AlbumMaximum(selected: Key, top: seq<CountState>, rows: seq<Row>, live: set<nat>)
    requires forall s | s in top :: s.remaining == Count(rows, live, OfAlbum(s.key))
    ensures MaximumOtherAlbumRemaining(selected, top) == FirstOtherCount(rows, live, ALBUMS, StateKeys(top), selected)
  {
    if |top| > 0 {
      assert top[0] in top;
      assert StateKeys(top)[1..] == StateKeys(top[1..]);
      AlbumMaximum(selected, top[1..], rows, live);
    }
  }

  // ---------- filters on proposals and on their views ----------

  lemma {:induction false} FilterViews(ps: seq<TrackProposal>, f: TrackProposal ~> bool, q: Proposal -> bool)
    requires forall p | p in ps :: f.requires(p) && f(p) == q(View(p))
    ensures Views(FilterReading(ps, f)) == Filter(Views(ps), q)
  {
    hide Views, View;
    if |ps| > 0 {
      var n := |ps| - 1;
      FilterViews(ps[..n], f, q);
      LastView(ps);
      LastView(FilterReading(ps[..n], f) + [ps[n]]);
    } else {
      NoViews();
    }
  }

  lemma LastView(ps: seq<TrackProposal>)
    requires |ps| > 0
    ensures var n := |ps| - 1; Views(ps)[..n] == Views(ps[..n]) && Views(ps) == Views(ps[..n]) + [View(ps[n])]
  {
  }

  /** A filter with fallback commutes with taking views. */
  lemma PreferViews(ps: seq<TrackProposal>, f: TrackProposal ~> bool, q: Proposal -> bool)
    requires forall p | p in ps :: f.requires(p) && f(p) == q(View(p))
    ensures Views(PreferReading(ps, f)) == Prefer(Views(ps), q)
  {
    FilterViews(ps, f, q);
    hide Views;
  }

  // ---------- the facts the choice rests on ----------

  /** Everything the filters read agrees with the live rows. */
  ghost predicate ReadsTrue(p: TrackProposal, candidates: seq<ArtistState>, counts: map<Key, CountState>, rows: seq<Row>, live: set<nat>)
    reads p.artist, p.album, counts.Values
  {
    && p.artist in candidates
    && p.artist.remaining == Count(rows, live, OfArtist(p.artist.key))
    && p.album.remaining == Count(rows, live, OfArtistAlbum(p.artist.key, p.album.key))
    && p.album.key in counts && counts[p.album.key].key == p.album.key
    && counts[p.album.key].remaining == Count(rows, live, OfAlbum(p.album.key))
  }

  ghost predicate CandidatesTrue(candidates: seq<ArtistState>, rows: seq<Row>, live: set<nat>)
    reads candidates
  {
    && Separate(candidates)
    && Leading(rows, live, ARTISTS, ArtistKeys(candidates), ARTIST_LOOKAHEAD)
    && (forall ar | ar in candidates :: ar.remaining == Count(rows, live, OfArtist(ar.key)))
  }

  ghost predicate TopTrue(top: seq<CountState>, rows: seq<Row>, live: set<nat>)
    reads top
  {
    && Leading(rows, live, ALBUMS, StateKeys(top), 2)
    && (forall s | s in top :: s.remaining == Count(rows, live, OfAlbum(s.key)))
  }

  lemma ArtistGuardMeans(p: TrackProposal, candidates: seq<ArtistState>, counts: map<Key, CountState>, list: Playlist, live: set<nat>)
    requires CandidatesTrue(candidates, list.rows, live) && ReadsTrue(p, candidates, counts, list.rows, live) && |live| > 0
    ensures GroupSafeAfterSelection(p.artist.remaining - 1, MaximumOtherArtistRemaining(p.artist, candidates), |live| - 1)
            == SafeArtist(list, live)(View(p))
  {
    hide Count, SafeChoice, Leading;
    ArtistMaximum(p.artist, candidates, list.rows, live);
    GuardSeesAllGroups(list.rows, live, ARTISTS, ArtistKeys(candidates), ARTIST_LOOKAHEAD, p.artist.key);
  }

  lemma AlbumGuardMeans(p: TrackProposal, candidates: seq<ArtistState>, counts: map<Key, CountState>, top: seq<CountState>,
                        list: Playlist, live: set<nat>)
    requires TopTrue(top, list.rows, live) && ReadsTrue(p, candidates, counts, list.rows, live) && |live| > 0
    ensures GroupSafeAfterSelection(counts[p.album.key].remaining - 1,
                                    MaximumOtherAlbumRemaining(counts[p.album.key].key, top), |live| - 1)
            == SafeAlbum(list, live)(View(p))
  {
    hide Count, SafeChoice, Leading;
    AlbumMaximum(p.album.key, top, list.rows, live);
    GuardSeesAllGroups(list.rows, live, ALBUMS, StateKeys(top), 2, p.album.key);
  }

  // ---------- choosing ----------

  predicate BetterTrackProposal(left: TrackProposal, right: TrackProposal, maximumArtistRemaining: nat, preference: Preference)
    reads left.artist, left.album, right.artist, right.album
  {
    BetterByTie(
      Score(preference, left.transition.value, left.artist.remaining, left.album.remaining, maximumArtistRemaining),
      Score(preference, right.transition.value, right.artist.remaining, right.album.remaining, maximumArtistRemaining),
      left.transition.comparedWeight, right.transition.comparedWeight,
      left.artist.remaining, right.artist.remaining, left.album.remaining, right.album.remaining,
      left.row.sourceIndex, right.row.sourceIndex)
  }

  method SelectBest(list: Playlist, eligible: seq<TrackProposal>, maximumArtistRemaining: nat,
                    ghost candidates: seq<ArtistState>, ghost counts: map<Key, CountState>, ghost live: set<nat>)
    returns (selected: TrackProposal)
    requires |eligible| > 0
    requires forall p | p in eligible :: ReadsTrue(p, candidates, counts, list.rows, live)
    ensures selected in eligible
    ensures View(selected) == BestProposal(list, live, Views(eligible), maximumArtistRemaining)
  {
    hide Count, Views, Score, BetterByTie;
    selected := eligible[0];
    for index := 1 to |eligible|
      invariant selected in eligible
      invariant View(selected) == BestProposal(list, live, Views(eligible)[..index], maximumArtistRemaining)
    {
      var proposal := eligible[index];
      assert proposal in eligible;
      assert Views(eligible)[..index + 1][..index] == Views(eligible)[..index];
      if BetterTrackProposal(proposal, selected, maximumArtistRemaining, list.preference) {
        selected := proposal;
      }
    }
    assert Views(eligible)[..|eligible|] == Views(eligible);
  }

  predicate ArtistSafe(p: TrackProposal, candidates: seq<ArtistState>, remainingAfterSelection: nat)
    reads p.artist, candidates
  {
    GroupSafeAfterSelection(p.artist.remaining - 1, MaximumOtherArtistRemaining(p.artist, candidates), remainingAfterSelection)
  }

  predicate AlbumSafe(p: TrackProposal, albumCounts: map<Key, CountState>, topAlbumCounts: seq<CountState>, remainingAfterSelection: nat)
    reads albumCounts.Values, topAlbumCounts
  {
    if p.album.key !in albumCounts then false
    else
      var selectedAlbum := albumCounts[p.album.key];
      GroupSafeAfterSelection(selectedAlbum.remaining - 1,
                              MaximumOtherAlbumRemaining(selectedAlbum.key, topAlbumCounts), remainingAfterSelection)
  }

  method WithoutPreviousArtist(list: Playlist, proposals: seq<TrackProposal>, previous: InternalRow?)
    returns (eligible: seq<TrackProposal>)
    requires previous != null ==> previous.sourceIndex < |list.rows| && list.rows[previous.sourceIndex].artist == previous.artistKey
    ensures forall p | p in eligible :: p in proposals
    ensures Views(eligible) == AfterArtist(list, IndexOf(previous), Views(proposals))
  {
    hide Views;
    eligible := proposals;
    if previous != null {
      var different := (p: TrackProposal) => p.artist.key != previous.artistKey;
      assert forall p: TrackProposal :: different(p) == OtherArtist(previous.artistKey)(View(p));
      hide View, OtherArtist;
      PreferViews(proposals, different, OtherArtist(previous.artistKey));
      eligible := PreferReading(proposals, different);
    }
  }

  method WithoutUnsafeArtists(list: Playlist, proposals: seq<TrackProposal>, candidates: seq<ArtistState>, remainingAfterSelection: nat,
                              ghost counts: map<Key, CountState>, ghost live: set<nat>)
    returns (eligible: seq<TrackProposal>)
    requires |live| > 0 && remainingAfterSelection == |live| - 1
    requires CandidatesTrue(candidates, list.rows, live)
    requires forall p | p in proposals :: ReadsTrue(p, candidates, counts, list.rows, live)
    ensures forall p | p in eligible :: p in proposals
    ensures Views(eligible) == Prefer(Views(proposals), SafeArtist(list, live))
  {
    hide SafeArtist, ReadsTrue, CandidatesTrue, Views;
    var safe := (p: TrackProposal) reads p.artist, candidates => ArtistSafe(p, candidates, remainingAfterSelection);
    forall p | p in proposals ensures safe(p) == SafeArtist(list, live)(View(p)) {
      ArtistGuardMeans(p, candidates, counts, list, live);
    }
    hide ArtistSafe, View;
    PreferViews(proposals, safe, SafeArtist(list, live));
    eligible := PreferReading(proposals, safe);
  }

  method WithoutPreviousAlbum(list: Playlist, proposals: seq<TrackProposal>, previous: InternalRow?)
    returns (eligible: seq<TrackProposal>)
    requires previous != null ==> previous.sourceIndex < |list.rows| && list.rows[previous.sourceIndex].album == previous.albumKey
    ensures forall p | p in eligible :: p in proposals
    ensures Views(eligible) == AfterAlbum(list, IndexOf(previous), Views(proposals))
  {
    hide Views;
    eligible := proposals;
    if previous != null {
      var different := (p: TrackProposal) => p.album.key != previous.albumKey;
      assert forall p: TrackProposal :: different(p) == OtherAlbum(previous.albumKey)(View(p));
      hide View, OtherAlbum;
      PreferViews(proposals, different, OtherAlbum(previous.albumKey));
      eligible := PreferReading(proposals, different);
    }
  }

  method WithoutUnsafeAlbums(list: Playlist, proposals: seq<TrackProposal>, albumCounts: map<Key, CountState>,
                             topAlbumCounts: seq<CountState>, remainingAfterSelection: nat,
                             ghost candidates: seq<ArtistState>, ghost live: set<nat>)
    returns (eligible: seq<TrackProposal>)
    requires |live| > 0 && remainingAfterSelection == |live| - 1
    requires TopTrue(topAlbumCounts, list.rows, live)
    requires forall p | p in proposals :: ReadsTrue(p, candidates, albumCounts, list.rows, live)
    ensures forall p | p in eligible :: p in proposals
    ensures Views(eligible) == Prefer(Views(proposals), SafeAlbum(list, live))
  {
    hide SafeAlbum, ReadsTrue, TopTrue, Views;
    var safe := (p: TrackProposal) reads albumCounts.Values, topAlbumCounts =>
      AlbumSafe(p, albumCounts, topAlbumCounts, remainingAfterSelection);
    forall p | p in proposals ensures safe(p) == SafeAlbum(list, live)(View(p)) {
      AlbumKnown(p, candidates, albumCounts, list.rows, live);
      AlbumGuardMeans(p, candidates, albumCounts, topAlbumCounts, list, live);
    }
    hide AlbumSafe, View;
    PreferViews(proposals, safe, SafeAlbum(list, live));
    eligible := PreferReading(proposals, safe);
  }

  lemma AlbumKnown(p: TrackProposal, candidates: seq<ArtistState>, counts: map<Key, CountState>, rows: seq<Row>, live: set<nat>)
    requires ReadsTrue(p, candidates, counts, rows, live)
    ensures p.album.key in counts
  {
  }

  function IndexOf(row: InternalRow?): Option<nat> {
    if row == null then None else Some(row.sourceIndex)
  }

  /** A whole choice: filter by artist, then by album, then compare scores. */
  method ChooseProposal(list: Playlist, proposals: seq<TrackProposal>, candidateArtists: seq<ArtistState>,
                        albumCounts: map<Key, CountState>, topAlbumCounts: seq<CountState>,
                        remainingAfterSelection: nat, previous: InternalRow?, ghost live: set<nat>)
    returns (selected: TrackProposal)
    requires |live| > 0 && remainingAfterSelection == |live| - 1
    requires CandidatesTrue(candidateArtists, list.rows, live) && TopTrue(topAlbumCounts, list.rows, live)
    requires |proposals| > 0 && |candidateArtists| > 0 && proposals[0].artist == candidateArtists[0]
    requires forall p | p in proposals :: ReadsTrue(p, candidateArtists, albumCounts, list.rows, live)
    requires previous != null ==>
      previous.sourceIndex < |list.rows| && list.rows[previous.sourceIndex] == Row(previous.artistKey, previous.albumKey)
    ensures selected in proposals
    ensures View(selected) == Decide(list, live, IndexOf(previous), Views(proposals))
  {
    hide ReadsTrue, Views, SafeArtist, SafeAlbum, AfterArtist, AfterAlbum, BestProposal, TopTrue;
    LeaderCount(list, proposals, candidateArtists, live);
    hide CandidatesTrue;
    var eligible := WithoutPreviousArtist(list, proposals, previous);
    eligible := WithoutUnsafeArtists(list, eligible, candidateArtists, remainingAfterSelection, albumCounts, live);
    eligible := WithoutPreviousAlbum(list, eligible, previous);
    eligible := WithoutUnsafeAlbums(list, eligible, albumCounts, topAlbumCounts, remainingAfterSelection, candidateArtists, live);
    SomethingEligible(list, proposals, eligible, live, IndexOf(previous));
    var maximumArtistRemaining := candidateArtists[0].remaining;
    selected := SelectBest(list, eligible, maximumArtistRemaining, candidateArtists, albumCounts, live);
  }

  lemma LeaderCount(list: Playlist, proposals: seq<TrackProposal>, candidates: seq<ArtistState>, live: set<nat>)
    requires CandidatesTrue(candidates, list.rows, live)
    requires |proposals| > 0 && |candidates| > 0 && proposals[0].artist == candidates[0]
    ensures candidates[0].remaining == Count(list.rows, live, OfArtist(Views(proposals)[0].artist))
    ensures |Views(proposals)| == |proposals|
  {
    assert candidates[0] in candidates;
  }

  lemma SomethingEligible(list: Playlist, proposals: seq<TrackProposal>, eligible: seq<TrackProposal>, live: set<nat>, previous: Option<nat>)
    requires previous.Some? ==> previous.value < |list.rows|
    requires |proposals| > 0 && Views(eligible) == Eligible(list, live, previous, Views(proposals))
    ensures |eligible| > 0
  {
    assert |Views(proposals)| > 0;
  }
}
