/** The sequencer itself: build the heaps, place one row at a time, and prove that the policy was followed. */
module PlaylistSequencing {
  import opened Collections
  import opened PriorityHeap
  import opened PlaylistGroups
  import opened SequencingPolicy
  import opened SequencerState
  import opened SequencerProposals
  import opened SequencerFrontier
  import opened SequencerChoice
  import opened SequencerCommit
  import opened SequencerArtists
  import opened AlbumCountIndex

  lemma CountHeapIsNoArtistPart(heap: BinaryHeap<CountEntry>, ar: ArtistState)
    ensures heap !in ArtistFootprint(ar)
  {
  }

  lemma CountStateIsNoArtistPart(state: CountState, ar: ArtistState)
    ensures state !in ArtistFootprint(ar)
  {
  }

  /** What the filters read of a proposal is what the live rows say. */
  lemma ProposalReadsTrue(p: TrackProposal, candidates: seq<ArtistState>, counts: map<Key, CountState>, rows: seq<Row>, live: set<nat>)
    requires p.artist in candidates && LiveArtistOk(p.artist, rows, live)
    requires p.album in p.artist.albums.values && CountsOk(counts, rows, live)
    ensures ReadsTrue(p, candidates, counts, rows, live)
  {
    assert AlbumOk(p.album, rows, live);
    CountPositive(rows, live, OfArtistAlbum(p.artist.key, p.album.key));
    var i :| i in live && i < |rows| && Belongs(rows[i], OfArtistAlbum(p.artist.key, p.album.key));
    assert rows[i].album in counts;
  }

  lemma AllReadTrue(proposals: seq<TrackProposal>, candidates: seq<ArtistState>, whole: seq<ArtistState>,
                    counts: map<Key, CountState>, rows: seq<Row>, live: set<nat>)
    requires forall ar | ar in whole :: LiveArtistOk(ar, rows, live)
    requires forall ar | ar in candidates :: ar in whole
    requires forall p | p in proposals :: p.artist in candidates && p.album in multiset(p.artist.albums.values)
    requires CountsOk(counts, rows, live)
    ensures forall p | p in proposals :: ReadsTrue(p, candidates, counts, rows, live)
  {
    hide LiveArtistOk, CountsOk, ReadsTrue;
    forall p | p in proposals ensures ReadsTrue(p, candidates, counts, rows, live) {
      ProposalReadsTrue(p, candidates, counts, rows, live);
    }
  }

  lemma CandidatesSeparate(candidates: seq<ArtistState>, whole: seq<ArtistState>, rest: seq<ArtistState>)
    requires Separate(whole) && multiset(whole) == multiset(rest) + multiset(candidates)
    ensures Separate(candidates) && forall ar | ar in candidates :: ar in whole
  {
    SameContents(whole, rest + candidates);
    var all := rest + candidates;
    assert forall i | 0 <= i < |candidates| :: all[|rest| + i] == candidates[i];
    assert forall ar | ar in candidates :: ar in all;
  }

  lemma CandidatesReadTrue(candidates: seq<ArtistState>, whole: seq<ArtistState>, rest: seq<ArtistState>, rows: seq<Row>, live: set<nat>)
    requires forall ar | ar in whole :: LiveArtistOk(ar, rows, live)
    requires OnePerArtist(whole, rows, live) && multiset(whole) == multiset(rest) + multiset(candidates)
    requires AreCandidates(rows, live, ArtistKeys(candidates))
    ensures CandidatesTrue(candidates, rows, live)
    ensures forall ar | ar in candidates :: ar in whole
  {
    hide Leading, Count, LiveArtistOk, Separate;
    assert Separate(whole);
    CandidatesSeparate(candidates, whole, rest);
    LiveArtistsCount(whole, rows, live);
  }

  lemma TopReadsTrue(top: seq<CountState>, counts: map<Key, CountState>, rows: seq<Row>, live: set<nat>)
    requires CountsOk(counts, rows, live)
    requires Leading(rows, live, ALBUMS, StateKeys(top), 2)
    requires forall s | s in top :: s.key in counts && counts[s.key] == s
    ensures TopTrue(top, rows, live)
  {
    hide Leading, Count;
  }

  lemma IndexedStates(entries: seq<CountEntry>, counts: map<Key, CountState>)
    requires IndexOk(entries, counts)
    ensures forall e | e in entries :: e.state in counts.Values
  {
    hide HeapOrdered;
    forall e | e in entries ensures e.state in counts.Values {
      assert EntryOk(e, counts);
    }
  }

  lemma PartsAreNoState(p: TrackProposal, entries: seq<CountEntry>)
    ensures p.artist !in EntryObjects(entries) && p.album !in EntryObjects(entries) && p.row !in EntryObjects(entries)
  {
  }

  lemma ShrunkFootprint(ar: ArtistState, before: seq<AlbumState>)
    requires forall al | al in ar.albums.values :: al in before
    ensures ArtistFootprint(ar) <= {ar, ar.albums} + AlbumObjects(before)
  {
  }

  lemma SameAlbumObjects(before: seq<AlbumState>, after: seq<AlbumState>)
    requires multiset(before) == multiset(after)
    ensures AlbumObjects(before) == AlbumObjects(after)
  {
    SameContents(before, after);
  }

  /** proposals are the frontier of the popped candidates. */
  ghost predicate Proposed(list: Playlist, live: set<nat>, proposals: seq<TrackProposal>, candidates: seq<ArtistState>,
                           previous: Option<nat>)
    reads set ar | ar in candidates :: ar.albums
  {
    && |proposals| > 0 && |candidates| > 0 && proposals[0].artist == candidates[0]
    && (forall p | p in proposals :: p.artist in candidates && p.album in multiset(p.artist.albums.values) && p.row in p.album.rows)
    && IsFrontier(list, live, previous, Views(proposals))
  }

  lemma CountHeapIsNoAlbumHeap(heap: BinaryHeap<CountEntry>, ar: ArtistState)
    ensures heap as object != ar.albums
  {
  }

  lemma ProposedParts(list: Playlist, live: set<nat>, proposals: seq<TrackProposal>, candidates: seq<ArtistState>,
                      previous: Option<nat>)
    requires Proposed(list, live, proposals, candidates, previous)
    ensures |proposals| > 0 && |candidates| > 0 && proposals[0].artist == candidates[0]
    ensures forall p | p in proposals :: p.artist in candidates && p.album in multiset(p.artist.albums.values)
  {
    hide IsFrontier;
  }

  class Sequencer {
    const list: Playlist
    const artistHeap: BinaryHeap<ArtistState>
    const albumCountHeap: BinaryHeap<CountEntry>
    const albumCounts: map<Key, CountState>
    /** The source positions that are still to be placed. */
    ghost var live: set<nat>
    ghost const repr: set<object>

    constructor (list: Playlist, artistHeap: BinaryHeap<ArtistState>, albumCountHeap: BinaryHeap<CountEntry>,
                 albumCounts: map<Key, CountState>, ghost live: set<nat>, ghost repr: set<object>)
      ensures this.list == list && this.artistHeap == artistHeap && this.albumCountHeap == albumCountHeap
      ensures this.albumCounts == albumCounts && this.live == live && this.repr == repr
    {
      this.list, this.artistHeap, this.albumCountHeap, this.albumCounts := list, artistHeap, albumCountHeap, albumCounts;
      this.live, this.repr := live, repr;
    }

    /** Between popping the candidates and putting them back. */
    ghost predicate Lent(whole: seq<ArtistState>, candidates: seq<ArtistState>)
      reads this, repr
    {
      && artistHeap in repr && albumCountHeap in repr
      && (forall ar | ar in whole :: ar in repr && ar.albums in repr && ArtistFootprint(ar) <= repr)
      && (forall s | s in albumCounts.Values :: s in repr)
      && (forall e | e in albumCountHeap.values :: e.state in repr)
      && live <= AllRows(list.rows)
      && (forall ar | ar in whole :: LiveArtistOk(ar, list.rows, live))
      && OnePerArtist(whole, list.rows, live)
      && multiset(whole) == multiset(artistHeap.values) + multiset(candidates)
      && HeapOrdered(artistHeap.values, ArtistRanks(whole, list.rows, live))
      && CountsOk(albumCounts, list.rows, live) && IndexOk(albumCountHeap.values, albumCounts)
    }

    ghost predicate Valid()
      reads this, repr
    {
      && artistHeap in repr && albumCountHeap in repr
      && (forall ar | ar in artistHeap.values :: ar in repr && ar.albums in repr && ArtistFootprint(ar) <= repr)
      && (forall s | s in albumCounts.Values :: s in repr)
      && (forall e | e in albumCountHeap.values :: e.state in repr)
      && live <= AllRows(list.rows)
      && ArtistsOk(artistHeap, list.rows, live)
      && CountsOk(albumCounts, list.rows, live) && IndexOk(albumCountHeap.values, albumCounts)
    }

    /** Pop the sixteen leading artists. */
    method LendCandidates() returns (candidates: seq<ArtistState>)
      requires Valid() && live != {}
      modifies artistHeap`values
      ensures Lent(old(artistHeap.values), candidates)
      ensures |candidates| > 0 && AreCandidates(list.rows, live, ArtistKeys(candidates))
    {
      hide LiveArtistOk, OnePerArtist, HeapOrdered, CountsOk, IndexOk, AreCandidates;
      ghost var whole := artistHeap.values;
      LiveHasArtist(artistHeap, list.rows, live);
      HeapIsNoState(artistHeap, albumCountHeap.values, albumCounts);
      forall ar | ar in whole ensures artistHeap !in ArtistFootprint(ar) {
        HeapIsNoArtistPart(artistHeap, ar);
      }
      candidates := PopCandidates(artistHeap, list.rows, live);
    }

    /** Collect what the candidates propose; only the order inside their album heaps changes. */
    method Propose(candidates: seq<ArtistState>, previous: Option<nat>, ghost whole: seq<ArtistState>)
      returns (proposals: seq<TrackProposal>)
      requires Lent(whole, candidates)
      requires |candidates| > 0 && AreCandidates(list.rows, live, ArtistKeys(candidates))
      modifies repr
      ensures Lent(whole, candidates) && Proposed(list, live, proposals, candidates, previous) && live == old(live)
    {
      hide LiveArtistOk, HeapOrdered, IsFrontier, CountsOk, IndexOk, AreCandidates, Views, CandidatesTrue, OnePerArtist, AlbumObjects,
           Separate;
      OnePerArtistDistinct(whole, list.rows, live);
      CandidatesReadTrue(candidates, whole, artistHeap.values, list.rows, live);
      forall ar | ar in whole ensures ar.albums !in EntryObjects(albumCountHeap.values) {
        HeapIsNoState(ar.albums, albumCountHeap.values, albumCounts);
      }
      proposals := CollectFrontier(list, candidates, previous, whole, live);
      forall ar | ar in whole ensures ArtistFootprint(ar) == old(ArtistFootprint(ar)) {
        SameAlbumObjects(old(ar.albums.values), ar.albums.values);
      }
    }

    /** The two albums with the most rows left, over all artists. */
    method TopAlbumCounts(ghost whole: seq<ArtistState>, ghost candidates: seq<ArtistState>) returns (top: seq<CountState>)
      requires Lent(whole, candidates)
      modifies albumCountHeap`values
      ensures Lent(whole, candidates)
      ensures TopTrue(top, list.rows, live)
    {
      hide LiveArtistOk, HeapOrdered, OnePerArtist, TopTrue, Leading, CountsOk, IndexOk, AlbumObjects;
      forall ar | ar in whole ensures albumCountHeap !in ArtistFootprint(ar) && albumCountHeap as object != ar.albums {
        CountHeapIsNoArtistPart(albumCountHeap, ar);
        CountHeapIsNoAlbumHeap(albumCountHeap, ar);
      }
      HeapIsNoState(albumCountHeap, albumCountHeap.values, albumCounts);
      top := TopValidCountStates(albumCountHeap, 2, albumCounts, list.rows, live);
      TopReadsTrue(top, albumCounts, list.rows, live);
      IndexedStates(albumCountHeap.values, albumCounts);
    }

    method SelectFrom(proposals: seq<TrackProposal>, candidates: seq<ArtistState>, top: seq<CountState>,
                      remainingAfterSelection: nat, previous: InternalRow?, ghost whole: seq<ArtistState>)
      returns (selected: TrackProposal)
      requires Lent(whole, candidates) && TopTrue(top, list.rows, live)
      requires |candidates| > 0 && AreCandidates(list.rows, live, ArtistKeys(candidates))
      requires |live| > 0 && remainingAfterSelection == |live| - 1
      requires |proposals| > 0 && proposals[0].artist == candidates[0]
      requires forall p | p in proposals :: p.artist in candidates && p.album in multiset(p.artist.albums.values)
      requires previous != null ==>
        previous.sourceIndex < |list.rows| && list.rows[previous.sourceIndex] == Row(previous.artistKey, previous.albumKey)
      ensures selected in proposals
      ensures View(selected) == Decide(list, live, IndexOf(previous), Views(proposals))
    {
      hide LiveArtistOk, HeapOrdered, CountsOk, IndexOk, TopTrue, CandidatesTrue, AreCandidates, Decide;
      CandidatesReadTrue(candidates, whole, artistHeap.values, list.rows, live);
      AllReadTrue(proposals, candidates, whole, albumCounts, list.rows, live);
      selected := ChooseProposal(list, proposals, candidates, albumCounts, top, remainingAfterSelection, previous, live);
    }

    /** The row is out of its artist; the candidates and the album count are still to follow. */
    ghost predicate Taken(whole: seq<ArtistState>, candidates: seq<ArtistState>, artist: ArtistState, c: nat)
      reads this, repr
    {
      && artistHeap in repr && albumCountHeap in repr
      && (forall ar | ar in whole :: ar in repr && ar.albums in repr && ArtistFootprint(ar) <= repr)
      && (forall s | s in albumCounts.Values :: s in repr)
      && (forall e | e in albumCountHeap.values :: e.state in repr)
      && live <= AllRows(list.rows)
      && artist in candidates && (assert ArtistObjects(whole) <= repr; AfterRow(whole, artist, list.rows, live, c))
      && OnePerArtist(whole, list.rows, live)
      && multiset(whole) == multiset(artistHeap.values) + multiset(candidates)
      && HeapOrdered(artistHeap.values, ArtistRanks(whole, list.rows, live))
      && CountsOk(albumCounts, list.rows, live) && IndexOk(albumCountHeap.values, albumCounts)
    }

    /** The artists are complete again; only the album count still includes the row. */
    ghost predicate CountPending(c: nat)
      reads this, repr
    {
      && artistHeap in repr && albumCountHeap in repr
      && (forall ar | ar in artistHeap.values :: ar in repr && ar.albums in repr && ArtistFootprint(ar) <= repr)
      && (forall s | s in albumCounts.Values :: s in repr)
      && (forall e | e in albumCountHeap.values :: e.state in repr)
      && live <= AllRows(list.rows)
      && ArtistsOk(artistHeap, list.rows, live - {c})
      && CountsOk(albumCounts, list.rows, live) && IndexOk(albumCountHeap.values, albumCounts)
    }

    lemma SelectedIsOwned(selected: TrackProposal, candidates: seq<ArtistState>, whole: seq<ArtistState>)
      requires Lent(whole, candidates)
      requires selected.artist in candidates && selected.album in selected.artist.albums.values && selected.row in selected.album.rows
      ensures selected.artist in whole && Separate(whole)
      ensures selected.artist in repr && selected.artist.albums in repr && selected.album in repr && selected.row in repr
    {
      hide LiveArtistOk, HeapOrdered, CountsOk, IndexOk;
      assert selected.artist in multiset(whole);
      assert selected.album in Footprint(selected.album) && selected.row in Footprint(selected.album);
      assert Footprint(selected.album) <= AlbumObjects(selected.artist.albums.values);
      assert AlbumObjects(selected.artist.albums.values) <= ArtistFootprint(selected.artist);
    }

    method TakeSelected(selected: TrackProposal, ghost candidates: seq<ArtistState>, ghost whole: seq<ArtistState>)
      requires Lent(whole, candidates)
      requires selected.artist in candidates && selected.album in selected.artist.albums.values && selected.row in selected.album.rows
      requires selected.row.sourceIndex in live
      requires |Outrankers(list.rows, live, GroupOfAlbum(selected.album))| < ALBUM_LOOKAHEAD
      modifies repr
      ensures Taken(whole, candidates, selected.artist, selected.row.sourceIndex) && live == old(live)
      ensures selected.row.sourceIndex < |list.rows| && list.rows[selected.row.sourceIndex].album == selected.album.key
    {
      hide LiveArtistOk, HeapOrdered, OnePerArtist, CountsOk, IndexOk, Outrankers, AfterRow;
      SelectedIsOwned(selected, candidates, whole);
      HeapIsNoState(selected.artist.albums, albumCountHeap.values, albumCounts);
      PartsAreNoState(selected, albumCountHeap.values);
      TakeFromArtist(selected.artist, selected.album, selected.row, whole, list.rows, live);
      ShrunkFootprint(selected.artist, old(selected.artist.albums.values));
    }

    method PutBack(candidates: seq<ArtistState>, ghost whole: seq<ArtistState>, ghost artist: ArtistState, ghost c: nat)
      requires Taken(whole, candidates, artist, c)
      modifies artistHeap`values
      ensures CountPending(c)
    {
      hide LiveArtistOk, HeapOrdered, OnePerArtist, CountsOk, IndexOk, AfterRow;
      HeapIsNoState(artistHeap, albumCountHeap.values, albumCounts);
      forall ar | ar in whole ensures artistHeap !in ArtistFootprint(ar) {
        HeapIsNoArtistPart(artistHeap, ar);
      }
      ReturnCandidates(artistHeap, candidates, whole, artist, list.rows, live, c);
    }

    method SettleCount(key: Key, ghost c: nat)
      requires CountPending(c) && c in live && c < |list.rows| && list.rows[c].album == key
      modifies this`live, repr
      ensures Valid() && live == old(live) - {c}
    {
      hide LiveArtistOk, HeapOrdered, OnePerArtist, CountsOk, IndexOk;
      forall ar | ar in artistHeap.values ensures albumCountHeap !in ArtistFootprint(ar) {
        CountHeapIsNoArtistPart(albumCountHeap, ar);
      }
      forall ar, s | ar in artistHeap.values && s in albumCounts.Values ensures s !in ArtistFootprint(ar) {
        CountStateIsNoArtistPart(s, ar);
      }
      LowerAlbumCount(albumCountHeap, albumCounts, key, list.rows, live, c);
      StatesOwned();
      forall ar | ar in artistHeap.values ensures this !in ArtistFootprint(ar) {
        SelfIsNoPart(ar, albumCountHeap.values);
      }
      SelfIsNoState(albumCountHeap.values);
      live := live - {c};
    }

    lemma SelfIsNoPart(ar: ArtistState, entries: seq<CountEntry>)
      ensures this !in ArtistFootprint(ar)
    {
    }

    lemma SelfIsNoState(entries: seq<CountEntry>)
      ensures this !in EntryObjects(entries)
    {
    }

    lemma StatesOwned()
      requires forall s | s in albumCounts.Values :: s in repr
      requires IndexOk(albumCountHeap.values, albumCounts)
      ensures forall e | e in albumCountHeap.values :: e.state in repr
    {
      forall e | e in albumCountHeap.values ensures e.state in repr {
        assert EntryOk(e, albumCounts);
      }
    }

    /** Take the selected row out of its album, artist and album count, and put the candidates back. */
    method Commit(selected: TrackProposal, candidates: seq<ArtistState>, ghost whole: seq<ArtistState>)
      requires Lent(whole, candidates)
      requires selected.artist in candidates && selected.album in selected.artist.albums.values && selected.row in selected.album.rows
      requires selected.row.sourceIndex in live
      requires |Outrankers(list.rows, live, GroupOfAlbum(selected.album))| < ALBUM_LOOKAHEAD
      modifies this`live, repr
      ensures Valid() && live == old(live) - {selected.row.sourceIndex}
    {
      OwnHeap(whole, candidates);
      hide Lent, Taken, CountPending, Valid, Outrankers;
      TakeSelected(selected, candidates, whole);
      PutBack(candidates, whole, selected.artist, selected.row.sourceIndex);
      SettleCount(selected.album.key, selected.row.sourceIndex);
    }

    lemma OwnHeap(whole: seq<ArtistState>, candidates: seq<ArtistState>)
      requires Lent(whole, candidates)
      ensures artistHeap in repr
    {
    }

    lemma CandidateIsLive(artist: ArtistState, candidates: seq<ArtistState>, whole: seq<ArtistState>)
      requires Lent(whole, candidates) && artist in candidates
      ensures artist in whole && LiveArtistOk(artist, list.rows, live) && live <= AllRows(list.rows)
    {
      hide HeapOrdered, CountsOk, IndexOk, OnePerArtist, LiveArtistOk, ArtistFootprint;
      assert artist in multiset(candidates);
      assert artist in multiset(whole);
    }

    lemma SelectedProposal(selected: TrackProposal, proposals: seq<TrackProposal>, previous: Option<nat>)
      requires IsFrontier(list, live, previous, Views(proposals)) && selected in proposals
      ensures InFrontier(list.rows, live, selected.artist.key, selected.album.key) && selected.row.sourceIndex in live
    {
      hide Outrankers, Count, First, Precedes;
      var k :| 0 <= k < |proposals| && proposals[k] == selected;
      assert Views(proposals)[k] == View(selected);
      SequencingFacts(list, live, previous, View(selected));
    }

    /** The chosen proposal is one the policy decides on, its row is live, and its album is among the artist's best eight. */
    lemma SelectionFacts(selected: TrackProposal, proposals: seq<TrackProposal>, candidates: seq<ArtistState>, previous: Option<nat>,
                         whole: seq<ArtistState>)
      requires Lent(whole, candidates)
      requires previous.Some? ==> previous.value < |list.rows|
      requires |proposals| > 0 && IsFrontier(list, live, previous, Views(proposals))
      requires selected in proposals && View(selected) == Decide(list, live, previous, Views(proposals))
      requires selected.artist in candidates && selected.album in multiset(selected.artist.albums.values) && selected.row in selected.album.rows
      ensures Step(list, live, previous, selected.row.sourceIndex)
      ensures selected.row.sourceIndex in live && selected.row.sourceIndex < |list.rows|
      ensures list.rows[selected.row.sourceIndex] == Row(selected.row.artistKey, selected.row.albumKey)
      ensures |Outrankers(list.rows, live, GroupOfAlbum(selected.album))| < ALBUM_LOOKAHEAD
      ensures selected.album in selected.artist.albums.values
    {
      hide Lent, Outrankers, IsFrontier, Decide, Count, First, LiveArtistOk;
      CandidateIsLive(selected.artist, candidates, whole);
      SelectedProposal(selected, proposals, previous);
      OwnAlbum(selected.artist, selected.album, selected.row, list.rows, live);
    }

    lemma SequencingFacts(list: Playlist, live: set<nat>, previous: Option<nat>, p: Proposal)
      requires IsProposal(list, live, previous, p)
      ensures p.row in live
    {
    }

    /** Everything about a selected proposal that committing it needs. */
    ghost predicate Selected(selected: TrackProposal, candidates: seq<ArtistState>, whole: seq<ArtistState>, previous: Option<nat>)
      reads this, repr
    {
      && Lent(whole, candidates)
      && selected.artist in candidates && selected.artist in whole && selected.artist.albums in repr
      && selected.album in selected.artist.albums.values && selected.row in selected.album.rows
      && selected.row.sourceIndex in live && selected.row.sourceIndex < |list.rows|
      && list.rows[selected.row.sourceIndex] == Row(selected.row.artistKey, selected.row.albumKey)
      && |Outrankers(list.rows, live, GroupOfAlbum(selected.album))| < ALBUM_LOOKAHEAD
      && Step(list, live, previous, selected.row.sourceIndex)
    }

    /** The leading albums over all artists; the proposals stay as they are. */
    method RankAlbums(ghost proposals: seq<TrackProposal>, ghost candidates: seq<ArtistState>, ghost whole: seq<ArtistState>,
                      ghost previous: Option<nat>)
      returns (top: seq<CountState>)
      requires Lent(whole, candidates) && Proposed(list, live, proposals, candidates, previous)
      modifies albumCountHeap`values
      ensures Lent(whole, candidates) && Proposed(list, live, proposals, candidates, previous)
      ensures TopTrue(top, list.rows, live)
    {
      hide Lent, TopTrue, Proposed;
      forall ar | ar in candidates ensures albumCountHeap as object != ar.albums {
        CountHeapIsNoAlbumHeap(albumCountHeap, ar);
      }
      top := TopAlbumCounts(whole, candidates);
    }

    method SelectNext(candidates: seq<ArtistState>, previous: InternalRow?, remainingAfterSelection: nat, ghost whole: seq<ArtistState>)
      returns (selected: TrackProposal)
      requires Lent(whole, candidates) && |live| > 0 && remainingAfterSelection == |live| - 1
      requires |candidates| > 0 && AreCandidates(list.rows, live, ArtistKeys(candidates))
      requires previous != null ==>
        previous.sourceIndex < |list.rows| && list.rows[previous.sourceIndex] == Row(previous.artistKey, previous.albumKey)
      modifies repr
      ensures Selected(selected, candidates, whole, IndexOf(previous)) && live == old(live)
    {
      hide Lent, AreCandidates, IsFrontier, Decide, TopTrue, Selected, Views, View, Proposed;
      LentHeaps(whole, candidates);
      var proposals := Propose(candidates, IndexOf(previous), whole);
      var top := RankAlbums(proposals, candidates, whole, IndexOf(previous));
      ProposedParts(list, live, proposals, candidates, IndexOf(previous));
      if |proposals| == 0 {
        assert false;  // "no remaining track proposal"
      }
      selected := SelectFrom(proposals, candidates, top, remainingAfterSelection, previous, whole);
      SelectionIsGood(selected, proposals, candidates, IndexOf(previous), whole);
    }

    lemma SelectionIsGood(selected: TrackProposal, proposals: seq<TrackProposal>, candidates: seq<ArtistState>, previous: Option<nat>,
                          whole: seq<ArtistState>)
      requires Lent(whole, candidates) && Proposed(list, live, proposals, candidates, previous)
      requires previous.Some? ==> previous.value < |list.rows|
      requires selected in proposals && View(selected) == Decide(list, live, previous, Views(proposals))
      ensures Selected(selected, candidates, whole, previous)
    {
      hide Lent, Step, Decide, IsFrontier, Outrankers;
      SelectionFacts(selected, proposals, candidates, previous, whole);
      SelectedIsOwned(selected, candidates, whole);
    }

    lemma LentHeaps(whole: seq<ArtistState>, candidates: seq<ArtistState>)
      requires Lent(whole, candidates)
      ensures artistHeap in repr && albumCountHeap in repr
    {
    }

    /** One pass of the loop: place the row the policy prescribes. */
    method PlaceNext(previous: InternalRow?, remainingAfterSelection: nat) returns (row: InternalRow)
      requires Valid() && live != {} && remainingAfterSelection == |live| - 1
      requires previous != null ==>
        previous.sourceIndex < |list.rows| && list.rows[previous.sourceIndex] == Row(previous.artistKey, previous.albumKey)
      modifies this`live, repr
      ensures Valid() && live == old(live) - {row.sourceIndex}
      ensures Step(list, old(live), IndexOf(previous), row.sourceIndex)
      ensures row.sourceIndex in old(live) && row.sourceIndex < |list.rows|
      ensures list.rows[row.sourceIndex] == Row(row.artistKey, row.albumKey)
    {
      OwnHeaps();
      hide Valid, Lent, AreCandidates, Step, Outrankers;
      ghost var whole := artistHeap.values;
      var candidates := LendCandidates();
      var selected := SelectNext(candidates, previous, remainingAfterSelection, whole);
      row := selected.row;
      Commit(selected, candidates, whole);
    }

    lemma OwnHeaps()
      requires Valid()
      ensures artistHeap in repr && albumCountHeap in repr
    {
    }
  }
}
