/** Collecting the proposals of the bounded frontier from the heaps. */
module SequencerProposals {
  import opened Collections
  import opened PriorityHeap
  import opened PlaylistGroups
  import opened SequencingPolicy
  import opened SequencerState
  import opened SequencingChoices

  function Sources(rs: seq<InternalRow>): (r: seq<nat>)
    ensures |r| == |rs| && forall k | 0 <= k < |rs| :: r[k] == rs[k].sourceIndex
  {
    seq(|rs|, k requires 0 <= k < |rs| => rs[k].sourceIndex)
  }

  method FirstAvailableRows(album: AlbumState, maximum: nat, ghost rows: seq<Row>, ghost live: set<nat>)
    returns (available: seq<InternalRow>)
    requires AlbumOk(album, rows, live)
    ensures Sources(available) == FirstAvailable(Positions(rows, GroupOfAlbum(album)), live, maximum)
    ensures forall r | r in available :: r in album.rows
  {
    hide AlbumOk, Positions, StillLive, FirstAvailable, Sources, GroupOfAlbum;
    ghost var positions := Positions(rows, GroupOfAlbum(album));
    AlbumFacts(album, rows, live);
    available := [];
    NoSources();
    NothingLive(positions[..album.cursor], live);
    var index := album.cursor;
    while index < |album.rows| && |available| < maximum
      invariant album.cursor <= index <= |album.rows|
      invariant |available| <= maximum
      invariant Sources(available) == StillLive(positions[..index], live)
      invariant forall r | r in available :: r in album.rows
    {
      var row := album.rows[index];
      TakeRow(available, row, positions, index, live);
      if !row.selected {
        available := available + [row];
      }
      index := index + 1;
    }
    EnoughRows(positions, index, maximum, live);
  }

  lemma NoSources()
    ensures Sources([]) == []
  {
  }

  lemma AlbumFacts(al: AlbumState, rows: seq<Row>, live: set<nat>)
    requires AlbumOk(al, rows, live)
    ensures var positions := Positions(rows, GroupOfAlbum(al));
      && al.cursor <= |al.rows| == |positions|
      && (forall k | 0 <= k < |al.rows| ::
            al.rows[k].sourceIndex == positions[k] && (al.rows[k].selected <==> positions[k] !in live))
      && (forall k | 0 <= k < al.cursor :: positions[k] !in live)
  {
    var positions := Positions(rows, GroupOfAlbum(al));
    assert forall k | 0 <= k < |al.rows| :: RowOk(al.rows[k], al.artist, al.key, positions[k], live);
  }

  lemma EnoughRows(positions: seq<nat>, index: nat, maximum: nat, live: set<nat>)
    requires index <= |positions|
    requires |StillLive(positions[..index], live)| <= maximum
    requires index == |positions| || |StillLive(positions[..index], live)| == maximum
    ensures FirstAvailable(positions, live, maximum) == StillLive(positions[..index], live)
  {
    assert positions == positions[..index] + positions[index..];
    StillLiveAppend(positions[..index], positions[index..], live);
  }

  lemma TakeRow(available: seq<InternalRow>, row: InternalRow, positions: seq<nat>, index: nat, live: set<nat>)
    requires index < |positions| && row.sourceIndex == positions[index]
    requires Sources(available) == StillLive(positions[..index], live)
    ensures Sources(if row.sourceIndex in live then available + [row] else available) == StillLive(positions[..index + 1], live)
  {
    assert positions[..index + 1][..index] == positions[..index];
    assert Sources(available + [row]) == Sources(available) + [positions[index]];
  }

  lemma {:induction false} NothingLive(positions: seq<nat>, live: set<nat>)
    requires forall k | 0 <= k < |positions| :: positions[k] !in live
    ensures StillLive(positions, live) == []
  {
    if |positions| > 0 {
      NothingLive(positions[..|positions| - 1], live);
    }
  }

  lemma {:induction false} StillLiveAppend(s: seq<nat>, t: seq<nat>, live: set<nat>)
    ensures StillLive(s + t, live) == StillLive(s, live) + StillLive(t, live)
  {
    if |t| == 0 {
      assert s + t == s;
    } else {
      assert (s + t)[..|s + t| - 1] == s + t[..|t| - 1];
      StillLiveAppend(s, t[..|t| - 1], live);
    }
  }

  /** Keep the row whose transition from the previous row is best; the first one starts as best. */
  method BestAvailableRow(list: Playlist, previous: Option<nat>, candidates: seq<InternalRow>)
    returns (bestRow: InternalRow, bestTransition: TransitionScore)
    requires |candidates| > 0
    ensures bestRow in candidates
    ensures bestRow.sourceIndex == BestRow(list, previous, Sources(candidates))
    ensures bestTransition == list.transition(previous, bestRow.sourceIndex)
    ensures forall k | 0 <= k < |candidates| ::
      NearlyAsGood(list.preference, bestTransition.value, list.transition(previous, candidates[k].sourceIndex).value,
                   (|candidates| - 1) as real * 0.000000001)
  {
    bestRow := candidates[0];
    bestTransition := list.transition(previous, bestRow.sourceIndex);
    for index := 1 to |candidates|
      invariant bestRow in candidates
      invariant bestTransition == list.transition(previous, bestRow.sourceIndex)
      invariant bestRow.sourceIndex == BestRow(list, previous, Sources(candidates)[..index])
    {
      var row := candidates[index];
      var transition := list.transition(previous, row.sourceIndex);
      assert Sources(candidates)[..index + 1][..index] == Sources(candidates)[..index];
      if BetterRow(list.preference, row.sourceIndex, transition, bestRow.sourceIndex, bestTransition) {
        bestRow, bestTransition := row, transition;
      }
    }
    assert Sources(candidates)[..|candidates|] == Sources(candidates);
    BestRowIsNear(list, previous, Sources(candidates));
  }

  // ---------- the proposals of one artist ----------

  function View(p: TrackProposal): Proposal {
    Proposal(p.artist.key, p.album.key, p.row.sourceIndex, p.transition)
  }

  function Views(ps: seq<TrackProposal>): (r: seq<Proposal>)
    ensures |r| == |ps| && forall k | 0 <= k < |ps| :: r[k] == View(ps[k])
  {
    seq(|ps|, k requires 0 <= k < |ps| => View(ps[k]))
  }

  /** ps holds one proposal for each of the artist's eight best albums, in rank order. */
  ghost predicate IsArtistFrontier(list: Playlist, live: set<nat>, previous: Option<nat>, a: Key, ps: seq<Proposal>) {
    && (forall k | 0 <= k < |ps| ::
          && ps[k].artist == a && Count(list.rows, live, OfArtistAlbum(a, ps[k].album)) > 0
          && |Outrankers(list.rows, live, OfArtistAlbum(a, ps[k].album))| < ALBUM_LOOKAHEAD
          && IsProposal(list, live, previous, ps[k]))
    && (forall j, k | 0 <= j < k < |ps| ::
          Higher(GroupRank(list.rows, live, OfArtistAlbum(a, ps[j].album)), GroupRank(list.rows, live, OfArtistAlbum(a, ps[k].album))))
    && (forall b | Count(list.rows, live, OfArtistAlbum(a, b)) > 0
                && |Outrankers(list.rows, live, OfArtistAlbum(a, b))| < ALBUM_LOOKAHEAD ::
          exists k :: 0 <= k < |ps| && ps[k].album == b)
  }

  /** Taking from the top of all peers up to a limit takes exactly those that fewer than limit peers outrank. */
  lemma PoppedAreFrontier(rows: seq<Row>, live: set<nat>, popped: seq<Group>, rest: set<Group>, limit: nat)
    requires forall g | g in popped || g in rest :: Peers(rows, live, g) == Elements(popped) + rest
    requires forall i, j | 0 <= i < j < |popped| :: Higher(GroupRank(rows, live, popped[i]), GroupRank(rows, live, popped[j]))
    requires forall g, h | g in popped && h in rest :: Higher(GroupRank(rows, live, g), GroupRank(rows, live, h))
    requires |popped| <= limit && (|popped| == limit || rest == {})
    ensures forall g | g in popped :: |Outrankers(rows, live, g)| < limit
    ensures forall g | g in rest :: |Outrankers(rows, live, g)| >= limit
  {
    assert Distinct(popped);
    forall k | 0 <= k < |popped| ensures |Outrankers(rows, live, popped[k])| < limit {
      assert Outrankers(rows, live, popped[k]) <= Elements(popped[..k]);
      SubsetCardinality(Outrankers(rows, live, popped[k]), Elements(popped[..k]));
      DistinctCardinality(popped[..k]);
    }
    forall g | g in rest ensures |Outrankers(rows, live, g)| >= limit {
      assert Elements(popped) <= Outrankers(rows, live, g);
      DistinctCardinality(popped);
      SubsetCardinality(Elements(popped), Outrankers(rows, live, g));
    }
  }

  ghost function AlbumGroups(albums: seq<AlbumState>): (r: seq<Group>)
    ensures |r| == |albums| && forall k | 0 <= k < |albums| :: r[k] == GroupOfAlbum(albums[k])
  {
    seq(|albums|, k requires 0 <= k < |albums| => GroupOfAlbum(albums[k]))
  }

  ghost predicate ProposalOf(list: Playlist, artist: ArtistState, album: AlbumState, previous: Option<nat>, live: set<nat>,
                             p: TrackProposal) {
    && p.artist == artist && p.album == album && p.row in album.rows
    && IsProposal(list, live, previous, View(p))
  }

  method ProposeAlbum(list: Playlist, artist: ArtistState, album: AlbumState, previous: Option<nat>, ghost live: set<nat>)
    returns (proposals: seq<TrackProposal>)
    requires album.artist == artist.key && album.remaining > 0 && AlbumOk(album, list.rows, live)
    ensures |proposals| == 1 && ProposalOf(list, artist, album, previous, live, proposals[0])
  {
    hide AlbumOk, FirstAvailable, BestRow, Positions;
    LiveAlbumHasRow(album, list.rows, live);
    var rows := FirstAvailableRows(album, TRACK_LOOKAHEAD, list.rows, live);
    if |rows| == 0 { return []; }
    var row, transition := BestAvailableRow(list, previous, rows);
    proposals := [TrackProposal(artist, album, row, transition)];
  }

  /** One proposal per album, in the order given. */
  method ProposeAlbums(list: Playlist, artist: ArtistState, albums: seq<AlbumState>, previous: Option<nat>, ghost live: set<nat>)
    returns (proposals: seq<TrackProposal>)
    requires AllAlbumsOk(albums, artist.key, list.rows, live)
    ensures |proposals| == |albums|
    ensures forall k | 0 <= k < |albums| :: ProposalOf(list, artist, albums[k], previous, live, proposals[k])
  {
    hide ProposalOf, Positions, First, Members;
    proposals := [];
    for index := 0 to |albums|
      invariant |proposals| == index
      invariant forall k | 0 <= k < index :: ProposalOf(list, artist, albums[k], previous, live, proposals[k])
    {
      assert albums[index] in albums;
      var proposed := ProposeAlbum(list, artist, albums[index], previous, live);
      proposals := proposals + proposed;
    }
  }

  lemma LiveAlbumHasRow(al: AlbumState, rows: seq<Row>, live: set<nat>)
    requires AlbumOk(al, rows, live) && al.remaining > 0
    ensures |FirstAvailable(Positions(rows, GroupOfAlbum(al)), live, TRACK_LOOKAHEAD)| > 0
  {
    var i :| i in Members(rows, live, GroupOfAlbum(al));
    assert i in StillLive(Positions(rows, GroupOfAlbum(al)), live);
  }

  lemma HeapIsNoAlbum(heap: BinaryHeap<AlbumState>, albums: seq<AlbumState>)
    ensures heap !in AlbumObjects(albums)
  {
  }

  /** An artist's heap may hold its albums in any heap order. */
  lemma SameAlbums(before: seq<AlbumState>, after: seq<AlbumState>, a: Key, rows: seq<Row>, live: set<nat>)
    requires AllAlbumsOk(before, a, rows, live) && OnePerAlbum(before, a, rows, live)
    requires multiset(after) == multiset(before)
    requires HeapOrdered(after, AlbumRanks(before, rows, live))
    ensures AllAlbumsOk(after, a, rows, live) && OnePerAlbum(after, a, rows, live)
    ensures HeapOrdered(after, AlbumRanks(after, rows, live))
  {
    hide AlbumOk, GroupRank, Count;
    SameContents(before, after);
    SameHeapOrder(after, AlbumRanks(before, rows, live), AlbumRanks(after, rows, live));
  }

  lemma AlbumPeers(rows: seq<Row>, live: set<nat>, g: Group, h: Group)
    requires g.OfArtistAlbum?
    ensures h in Peers(rows, live, g) <==> h.OfArtistAlbum? && h.artist == g.artist && Count(rows, live, h) > 0
  {
    CountPositive(rows, live, h);
    if h.OfArtistAlbum? && h.artist == g.artist && Count(rows, live, h) > 0 {
      var i :| i in live && i < |rows| && Belongs(rows[i], h);
      assert Comparable(rows[i], g) && Peer(rows[i], g) == h;
    }
  }

  lemma GroupsOfParts(whole: seq<AlbumState>, popped: seq<AlbumState>, rest: seq<AlbumState>, g: Group)
    requires multiset(whole) == multiset(rest) + multiset(popped)
    ensures g in AlbumGroups(popped) || g in AlbumGroups(rest) <==> exists al :: al in whole && GroupOfAlbum(al) == g
  {
    assert forall al :: al in whole <==> al in multiset(whole);
    assert forall al :: al in rest <==> al in multiset(rest);
    assert forall al :: al in popped <==> al in multiset(popped);
    if al :| al in whole && GroupOfAlbum(al) == g {
      if al in popped {
        var k :| 0 <= k < |popped| && popped[k] == al;
        assert AlbumGroups(popped)[k] == g;
      } else {
        var k :| 0 <= k < |rest| && rest[k] == al;
        assert AlbumGroups(rest)[k] == g;
      }
    }
    if g in AlbumGroups(popped) {
      var k :| 0 <= k < |popped| && AlbumGroups(popped)[k] == g;
      assert popped[k] in whole;
    }
    if g in AlbumGroups(rest) {
      var k :| 0 <= k < |rest| && AlbumGroups(rest)[k] == g;
      assert rest[k] in whole;
    }
  }

  /** Every album of the artist that still has rows is either popped or left in the heap. */
  lemma PoppedPeers(whole: seq<AlbumState>, popped: seq<AlbumState>, rest: seq<AlbumState>, a: Key, rows: seq<Row>, live: set<nat>,
                    g: Group)
    requires AllAlbumsOk(whole, a, rows, live) && OnePerAlbum(whole, a, rows, live)
    requires multiset(whole) == multiset(rest) + multiset(popped)
    requires g.OfArtistAlbum? && g.artist == a
    ensures Peers(rows, live, g) == Elements(AlbumGroups(popped)) + Elements(AlbumGroups(rest))
    ensures Count(rows, live, g) > 0 <==> g in AlbumGroups(popped) || g in AlbumGroups(rest)
  {
    hide Peers;
    forall h: Group
      ensures h in AlbumGroups(popped) || h in AlbumGroups(rest) <==> h in Peers(rows, live, g)
    {
      AlbumPeers(rows, live, g, h);
      GroupsOfParts(whole, popped, rest, h);
      hide AlbumGroups, Count;
      if h in Peers(rows, live, g) {
        assert exists al :: al in whole && al.key == h.album;
      }
      if al :| al in whole && GroupOfAlbum(al) == h {
        assert AlbumOk(al, rows, live) && al.artist == a;
      }
    }
    AlbumPeers(rows, live, g, g);
  }

  lemma PoppedGroupsAreFrontier(whole: seq<AlbumState>, popped: seq<AlbumState>, rest: seq<AlbumState>, a: Key,
                                rows: seq<Row>, live: set<nat>)
    requires AllAlbumsOk(whole, a, rows, live) && OnePerAlbum(whole, a, rows, live)
    requires TakenFromTop(whole, popped, rest, AlbumRanks(whole, rows, live))
    requires |popped| <= ALBUM_LOOKAHEAD && (|popped| == ALBUM_LOOKAHEAD || rest == [])
    ensures forall b :: Count(rows, live, OfArtistAlbum(a, b)) > 0 ==>
      (|Outrankers(rows, live, OfArtistAlbum(a, b))| < ALBUM_LOOKAHEAD <==> OfArtistAlbum(a, b) in AlbumGroups(popped))
    ensures forall k | 0 <= k < |popped| :: popped[k].artist == a && Count(rows, live, GroupOfAlbum(popped[k])) > 0
  {
    hide AlbumOk, GroupRank, Peers, Count, Outrankers;
    var top, others := AlbumGroups(popped), Elements(AlbumGroups(rest));
    forall al | al in popped || al in rest ensures al in whole && al.artist == a {
      assert al in multiset(whole);
    }
    forall g | g in top || g in others
      ensures Peers(rows, live, g) == Elements(top) + others
    {
      PoppedPeers(whole, popped, rest, a, rows, live, g);
    }
    PoppedAreFrontier(rows, live, top, others, ALBUM_LOOKAHEAD);
    forall b
      ensures Count(rows, live, OfArtistAlbum(a, b)) > 0 <==> OfArtistAlbum(a, b) in top || OfArtistAlbum(a, b) in others
    {
      PoppedPeers(whole, popped, rest, a, rows, live, OfArtistAlbum(a, b));
    }
    forall k | 0 <= k < |popped| ensures Count(rows, live, GroupOfAlbum(popped[k])) > 0 {
      assert popped[k] in popped && top[k] in top;
    }
  }

  lemma ProposalsAreFrontier(list: Playlist, live: set<nat>, previous: Option<nat>, artist: ArtistState,
                             whole: seq<AlbumState>, popped: seq<AlbumState>, rest: seq<AlbumState>, proposals: seq<TrackProposal>)
    requires AllAlbumsOk(whole, artist.key, list.rows, live) && OnePerAlbum(whole, artist.key, list.rows, live)
    requires TakenFromTop(whole, popped, rest, AlbumRanks(whole, list.rows, live))
    requires |popped| <= ALBUM_LOOKAHEAD && (|popped| == ALBUM_LOOKAHEAD || rest == [])
    requires |proposals| == |popped|
    requires forall k | 0 <= k < |popped| :: ProposalOf(list, artist, popped[k], previous, live, proposals[k])
    ensures IsArtistFrontier(list, live, previous, artist.key, Views(proposals))
  {
    hide AlbumOk, GroupRank, Count, Outrankers, IsProposal;
    PoppedGroupsAreFrontier(whole, popped, rest, artist.key, list.rows, live);
    var ps := Views(proposals);
    forall k | 0 <= k < |ps| ensures GroupOfAlbum(popped[k]) == OfArtistAlbum(artist.key, ps[k].album)
      && |Outrankers(list.rows, live, OfArtistAlbum(artist.key, ps[k].album))| < ALBUM_LOOKAHEAD {
      assert ProposalOf(list, artist, popped[k], previous, live, proposals[k]);
      assert AlbumGroups(popped)[k] in AlbumGroups(popped);
    }
    forall b | Count(list.rows, live, OfArtistAlbum(artist.key, b)) > 0
            && |Outrankers(list.rows, live, OfArtistAlbum(artist.key, b))| < ALBUM_LOOKAHEAD
      ensures exists k :: 0 <= k < |ps| && ps[k].album == b
    {
      var k :| 0 <= k < |popped| && AlbumGroups(popped)[k] == OfArtistAlbum(artist.key, b);
      assert ps[k].album == b;
    }
  }

  lemma ProposalsComeFrom(list: Playlist, live: set<nat>, previous: Option<nat>, artist: ArtistState,
                          whole: seq<AlbumState>, popped: seq<AlbumState>, rest: seq<AlbumState>, proposals: seq<TrackProposal>)
    requires multiset(whole) == multiset(rest) + multiset(popped)
    requires |proposals| == |popped|
    requires forall k | 0 <= k < |popped| :: ProposalOf(list, artist, popped[k], previous, live, proposals[k])
    ensures forall p | p in proposals :: p.artist == artist && p.album in whole && p.row in p.album.rows
  {
    forall k | 0 <= k < |popped|
      ensures proposals[k].artist == artist && proposals[k].album in whole && proposals[k].row in proposals[k].album.rows
    {
      assert ProposalOf(list, artist, popped[k], previous, live, proposals[k]);
      assert popped[k] in multiset(whole);
    }
  }

  method PopAlbums(heap: BinaryHeap<AlbumState>, ghost artist: Key, ghost rows: seq<Row>, ghost live: set<nat>)
    returns (popped: seq<AlbumState>)
    requires HeapOk(heap, artist, rows, live)
    modifies heap`values
    ensures AllAlbumsOk(old(heap.values), artist, rows, live) && OnePerAlbum(old(heap.values), artist, rows, live)
    ensures HeapOrdered(heap.values, AlbumRanks(old(heap.values), rows, live))
    ensures TakenFromTop(old(heap.values), popped, heap.values, AlbumRanks(old(heap.values), rows, live))
    ensures |popped| <= ALBUM_LOOKAHEAD && (|popped| == ALBUM_LOOKAHEAD || heap.values == [])
  {
    hide GroupRank, Count, Members, Positions, First, TakenFromTop, AlbumOk;
    ghost var whole := heap.values;
    AlbumsCompareByRank(whole, artist, rows, live);
    HeapIsNoAlbum(heap, whole);
    hide OnePerAlbum;
    WholeIsDistinct(whole, artist, rows, live);
    popped := PopUpTo(heap, ALBUM_LOOKAHEAD, AlbumHigherPriority, AlbumRanks(whole, rows, live));
  }

  method PushAlbums(heap: BinaryHeap<AlbumState>, albums: seq<AlbumState>, ghost whole: seq<AlbumState>,
                    ghost artist: Key, ghost rows: seq<Row>, ghost live: set<nat>)
    requires AllAlbumsOk(whole, artist, rows, live) && OnePerAlbum(whole, artist, rows, live)
    requires HeapOrdered(heap.values, AlbumRanks(whole, rows, live))
    requires multiset(whole) == multiset(heap.values) + multiset(albums)
    modifies heap`values
    ensures HeapOk(heap, artist, rows, live)
    ensures multiset(heap.values) == multiset(whole)
  {
    hide GroupRank, Count, Members, Positions, First, AlbumOk, OnePerAlbum;
    AlbumsCompareByRank(whole, artist, rows, live);
    HeapIsNoAlbum(heap, whole);
    forall i | 0 <= i < |albums| ensures albums[i] in whole {
      assert albums[i] in multiset(whole);
    }
    PushAll(heap, albums, AlbumHigherPriority, AlbumRanks(whole, rows, live));
    SameAlbums(whole, heap.values, artist, rows, live);
  }

  /** A live artist has an album to propose. */
  lemma LiveArtistHasAlbum(ar: ArtistState, rows: seq<Row>, live: set<nat>)
    requires LiveArtistOk(ar, rows, live)
    ensures |ar.albums.values| > 0
  {
    var i :| i in Members(rows, live, OfArtist(ar.key));
    assert i in Members(rows, live, OfArtistAlbum(ar.key, rows[i].album));
    assert exists al :: al in ar.albums.values && al.key == rows[i].album;
  }

  lemma SomethingPopped(whole: seq<AlbumState>, popped: seq<AlbumState>, rest: seq<AlbumState>)
    requires |whole| > 0 && multiset(whole) == multiset(rest) + multiset(popped)
    requires |popped| == ALBUM_LOOKAHEAD || rest == []
    ensures |popped| > 0
  {
    assert whole[0] in multiset(whole);
  }

  /** Look at the eight best albums of an artist, then put them back. */
  method TrackProposalsForArtist(list: Playlist, artist: ArtistState, previous: Option<nat>, ghost live: set<nat>)
    returns (proposals: seq<TrackProposal>)
    requires LiveArtistOk(artist, list.rows, live)
    modifies artist.albums`values
    ensures LiveArtistOk(artist, list.rows, live)
    ensures multiset(artist.albums.values) == old(multiset(artist.albums.values))
    ensures IsArtistFrontier(list, live, previous, artist.key, Views(proposals))
    ensures |proposals| > 0
    ensures forall p | p in proposals :: p.artist == artist && p.album in multiset(artist.albums.values) && p.row in p.album.rows
  {
    hide Count, First, AllAlbumsOk, IsArtistFrontier, ProposalOf, OnePerAlbum, TakenFromTop, HeapOrdered;
    ghost var whole := artist.albums.values;
    HeapIsNoAlbum(artist.albums, whole);
    LiveArtistHasAlbum(artist, list.rows, live);
    var poppedAlbums := PopAlbums(artist.albums, artist.key, list.rows, live);
    ghost var rest := artist.albums.values;
    PoppedAlbumsOk(whole, poppedAlbums, rest, artist.key, list.rows, live);
    SomethingPopped(whole, poppedAlbums, rest);
    proposals := ProposeAlbums(list, artist, poppedAlbums, previous, live);
    ProposalsAreFrontier(list, live, previous, artist, whole, poppedAlbums, rest, proposals);
    ProposalsComeFrom(list, live, previous, artist, whole, poppedAlbums, rest, proposals);
    PushAlbums(artist.albums, poppedAlbums, whole, artist.key, list.rows, live);
  }

  lemma WholeIsDistinct(whole: seq<AlbumState>, a: Key, rows: seq<Row>, live: set<nat>)
    requires OnePerAlbum(whole, a, rows, live)
    ensures Distinct(whole)
  {
  }

  lemma PoppedAlbumsOk(whole: seq<AlbumState>, popped: seq<AlbumState>, rest: seq<AlbumState>, a: Key, rows: seq<Row>, live: set<nat>)
    requires AllAlbumsOk(whole, a, rows, live)
    requires TakenFromTop(whole, popped, rest, AlbumRanks(whole, rows, live))
    ensures AllAlbumsOk(popped, a, rows, live)
    ensures multiset(whole) == multiset(rest) + multiset(popped)
    ensures RankedAll(popped, AlbumRanks(whole, rows, live))
  {
    hide AlbumOk;
    forall al | al in popped ensures al in whole {
      assert al in multiset(whole);
    }
  }
}
