/** Popping the leading artists, taking the chosen row from one of them, and putting them back. */
module SequencerArtists {
  import opened Collections
  import opened PriorityHeap
  import opened PlaylistGroups
  import opened SequencingPolicy
  import opened SequencerState
  import opened SequencerProposals
  import opened SequencerFrontier
  import opened SequencerChoice
  import opened SequencerCommit
  import opened AlbumCountIndex

  // ---------- one artist among all ----------

  /** Objects of one artist are not reachable from another. */
  lemma ArtistsApart(ar: ArtistState, artist: ArtistState, album: AlbumState, row: InternalRow, rows: seq<Row>, live: set<nat>)
    requires LiveArtistOk(ar, rows, live) && LiveArtistOk(artist, rows, live)
    requires ar != artist && ar.key != artist.key && ar.albums != artist.albums
    requires album in artist.albums.values && row in album.rows
    ensures artist !in ArtistFootprint(ar) && artist.albums !in ArtistFootprint(ar)
    ensures album !in ArtistFootprint(ar) && row !in ArtistFootprint(ar)
  {
    hide AlbumOk, Count, First, OnePerAlbum, HeapOrdered;
    HeapIsNoAlbum(artist.albums, ar.albums.values);
    forall al | al in ar.albums.values
      ensures album !in Footprint(al) && row !in Footprint(al)
    {
      assert AlbumOk(al, rows, live) && AlbumOk(album, rows, live);
      RowElsewhere(al, album, row, rows, live);
    }
  }

  lemma HeapUnaffected(heap: BinaryHeap<AlbumState>, artist: Key, rows: seq<Row>, live: set<nat>, c: nat)
    requires HeapOk(heap, artist, rows, live)
    requires c in live && c < |rows| && rows[c].artist != artist
    ensures HeapOk(heap, artist, rows, live - {c})
  {
    hide Count, First, AlbumOk, HeapOrdered, Distinct;
    var albums := heap.values;
    forall al | al in albums
      ensures AlbumOk(al, rows, live - {c})
      ensures GroupRank(rows, live - {c}, GroupOfAlbum(al)) == GroupRank(rows, live, GroupOfAlbum(al))
    {
      AlbumUnaffected(al, rows, live, c);
    }
    hide GroupRank;
    forall b ensures Count(rows, live - {c}, OfArtistAlbum(artist, b)) == Count(rows, live, OfArtistAlbum(artist, b)) {
      CountAfter(rows, live, OfArtistAlbum(artist, b), c);
    }
    HeapRanked(albums, AlbumRanks(albums, rows, live));
    SameHeapOrder(albums, AlbumRanks(albums, rows, live), AlbumRanks(albums, rows, live - {c}));
  }

  lemma HeapRanked<T>(s: seq<T>, rank: map<T, Rank>)
    requires HeapOrdered(s, rank)
    ensures forall i | 0 <= i < |s| :: s[i] in rank
  {
  }

  /** A row of another artist leaves this one's counts, albums and rank alone. */
  lemma ArtistUnaffected(ar: ArtistState, rows: seq<Row>, live: set<nat>, c: nat)
    requires LiveArtistOk(ar, rows, live)
    requires c in live && c < |rows| && rows[c].artist != ar.key
    ensures LiveArtistOk(ar, rows, live - {c})
    ensures GroupRank(rows, live - {c}, OfArtist(ar.key)) == GroupRank(rows, live, OfArtist(ar.key))
  {
    hide Count, First, HeapOk;
    CountAfter(rows, live, OfArtist(ar.key), c);
    HeapUnaffected(ar.albums, ar.key, rows, live, c);
  }

  lemma OwnAlbum(artist: ArtistState, album: AlbumState, row: InternalRow, rows: seq<Row>, live: set<nat>)
    requires LiveArtistOk(artist, rows, live)
    requires album in artist.albums.values && row in album.rows && row.sourceIndex in live
    ensures album.artist == artist.key
    ensures row.sourceIndex < |rows| && rows[row.sourceIndex] == Row(row.artistKey, row.albumKey)
    ensures row.artistKey == artist.key && row.albumKey == album.key
    ensures Count(rows, live - {row.sourceIndex}, OfArtist(artist.key)) == artist.remaining - 1
    ensures artist.remaining > 0
  {
    assert AlbumOk(album, rows, live);
    TakenRowCounts(album, row, rows, live);
    CountAfter(rows, live, OfArtist(artist.key), row.sourceIndex);
  }

  ghost function ArtistObjects(artists: seq<ArtistState>): set<object>
    reads set ar | ar in artists :: ar.albums
  {
    set ar, o | ar in artists && o in ArtistFootprint(ar) :: o
  }

  /** What holds of all artists once the row is taken: the taken one may have run out. */
  ghost predicate AfterRow(whole: seq<ArtistState>, artist: ArtistState, rows: seq<Row>, live: set<nat>, c: nat)
    reads set ar | ar in whole :: ar, set ar | ar in whole :: ar.albums, ArtistObjects(whole)
  {
    && artist in whole && c in live && c < |rows| && rows[c].artist == artist.key
    && (forall ar | ar in whole :: assert ar in ArtistFootprint(ar); ArtistOk(ar, rows, live - {c}))
    && (forall ar | ar in whole && ar != artist ::
          assert ar in ArtistFootprint(ar);
          ar.remaining > 0
          && GroupRank(rows, live - {c}, OfArtist(ar.key)) == GroupRank(rows, live, OfArtist(ar.key)))
  }

  /** Take the chosen row from its artist; every other artist stays as it was. */
  method TakeFromArtist(artist: ArtistState, album: AlbumState, row: InternalRow,
                        ghost whole: seq<ArtistState>, ghost rows: seq<Row>, ghost live: set<nat>)
    requires Separate(whole) && artist in whole
    requires forall ar | ar in whole :: LiveArtistOk(ar, rows, live)
    requires album in artist.albums.values && row in album.rows && row.sourceIndex in live
    requires |Outrankers(rows, live, GroupOfAlbum(album))| < ALBUM_LOOKAHEAD
    modifies artist.albums`values, album`remaining, album`cursor, row`selected, artist`remaining
    ensures AfterRow(whole, artist, rows, live, row.sourceIndex)
    ensures row.sourceIndex < |rows| && rows[row.sourceIndex] == Row(artist.key, album.key)
    ensures forall al | al in artist.albums.values :: al in old(artist.albums.values)
  {
    hide AfterRow, LiveArtistOk, Outrankers, Count, First, GroupRank, HeapOk;
    OwnAlbum(artist, album, row, rows, live);
    forall ar | ar in whole && ar != artist
      ensures artist !in ArtistFootprint(ar) && artist.albums !in ArtistFootprint(ar)
      ensures album !in ArtistFootprint(ar) && row !in ArtistFootprint(ar)
    {
      ArtistsApart(ar, artist, album, row, rows, live);
    }
    LiveArtistParts(artist, rows, live);
    CommitAlbumSelection(artist.albums, album, row, artist.key, rows, live);
    ArtistIsNoAlbum(artist, artist.albums.values);
    artist.remaining := artist.remaining - 1;
    assert forall ar | ar in whole && ar != artist :: LiveArtistOk(ar, rows, live);
    forall ar | ar in whole && ar != artist
      ensures LiveArtistOk(ar, rows, live - {row.sourceIndex})
      ensures GroupRank(rows, live - {row.sourceIndex}, OfArtist(ar.key)) == GroupRank(rows, live, OfArtist(ar.key))
    {
      ArtistUnaffected(ar, rows, live, row.sourceIndex);
    }
    AfterRowHolds(whole, artist, rows, live, row.sourceIndex);
  }

  lemma AfterRowHolds(whole: seq<ArtistState>, artist: ArtistState, rows: seq<Row>, live: set<nat>, c: nat)
    requires artist in whole && c in live && c < |rows| && rows[c].artist == artist.key
    requires ArtistOk(artist, rows, live - {c})
    requires forall ar | ar in whole && ar != artist :: LiveArtistOk(ar, rows, live - {c})
    requires forall ar | ar in whole && ar != artist ::
      GroupRank(rows, live - {c}, OfArtist(ar.key)) == GroupRank(rows, live, OfArtist(ar.key))
    ensures AfterRow(whole, artist, rows, live, c)
  {
    hide HeapOk, GroupRank, Count, First;
  }

  lemma ArtistIsNoAlbum(artist: ArtistState, albums: seq<AlbumState>)
    ensures artist !in AlbumObjects(albums)
  {
  }

  lemma LiveArtistParts(ar: ArtistState, rows: seq<Row>, live: set<nat>)
    requires LiveArtistOk(ar, rows, live)
    ensures HeapOk(ar.albums, ar.key, rows, live) && ar.firstIndex == First(rows, OfArtist(ar.key))
  {
  }

  // ---------- the artist heap ----------

  /** The heap holds exactly the artists that still have rows, in heap order. */
  ghost predicate ArtistsOk(heap: BinaryHeap<ArtistState>, rows: seq<Row>, live: set<nat>)
    reads heap, set ar | ar in heap.values :: ar.albums, ArtistObjects(heap.values)
  {
    && (forall ar | ar in heap.values :: assert ar in ArtistFootprint(ar); LiveArtistOk(ar, rows, live))
    && OnePerArtist(heap.values, rows, live)
    && HeapOrdered(heap.values, ArtistRanks(heap.values, rows, live))
  }

  lemma HeapIsNoArtistPart(heap: BinaryHeap<ArtistState>, ar: ArtistState)
    ensures heap !in ArtistFootprint(ar)
  {
  }

  lemma LiveHasArtist(heap: BinaryHeap<ArtistState>, rows: seq<Row>, live: set<nat>)
    requires ArtistsOk(heap, rows, live) && live <= AllRows(rows)
    ensures live == {} <==> heap.values == []
  {
    hide LiveArtistOk, Separate, HeapOrdered, Count, First;
    if live != {} {
      var i :| i in live;
      CountPositive(rows, live, OfArtist(rows[i].artist));
      assert exists ar :: ar in heap.values && ar.key == rows[i].artist;
    }
    if heap.values != [] {
      var ar := heap.values[0];
      LiveArtistsCount(heap.values, rows, live);
      CountPositive(rows, live, OfArtist(ar.key));
    }
  }

  lemma LiveArtistsCount(whole: seq<ArtistState>, rows: seq<Row>, live: set<nat>)
    requires forall ar | ar in whole :: LiveArtistOk(ar, rows, live)
    ensures forall ar | ar in whole :: ar.remaining == Count(rows, live, OfArtist(ar.key)) && ar.remaining > 0
  {
    forall ar | ar in whole ensures ar.remaining == Count(rows, live, OfArtist(ar.key)) && ar.remaining > 0 {
      assert LiveArtistOk(ar, rows, live);
    }
  }

  /** Pop the sixteen leading artists. */
  method PopCandidates(heap: BinaryHeap<ArtistState>, ghost rows: seq<Row>, ghost live: set<nat>)
    returns (candidates: seq<ArtistState>)
    requires ArtistsOk(heap, rows, live) && heap.values != []
    modifies heap`values
    ensures forall ar | ar in old(heap.values) :: LiveArtistOk(ar, rows, live)
    ensures OnePerArtist(old(heap.values), rows, live)
    ensures multiset(old(heap.values)) == multiset(heap.values) + multiset(candidates)
    ensures HeapOrdered(heap.values, ArtistRanks(old(heap.values), rows, live))
    ensures |candidates| > 0 && AreCandidates(rows, live, ArtistKeys(candidates))
  {
    hide LiveArtistOk, GroupRank, Count, AreCandidates, OnePerArtist, ArtistKeys;
    ghost var whole := heap.values;
    ArtistsCompareByRank(whole, rows, live);
    LiveArtistsCount(whole, rows, live);
    OnePerArtistDistinct(whole, rows, live);
    forall ar | ar in whole ensures heap !in ArtistFootprint(ar) {
      HeapIsNoArtistPart(heap, ar);
    }
    candidates := PopUpTo(heap, ARTIST_LOOKAHEAD, ArtistHigherPriority, ArtistRanks(whole, rows, live));
    PoppedArtistsAreCandidates(whole, candidates, heap.values, rows, live);
    assert whole[0] in multiset(heap.values) + multiset(candidates);
  }

  lemma OnePerArtistDistinct(whole: seq<ArtistState>, rows: seq<Row>, live: set<nat>)
    requires OnePerArtist(whole, rows, live)
    ensures Distinct(whole) && Separate(whole)
  {
  }

  // ---------- putting the artists back ----------

  /** The candidates that still have rows, in order. */
  function StillPlaying(candidates: seq<ArtistState>): (r: seq<ArtistState>)
    reads candidates
    ensures forall ar | ar in r :: ar in candidates && ar.remaining > 0
    ensures forall ar | ar in candidates && ar.remaining > 0 :: ar in r
  {
    if |candidates| == 0 then []
    else
      var last := candidates[|candidates| - 1];
      var before := StillPlaying(candidates[..|candidates| - 1]);
      assert forall ar | ar in candidates :: ar in candidates[..|candidates| - 1] || ar == last;
      if last.remaining > 0 then before + [last] else before
  }

  lemma {:induction false} StillPlayingDistinct(candidates: seq<ArtistState>)
    requires Distinct(candidates)
    ensures Distinct(StillPlaying(candidates))
  {
    if |candidates| > 0 {
      var before := candidates[..|candidates| - 1];
      StillPlayingDistinct(before);
      assert candidates[|candidates| - 1] !in before;
      assert candidates[|candidates| - 1] !in StillPlaying(before);
    }
  }

  lemma ReturnedArtists(whole: seq<ArtistState>, candidates: seq<ArtistState>, rest: seq<ArtistState>)
    requires Distinct(whole) && multiset(whole) == multiset(rest) + multiset(candidates)
    requires forall ar | ar in rest :: ar.remaining > 0
    ensures Distinct(rest + StillPlaying(candidates))
    ensures forall ar :: ar in rest + StillPlaying(candidates) <==> ar in whole && ar.remaining > 0
  {
    var all := rest + candidates;
    SameContents(whole, all);
    assert forall i | 0 <= i < |candidates| :: all[|rest| + i] == candidates[i];
    assert forall i | 0 <= i < |rest| :: all[i] == rest[i];
    assert Distinct(candidates);
    StillPlayingDistinct(candidates);
    var kept := StillPlaying(candidates);
    forall i, j | 0 <= i < |rest| && 0 <= j < |kept| ensures rest[i] != kept[j] {
      assert kept[j] in candidates;
      var k :| 0 <= k < |candidates| && candidates[k] == kept[j];
      assert all[i] != all[|rest| + k];
    }
  }

  lemma ArtistsAfterRow(whole: seq<ArtistState>, candidates: seq<ArtistState>, rest: seq<ArtistState>, artist: ArtistState,
                        rows: seq<Row>, live: set<nat>, c: nat)
    requires OnePerArtist(whole, rows, live) && AfterRow(whole, artist, rows, live, c)
    requires multiset(whole) == multiset(rest) + multiset(candidates) && artist in candidates
    requires HeapOrdered(rest, ArtistRanks(whole, rows, live))
    ensures var after := rest + StillPlaying(candidates);
      && (forall ar | ar in after :: LiveArtistOk(ar, rows, live - {c}))
      && OnePerArtist(after, rows, live - {c})
      && HeapOrdered(rest, ArtistRanks(after, rows, live - {c}))
      && (forall ar | ar in after :: ar in whole)
  {
    hide HeapOk, GroupRank, Count, First, HeapOrdered, ArtistOk, OnePerArtist, StillPlaying;
    var after := rest + StillPlaying(candidates);
    OnePerArtistDistinct(whole, rows, live);
    NoSecondArtist(whole, candidates, rest, artist);
    ReturnedArtists(whole, candidates, rest);
    StillOnePerArtist(whole, after, rows, live, c);
    HeapRanked(rest, ArtistRanks(whole, rows, live));
    SameHeapOrder(rest, ArtistRanks(whole, rows, live), ArtistRanks(after, rows, live - {c}));
  }

  /** The artists with rows left after the choice are still one for each. */
  lemma StillOnePerArtist(whole: seq<ArtistState>, after: seq<ArtistState>, rows: seq<Row>, live: set<nat>, c: nat)
    requires OnePerArtist(whole, rows, live) && c in live && c < |rows|
    requires forall ar | ar in whole :: ArtistOk(ar, rows, live - {c})
    requires Distinct(after) && forall ar :: ar in after <==> ar in whole && ar.remaining > 0
    ensures OnePerArtist(after, rows, live - {c})
  {
    hide Count, ArtistOk, Distinct;
    forall a | Count(rows, live - {c}, OfArtist(a)) > 0 ensures exists ar :: ar in after && ar.key == a {
      CountAfter(rows, live, OfArtist(a), c);
      var ar :| ar in whole && ar.key == a;
      ArtistCount(ar, rows, live - {c});
    }
  }

  lemma ArtistCount(ar: ArtistState, rows: seq<Row>, live: set<nat>)
    requires ArtistOk(ar, rows, live)
    ensures ar.remaining == Count(rows, live, OfArtist(ar.key))
  {
    hide HeapOk, Count, First;
  }

  lemma NoSecondArtist(whole: seq<ArtistState>, candidates: seq<ArtistState>, rest: seq<ArtistState>, artist: ArtistState)
    requires Distinct(whole) && multiset(whole) == multiset(rest) + multiset(candidates) && artist in candidates
    ensures forall ar | ar in rest :: ar in whole && ar != artist
  {
    assert artist in multiset(candidates);
    DistinctByMultiset(whole);
    assert artist in multiset(whole);
    assert multiset(whole)[artist] == multiset(rest)[artist] + multiset(candidates)[artist];
    assert forall ar | ar in rest :: ar in multiset(whole);
  }

  lemma SameArtists(before: seq<ArtistState>, after: seq<ArtistState>, rows: seq<Row>, live: set<nat>)
    requires OnePerArtist(before, rows, live)
    requires multiset(after) == multiset(before) && HeapOrdered(after, ArtistRanks(before, rows, live))
    ensures OnePerArtist(after, rows, live)
    ensures HeapOrdered(after, ArtistRanks(after, rows, live))
    ensures forall ar :: ar in after <==> ar in before
  {
    hide GroupRank, Count;
    SameContents(before, after);
    SameHeapOrder(after, ArtistRanks(before, rows, live), ArtistRanks(after, rows, live));
  }

  method PushArtists(heap: BinaryHeap<ArtistState>, artists: seq<ArtistState>, ghost whole: seq<ArtistState>,
                     ghost rows: seq<Row>, ghost live: set<nat>)
    requires OnePerArtist(whole, rows, live) && forall ar | ar in whole :: LiveArtistOk(ar, rows, live)
    requires HeapOrdered(heap.values, ArtistRanks(whole, rows, live))
    requires multiset(whole) == multiset(heap.values) + multiset(artists)
    modifies heap`values
    ensures ArtistsOk(heap, rows, live)
    ensures forall ar | ar in heap.values :: ar in whole
  {
    hide LiveArtistOk, OnePerArtist, GroupRank;
    ArtistsCompareByRank(whole, rows, live);
    forall ar | ar in whole ensures heap !in ArtistFootprint(ar) {
      HeapIsNoArtistPart(heap, ar);
    }
    forall i | 0 <= i < |artists| ensures artists[i] in whole {
      assert artists[i] in multiset(whole);
    }
    PushAll(heap, artists, ArtistHigherPriority, ArtistRanks(whole, rows, live));
    SameArtists(whole, heap.values, rows, live);
  }

  /** Push the candidates that still have rows back onto the heap. */
  method ReturnCandidates(heap: BinaryHeap<ArtistState>, candidates: seq<ArtistState>, ghost whole: seq<ArtistState>,
                          ghost artist: ArtistState, ghost rows: seq<Row>, ghost live: set<nat>, ghost c: nat)
    requires OnePerArtist(whole, rows, live) && AfterRow(whole, artist, rows, live, c)
    requires multiset(whole) == multiset(heap.values) + multiset(candidates) && artist in candidates
    requires HeapOrdered(heap.values, ArtistRanks(whole, rows, live))
    modifies heap`values
    ensures ArtistsOk(heap, rows, live - {c})
    ensures forall ar | ar in heap.values :: ar in whole
  {
    hide AfterRow, LiveArtistOk, OnePerArtist, GroupRank, StillPlaying, ArtistsOk, HeapOrdered;
    ArtistsAfterRow(whole, candidates, heap.values, artist, rows, live, c);
    PushArtists(heap, StillPlaying(candidates), heap.values + StillPlaying(candidates), rows, live - {c});
  }
}
