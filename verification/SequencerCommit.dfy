/** Taking the chosen row out of its album, its artist and the album counts. */
module SequencerCommit {
  import opened Collections
  import opened PriorityHeap
  import opened PlaylistGroups
  import opened SequencingPolicy
  import opened SequencerState
  import opened SequencerProposals

  // ---------- one album ----------

  /** Mark the row, lower the count and move the cursor past selected rows. */
  method TakeRow(album: AlbumState, row: InternalRow, ghost rows: seq<Row>, ghost live: set<nat>)
    requires AlbumOk(album, rows, live) && row in album.rows && row.sourceIndex in live
    modifies album`remaining, album`cursor, row`selected
    ensures AlbumOk(album, rows, live - {row.sourceIndex})
    ensures album.remaining == old(album.remaining) - 1
  {
    hide Count, First, Positions;
    TakenRowCounts(album, row, rows, live);
    row.selected := true;
    album.remaining := album.remaining - 1;
    TakenRowOk(album, row, rows, live);
    while album.cursor < |album.rows| && album.rows[album.cursor].selected
      invariant AlbumOk(album, rows, live - {row.sourceIndex})
      invariant album.remaining == old(album.remaining) - 1
    {
      album.cursor := album.cursor + 1;
    }
  }

  lemma TakenRowCounts(album: AlbumState, row: InternalRow, rows: seq<Row>, live: set<nat>)
    requires AlbumOk(album, rows, live) && row in album.rows && row.sourceIndex in live
    ensures row.sourceIndex < |rows| && Belongs(rows[row.sourceIndex], GroupOfAlbum(album))
    ensures row.artistKey == album.artist && row.albumKey == album.key
    ensures album.remaining > 0
    ensures Count(rows, live - {row.sourceIndex}, GroupOfAlbum(album)) == album.remaining - 1
  {
    var positions := Positions(rows, GroupOfAlbum(album));
    var k :| 0 <= k < |album.rows| && album.rows[k] == row;
    assert RowOk(album.rows[k], album.artist, album.key, positions[k], live);
    assert positions[k] in positions;
    CountAfter(rows, live, GroupOfAlbum(album), row.sourceIndex);
    assert row.sourceIndex in Members(rows, live, GroupOfAlbum(album));
  }

  lemma TakenRowOk(album: AlbumState, row: InternalRow, rows: seq<Row>, live: set<nat>)
    requires var positions := Positions(rows, GroupOfAlbum(album));
      && |album.rows| == |positions|
      && (forall k | 0 <= k < |album.rows| ::
            album.rows[k].sourceIndex == positions[k]
            && album.rows[k].artistKey == album.artist && album.rows[k].albumKey == album.key
            && (album.rows[k] != row ==> (album.rows[k].selected <==> positions[k] !in live)))
    requires row in album.rows && row.selected
    requires album.firstIndex == First(rows, GroupOfAlbum(album))
    requires album.remaining == Count(rows, live - {row.sourceIndex}, GroupOfAlbum(album))
    requires album.cursor <= |album.rows| && forall k | 0 <= k < album.cursor :: album.rows[k].selected
    ensures AlbumOk(album, rows, live - {row.sourceIndex})
  {
    hide Count, First;
    var positions := Positions(rows, GroupOfAlbum(album));
    var at :| 0 <= at < |album.rows| && album.rows[at] == row;
    forall k | 0 <= k < |album.rows|
      ensures RowOk(album.rows[k], album.artist, album.key, positions[k], live - {row.sourceIndex})
    {
      assert k < at ==> positions[k] < positions[at];
      assert k > at ==> positions[k] > positions[at];
    }
  }

  /** Albums of other groups do not hold the row, and a row of another group leaves their counts alone. */
  lemma RowElsewhere(al: AlbumState, album: AlbumState, row: InternalRow, rows: seq<Row>, live: set<nat>)
    requires AlbumOk(al, rows, live) && AlbumOk(album, rows, live) && row in album.rows
    requires GroupOfAlbum(al) != GroupOfAlbum(album)
    ensures row !in Footprint(al) && album !in Footprint(al)
  {
    hide Positions, Count, First;
    var k :| 0 <= k < |album.rows| && album.rows[k] == row;
    assert RowOk(album.rows[k], album.artist, album.key, Positions(rows, GroupOfAlbum(album))[k], live);
    forall j | 0 <= j < |al.rows| ensures al.rows[j] != row {
      assert RowOk(al.rows[j], al.artist, al.key, Positions(rows, GroupOfAlbum(al))[j], live);
    }
  }

  lemma AlbumUnaffected(al: AlbumState, rows: seq<Row>, live: set<nat>, c: nat)
    requires AlbumOk(al, rows, live)
    requires c in live && c < |rows| && !Belongs(rows[c], GroupOfAlbum(al))
    ensures AlbumOk(al, rows, live - {c})
    ensures GroupRank(rows, live - {c}, GroupOfAlbum(al)) == GroupRank(rows, live, GroupOfAlbum(al))
  {
    hide Count, First;
    var positions := Positions(rows, GroupOfAlbum(al));
    CountAfter(rows, live, GroupOfAlbum(al), c);
    forall k | 0 <= k < |al.rows|
      ensures RowOk(al.rows[k], al.artist, al.key, positions[k], live - {c})
    {
      assert RowOk(al.rows[k], al.artist, al.key, positions[k], live);
      assert positions[k] in positions;
    }
  }

  // ---------- finding the album again ----------

  lemma PoppedOutrank(whole: seq<AlbumState>, popped: seq<AlbumState>, rest: seq<AlbumState>, album: AlbumState,
                      a: Key, rows: seq<Row>, live: set<nat>)
    requires AllAlbumsOk(whole, a, rows, live)
    requires TakenFromTop(whole, popped, rest, AlbumRanks(whole, rows, live)) && album in rest
    ensures |popped| <= |Outrankers(rows, live, GroupOfAlbum(album))|
  {
    hide AlbumOk, GroupRank, Count, Outrankers;
    var groups := AlbumGroups(popped);
    var j :| 0 <= j < |rest| && rest[j] == album;
    assert album in multiset(whole);
    forall k | 0 <= k < |groups| ensures groups[k] in Outrankers(rows, live, GroupOfAlbum(album)) {
      assert popped[k] in multiset(whole);
      AlbumIsPeer(popped[k], album, whole, a, rows, live);
    }
    DistinctCardinality(groups);
    SubsetCardinality(Elements(groups), Outrankers(rows, live, GroupOfAlbum(album)));
  }

  lemma AlbumIsPeer(al: AlbumState, album: AlbumState, whole: seq<AlbumState>, a: Key, rows: seq<Row>, live: set<nat>)
    requires AllAlbumsOk(whole, a, rows, live) && al in whole && album in whole
    requires Higher(GroupRank(rows, live, GroupOfAlbum(al)), GroupRank(rows, live, GroupOfAlbum(album)))
    ensures GroupOfAlbum(al) in Outrankers(rows, live, GroupOfAlbum(album))
  {
    hide GroupRank;
    assert AlbumOk(al, rows, live);
    AlbumPeers(rows, live, GroupOfAlbum(album), GroupOfAlbum(al));
  }

  /** Pop again until the proposed album comes up: fewer than eight albums outrank it, so it does. */
  method PopUntil(heap: BinaryHeap<AlbumState>, album: AlbumState, ghost artist: Key, ghost rows: seq<Row>, ghost live: set<nat>)
    returns (poppedAlbums: seq<AlbumState>, selectedAlbum: AlbumState?)
    requires HeapOk(heap, artist, rows, live) && album in heap.values
    requires |Outrankers(rows, live, GroupOfAlbum(album))| < ALBUM_LOOKAHEAD
    modifies heap`values
    ensures selectedAlbum == album
    ensures TakenFromTop(old(heap.values), poppedAlbums + [album], heap.values, AlbumRanks(old(heap.values), rows, live))
    ensures HeapOrdered(heap.values, AlbumRanks(old(heap.values), rows, live))
  {
    hide Outrankers, GroupRank, AlbumOk, Count, First;
    ghost var whole := heap.values;
    ghost var rank := AlbumRanks(whole, rows, live);
    AlbumsCompareByRank(whole, artist, rows, live);
    HeapIsNoAlbum(heap, whole);
    WholeIsDistinct(whole, artist, rows, live);
    hide OnePerAlbum;
    poppedAlbums, selectedAlbum := [], null;
    while |heap.values| > 0 && |poppedAlbums| < ALBUM_LOOKAHEAD
      invariant HeapOrdered(heap.values, rank) && album in heap.values && selectedAlbum == null
      invariant TakenFromTop(whole, poppedAlbums, heap.values, rank)
      decreases |heap.values|
    {
      var next := PopNext(heap, AlbumHigherPriority, whole, poppedAlbums, rank);
      if next == album {
        selectedAlbum := album;
        return;
      }
      poppedAlbums := poppedAlbums + [next];
    }
    PoppedOutrank(whole, poppedAlbums, heap.values, album, artist, rows, live);
    assert false;
  }

  // ---------- committing ----------

  /** What goes back into the heap: everything popped before the album, and the album if rows are left in it. */
  function Returned(popped: seq<AlbumState>, album: AlbumState): seq<AlbumState>
    reads album
  {
    if album.remaining > 0 then popped + [album] else popped
  }

  lemma ReturnedAlbums(whole: seq<AlbumState>, popped: seq<AlbumState>, rest: seq<AlbumState>, album: AlbumState)
    requires Distinct(whole) && multiset(whole) == multiset(rest) + multiset(popped + [album])
    ensures Distinct(rest + Returned(popped, album))
    ensures forall al :: al in rest + Returned(popped, album) <==> al in whole && (al == album ==> album.remaining > 0)
    ensures forall al | al in rest :: al in whole && al != album
    ensures album in whole
  {
    SameContents(whole, rest + popped + [album]);
    var all := rest + popped + [album];
    assert all[|all| - 1] == album;
    assert forall al :: al in all <==> al in rest || al in popped || al == album;
    forall i | 0 <= i < |rest| ensures rest[i] != album { assert all[i] == rest[i]; }
    forall i | 0 <= i < |popped| ensures popped[i] != album { assert all[|rest| + i] == popped[i]; }
    if album.remaining > 0 {
      assert rest + Returned(popped, album) == all;
    } else {
      assert rest + Returned(popped, album) == all[..|all| - 1];
    }
  }

  lemma AfterTaking(whole: seq<AlbumState>, popped: seq<AlbumState>, rest: seq<AlbumState>, album: AlbumState,
                    a: Key, rows: seq<Row>, live: set<nat>, c: nat)
    requires OnePerAlbum(whole, a, rows, live)
    requires multiset(whole) == multiset(rest) + multiset(popped + [album])
    requires HeapOrdered(rest, AlbumRanks(whole, rows, live))
    requires c in live && c < |rows| && Belongs(rows[c], GroupOfAlbum(album))
    requires forall al | al in whole :: al.artist == a && AlbumOk(al, rows, live - {c})
    requires forall al | al in whole && al != album ::
      al.remaining > 0 && GroupRank(rows, live - {c}, GroupOfAlbum(al)) == GroupRank(rows, live, GroupOfAlbum(al))
    ensures var after := rest + Returned(popped, album);
      && AllAlbumsOk(after, a, rows, live - {c}) && OnePerAlbum(after, a, rows, live - {c})
      && HeapOrdered(rest, AlbumRanks(after, rows, live - {c}))
  {
    var after := rest + Returned(popped, album);
    ReturnedAlbums(whole, popped, rest, album);
    forall b | Count(rows, live - {c}, OfArtistAlbum(a, b)) > 0 ensures exists al :: al in after && al.key == b {
      CountAfter(rows, live, OfArtistAlbum(a, b), c);
      var al :| al in whole && al.key == b;
      assert AlbumOk(al, rows, live - {c});
    }
    hide AlbumOk, GroupRank, Count;
    SameHeapOrder(rest, AlbumRanks(whole, rows, live), AlbumRanks(after, rows, live - {c}));
  }

  /** The other albums of the artist after the row is taken. */
  lemma OthersAfterTaking(whole: seq<AlbumState>, album: AlbumState, a: Key, rows: seq<Row>, live: set<nat>, c: nat)
    requires OnePerAlbum(whole, a, rows, live) && album in whole
    requires c in live && c < |rows| && Belongs(rows[c], GroupOfAlbum(album))
    requires forall al | al in whole :: al.artist == a && (al != album ==> AlbumOk(al, rows, live))
    ensures forall al | al in whole && al != album ::
      && AlbumOk(al, rows, live - {c})
      && GroupRank(rows, live - {c}, GroupOfAlbum(al)) == GroupRank(rows, live, GroupOfAlbum(al))
  {
    hide AlbumOk, GroupRank;
    forall al | al in whole && al != album
      ensures AlbumOk(al, rows, live - {c})
      ensures GroupRank(rows, live - {c}, GroupOfAlbum(al)) == GroupRank(rows, live, GroupOfAlbum(al))
    {
      AlbumUnaffected(al, rows, live, c);
    }
  }

  /** Mark the row in its album; the artist's other albums are untouched. */
  method TakeRowOfArtist(album: AlbumState, row: InternalRow, ghost whole: seq<AlbumState>, ghost a: Key, ghost rows: seq<Row>, ghost live: set<nat>)
    requires AllAlbumsOk(whole, a, rows, live) && OnePerAlbum(whole, a, rows, live)
    requires album in whole && row in album.rows && row.sourceIndex in live
    modifies album`remaining, album`cursor, row`selected
    ensures row.sourceIndex < |rows| && Belongs(rows[row.sourceIndex], GroupOfAlbum(album))
    ensures forall al | al in whole :: al.artist == a && AlbumOk(al, rows, live - {row.sourceIndex})
    ensures forall al | al in whole && al != album ::
      && al.remaining > 0
      && GroupRank(rows, live - {row.sourceIndex}, GroupOfAlbum(al)) == GroupRank(rows, live, GroupOfAlbum(al))
  {
    hide AlbumOk, GroupRank;
    forall al | al in whole && al != album
      ensures row !in Footprint(al) && album !in Footprint(al)
    {
      RowElsewhere(al, album, row, rows, live);
    }
    TakenRowCounts(album, row, rows, live);
    TakeRow(album, row, rows, live);
    OthersAfterTaking(whole, album, a, rows, live, row.sourceIndex);
  }

  method CommitAlbumSelection(heap: BinaryHeap<AlbumState>, album: AlbumState, row: InternalRow,
                              ghost a: Key, ghost rows: seq<Row>, ghost live: set<nat>)
    requires HeapOk(heap, a, rows, live)
    requires album in heap.values && row in album.rows && row.sourceIndex in live
    requires |Outrankers(rows, live, GroupOfAlbum(album))| < ALBUM_LOOKAHEAD
    modifies heap`values, album`remaining, album`cursor, row`selected
    ensures HeapOk(heap, a, rows, live - {row.sourceIndex})
    ensures row.sourceIndex < |rows| && Belongs(rows[row.sourceIndex], GroupOfAlbum(album))
    ensures forall al | al in heap.values :: al in old(heap.values)
  {
    hide Outrankers, AllAlbumsOk, OnePerAlbum, TakenFromTop, HeapOrdered, AlbumRanks, Distinct;
    ghost var whole := heap.values;
    HeapIsNoAlbum(heap, whole);
    var poppedAlbums, selectedAlbum := PopUntil(heap, album, a, rows, live);
    if selectedAlbum == null {
      assert false;  // "selected album is unavailable"
    }
    ghost var rest := heap.values;
    TopParts(whole, poppedAlbums, album, rest, rows, live);
    TakeRowOfArtist(album, row, whole, a, rows, live);
    AfterTaking(whole, poppedAlbums, rest, album, a, rows, live, row.sourceIndex);
    OnePerIsDistinct(whole, a, rows, live);
    ReturnedAlbums(whole, poppedAlbums, rest, album);
    PushAlbums(heap, Returned(poppedAlbums, album), rest + Returned(poppedAlbums, album), a, rows, live - {row.sourceIndex});
    SameContents(heap.values, rest + Returned(poppedAlbums, album));
  }

  lemma OnePerIsDistinct(whole: seq<AlbumState>, a: Key, rows: seq<Row>, live: set<nat>)
    requires OnePerAlbum(whole, a, rows, live)
    ensures Distinct(whole)
  {
  }

  lemma TopParts(whole: seq<AlbumState>, popped: seq<AlbumState>, album: AlbumState, rest: seq<AlbumState>, rows: seq<Row>, live: set<nat>)
    requires TakenFromTop(whole, popped + [album], rest, AlbumRanks(whole, rows, live))
    ensures multiset(whole) == multiset(rest) + multiset(popped + [album])
  {
  }
}
