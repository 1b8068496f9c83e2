/** The mutable records of the sequencer and what ties them to the rows that are still to be placed. */
module SequencerState {
  import opened Collections
  import opened PriorityHeap
  import opened PlaylistGroups
  import opened SequencingPolicy

  class InternalRow {
    const sourceIndex: nat
    const artistKey: Key
    const albumKey: Key
    var selected: bool

    constructor (sourceIndex: nat, artistKey: Key, albumKey: Key)
      ensures this.sourceIndex == sourceIndex && this.artistKey == artistKey && this.albumKey == albumKey && !selected
    {
      this.sourceIndex, this.artistKey, this.albumKey, selected := sourceIndex, artistKey, albumKey, false;
    }
  }

  class AlbumState {
    ghost const artist: Key
    const key: Key
    const firstIndex: nat
    const rows: seq<InternalRow>
    var cursor: nat
    var remaining: nat

    constructor (ghost artist: Key, key: Key, firstIndex: nat, rows: seq<InternalRow>)
      ensures this.artist == artist && this.key == key && this.firstIndex == firstIndex && this.rows == rows
      ensures cursor == 0 && remaining == |rows|
    {
      this.artist, this.key, this.firstIndex, this.rows := artist, key, firstIndex, rows;
      cursor, remaining := 0, |rows|;
    }
  }

  class ArtistState {
    const key: Key
    const firstIndex: nat
    const albums: BinaryHeap<AlbumState>
    var remaining: nat

    constructor (key: Key, firstIndex: nat, remaining: nat, albums: BinaryHeap<AlbumState>)
      ensures this.key == key && this.firstIndex == firstIndex && this.remaining == remaining && this.albums == albums
    {
      this.key, this.firstIndex, this.remaining, this.albums := key, firstIndex, remaining, albums;
    }
  }

  class CountState {
    const key: Key
    const firstIndex: nat
    var remaining: nat
    var revision: nat

    constructor (key: Key, firstIndex: nat)
      ensures this.key == key && this.firstIndex == firstIndex && remaining == 1 && revision == 0
    {
      this.key, this.firstIndex, remaining, revision := key, firstIndex, 1, 0;
    }
  }

  datatype CountEntry = CountEntry(state: CountState, remaining: nat, revision: nat)

  datatype TrackProposal = TrackProposal(artist: ArtistState, album: AlbumState, row: InternalRow, transition: TransitionScore)

  predicate AlbumHigherPriority(left: AlbumState, right: AlbumState)
    reads left, right
  {
    left.remaining > right.remaining || (left.remaining == right.remaining && left.firstIndex < right.firstIndex)
  }

  predicate ArtistHigherPriority(left: ArtistState, right: ArtistState)
    reads left, right
  {
    left.remaining > right.remaining || (left.remaining == right.remaining && left.firstIndex < right.firstIndex)
  }

  predicate CountEntryHigherPriority(left: CountEntry, right: CountEntry) {
    left.remaining > right.remaining || (left.remaining == right.remaining && left.state.firstIndex < right.state.firstIndex)
  }

  // ---------- albums of one artist ----------

  ghost function GroupOfAlbum(al: AlbumState): Group {
    OfArtistAlbum(al.artist, al.key)
  }

  ghost function Footprint(al: AlbumState): set<object> {
    {al} + set r | r in al.rows :: r as object
  }

  ghost function AlbumObjects(albums: seq<AlbumState>): set<object> {
    set al, o | al in albums && o in Footprint(al) :: o
  }

  ghost predicate RowOk(r: InternalRow, artist: Key, album: Key, position: nat, live: set<nat>)
    reads r
  {
    && r.artistKey == artist && r.albumKey == album && r.sourceIndex == position
    && (r.selected <==> position !in live)
  }

  /** The album lists its rows in source order; remaining and cursor agree with the rows that are live. */
  ghost predicate AlbumOk(al: AlbumState, rows: seq<Row>, live: set<nat>)
    reads Footprint(al)
  {
    var positions := Positions(rows, GroupOfAlbum(al));
    assert forall k | 0 <= k < |al.rows| :: al.rows[k] in al.rows;
    && |al.rows| == |positions|
    && (forall k | 0 <= k < |al.rows| :: RowOk(al.rows[k], al.artist, al.key, positions[k], live))
    && al.firstIndex == First(rows, GroupOfAlbum(al))
    && al.remaining == Count(rows, live, GroupOfAlbum(al))
    && al.cursor <= |al.rows|
    && (forall k | 0 <= k < al.cursor :: al.rows[k].selected)
  }

  ghost function AlbumRanks(albums: seq<AlbumState>, rows: seq<Row>, live: set<nat>): map<AlbumState, Rank> {
    map al | al in albums :: GroupRank(rows, live, GroupOfAlbum(al))
  }

  ghost predicate AllAlbumsOk(albums: seq<AlbumState>, artist: Key, rows: seq<Row>, live: set<nat>)
    reads AlbumObjects(albums)
  {
    forall al | al in albums :: assert al in Footprint(al); al.artist == artist && al.remaining > 0 && AlbumOk(al, rows, live)
  }

  /** One state per album of the artist that still has rows. */
  ghost predicate OnePerAlbum(albums: seq<AlbumState>, artist: Key, rows: seq<Row>, live: set<nat>) {
    && Distinct(albums)
    && (forall x, y | x in albums && y in albums && x != y :: x.key != y.key)
    && (forall b :: Count(rows, live, OfArtistAlbum(artist, b)) > 0 ==> exists al :: al in albums && al.key == b)
  }

  /** The artist's heap holds its live albums in heap order. */
  ghost predicate HeapOk(heap: BinaryHeap<AlbumState>, artist: Key, rows: seq<Row>, live: set<nat>)
    reads heap, AlbumObjects(heap.values)
  {
    && AllAlbumsOk(heap.values, artist, rows, live)
    && OnePerAlbum(heap.values, artist, rows, live)
    && HeapOrdered(heap.values, AlbumRanks(heap.values, rows, live))
  }

  ghost predicate ArtistOk(ar: ArtistState, rows: seq<Row>, live: set<nat>)
    reads ar, ar.albums, AlbumObjects(ar.albums.values)
  {
    && ar.firstIndex == First(rows, OfArtist(ar.key))
    && ar.remaining == Count(rows, live, OfArtist(ar.key))
    && HeapOk(ar.albums, ar.key, rows, live)
  }

  /** The comparator reads the ranks that the live rows give. */
  lemma AlbumsCompareByRank(albums: seq<AlbumState>, artist: Key, rows: seq<Row>, live: set<nat>)
    requires AllAlbumsOk(albums, artist, rows, live)
    requires OnePerAlbum(albums, artist, rows, live)
    ensures var rank := AlbumRanks(albums, rows, live);
      && (forall x, y | x in rank && y in rank :: AlbumHigherPriority(x, y) == Higher(rank[x], rank[y]))
      && Strict(rank)
  {
    var rank := AlbumRanks(albums, rows, live);
    forall x, y | x in rank && y in rank
      ensures AlbumHigherPriority(x, y) == Higher(rank[x], rank[y])
    {
      assert AlbumOk(x, rows, live) && AlbumOk(y, rows, live);
    }
    forall x, y | x in rank && y in rank && x != y ensures rank[x] != rank[y] {
      CountPositive(rows, live, GroupOfAlbum(x));
      CountPositive(rows, live, GroupOfAlbum(y));
      var i :| i in live && i < |rows| && Belongs(rows[i], GroupOfAlbum(x));
      var j :| j in live && j < |rows| && Belongs(rows[j], GroupOfAlbum(y));
      RankSeparates(rows, live, GroupOfAlbum(x), GroupOfAlbum(y), i, j);
    }
  }

  // ---------- all artists ----------

  ghost function ArtistFootprint(ar: ArtistState): set<object>
    reads ar.albums
  {
    {ar, ar.albums} + AlbumObjects(ar.albums.values)
  }

  ghost function ArtistRanks(artists: seq<ArtistState>, rows: seq<Row>, live: set<nat>): map<ArtistState, Rank> {
    map ar | ar in artists :: GroupRank(rows, live, OfArtist(ar.key))
  }

  ghost predicate LiveArtistOk(ar: ArtistState, rows: seq<Row>, live: set<nat>)
    reads ar, ar.albums, AlbumObjects(ar.albums.values)
  {
    ar.remaining > 0 && ArtistOk(ar, rows, live)
  }

  /** Distinct artists have distinct keys and album heaps of their own. */
  ghost predicate Separate(artists: seq<ArtistState>) {
    && Distinct(artists)
    && (forall x, y | x in artists && y in artists && x != y :: x.key != y.key && x.albums != y.albums)
  }

  ghost predicate OnePerArtist(artists: seq<ArtistState>, rows: seq<Row>, live: set<nat>) {
    && Separate(artists)
    && (forall a :: Count(rows, live, OfArtist(a)) > 0 ==> exists ar :: ar in artists && ar.key == a)
  }

  lemma ArtistsCompareByRank(artists: seq<ArtistState>, rows: seq<Row>, live: set<nat>)
    requires forall ar | ar in artists :: LiveArtistOk(ar, rows, live)
    requires OnePerArtist(artists, rows, live)
    ensures var rank := ArtistRanks(artists, rows, live);
      && (forall x, y | x in rank && y in rank :: ArtistHigherPriority(x, y) == Higher(rank[x], rank[y]))
      && Strict(rank)
  {
    var rank := ArtistRanks(artists, rows, live);
    forall x, y | x in rank && y in rank && x != y ensures rank[x] != rank[y] {
      assert LiveArtistOk(x, rows, live) && LiveArtistOk(y, rows, live);
      CountPositive(rows, live, OfArtist(x.key));
      CountPositive(rows, live, OfArtist(y.key));
      var i :| i in live && i < |rows| && Belongs(rows[i], OfArtist(x.key));
      var j :| j in live && j < |rows| && Belongs(rows[j], OfArtist(y.key));
      RankSeparates(rows, live, OfArtist(x.key), OfArtist(y.key), i, j);
    }
    forall x, y | x in rank && y in rank
      ensures ArtistHigherPriority(x, y) == Higher(rank[x], rank[y])
    {
      assert LiveArtistOk(x, rows, live) && LiveArtistOk(y, rows, live);
    }
  }
}
