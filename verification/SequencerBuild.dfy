/** Building the sequencer's records from the tracks: rows by artist and album, album counts, and the three heaps. */
module SequencerBuild {
  import opened Collections
  import opened PriorityHeap
  import opened PlaylistGroups
  import opened SequencingPolicy
  import opened SequencerState
  import opened SequencerProposals
  import opened SequencerArtists
  import opened AlbumCountIndex

  /** The identifying labels of a track, already normalised; an absent one is the empty string. */
  datatype Track = Track(artistId: string, artist: string, albumId: string, album: string)

  function KeysOf(track: Track, sourceIndex: nat): Row {
    Row(IdentityKey(track.artistId, track.artist, sourceIndex), IdentityKey(track.albumId, track.album, sourceIndex))
  }

  function RowsOf(tracks: seq<Track>): (r: seq<Row>)
    ensures |r| == |tracks| && forall i: nat | i < |tracks| :: r[i] == KeysOf(tracks[i], i)
  {
    seq(|tracks|, i requires 0 <= i < |tracks| => KeysOf(tracks[i], i))
  }

  /** Two labels name one thing: by equal identifiers, or by equal names when neither has an identifier. */
  predicate NamesAlike(id: string, name: string, otherId: string, otherName: string) {
    if id != "" || otherId != "" then id == otherId else name != "" && name == otherName
  }

  /** Different rows share their artist, or their album, exactly when the labels name one: unlabelled rows share nothing. */
  lemma SharedExactly(tracks: seq<Track>, i: nat, j: nat)
    requires i < |tracks| && j < |tracks| && i != j
    ensures RowsOf(tracks)[i].artist == RowsOf(tracks)[j].artist <==>
      NamesAlike(tracks[i].artistId, tracks[i].artist, tracks[j].artistId, tracks[j].artist)
    ensures RowsOf(tracks)[i].album == RowsOf(tracks)[j].album <==>
      NamesAlike(tracks[i].albumId, tracks[i].album, tracks[j].albumId, tracks[j].album)
  {
    assert RowsOf(tracks)[i] == KeysOf(tracks[i], i) && RowsOf(tracks)[j] == KeysOf(tracks[j], j);
  }

  /** An artist's rows so far, by album; albumOrder is the insertion order of the map. */
  datatype ArtistGroup = ArtistGroup(key: Key, firstIndex: nat, albumOrder: seq<Key>, rowsByAlbum: map<Key, seq<InternalRow>>)

  function WithRow(g: ArtistGroup, row: InternalRow): ArtistGroup {
    if row.albumKey in g.rowsByAlbum
    then g.(rowsByAlbum := g.rowsByAlbum[row.albumKey := g.rowsByAlbum[row.albumKey] + [row]])
    else g.(albumOrder := g.albumOrder + [row.albumKey], rowsByAlbum := g.rowsByAlbum[row.albumKey := [row]])
  }

  // ---------- what the first i rows give ----------

  ghost function RowsRead(rows: seq<Row>, i: nat): set<nat>
    requires i <= |rows|
  {
    AllRows(rows[..i])
  }

  lemma PositionsGrow(rows: seq<Row>, i: nat, g: Group)
    requires i < |rows|
    ensures Positions(rows[..i + 1], g) == Positions(rows[..i], g) + (if Belongs(rows[i], g) then [i] else [])
  {
    assert rows[..i + 1][..i] == rows[..i];
  }

  lemma CountGrows(rows: seq<Row>, i: nat, g: Group)
    requires i < |rows|
    ensures Count(rows, RowsRead(rows, i + 1), g) == Count(rows, RowsRead(rows, i), g) + (if Belongs(rows[i], g) then 1 else 0)
  {
    assert i in RowsRead(rows, i + 1) && RowsRead(rows, i + 1) - {i} == RowsRead(rows, i);
    CountAfter(rows, RowsRead(rows, i + 1), g, i);
  }

  lemma FirstSeen(rows: seq<Row>, i: nat, g: Group)
    requires i < |rows| && Belongs(rows[i], g) && Count(rows, RowsRead(rows, i), g) == 0
    ensures First(rows, g) == i
  {
    FirstIsMember(rows, g, i);
    CountPositive(rows, RowsRead(rows, i), g);
  }

  lemma PositionsCount(rows: seq<Row>, g: Group)
    ensures |Positions(rows, g)| == Count(rows, AllRows(rows), g)
  {
    var p := Positions(rows, g);
    assert Distinct(p);
    DistinctCardinality(p);
    assert Elements(p) == Members(rows, AllRows(rows), g);
  }

  ghost predicate RowsMade(rs: seq<InternalRow>, rows: seq<Row>, i: nat, a: Key, b: Key)
    requires i <= |rows|
    reads rs
  {
    var p := Positions(rows[..i], OfArtistAlbum(a, b));
    && |rs| == |p|
    && forall k | 0 <= k < |rs| :: rs[k].sourceIndex == p[k] && rs[k].artistKey == a && rs[k].albumKey == b && !rs[k].selected
  }

  ghost function GroupObjects(g: ArtistGroup): set<object> {
    set b, r | b in g.rowsByAlbum && r in g.rowsByAlbum[b] :: r as object
  }

  ghost predicate GroupMade(g: ArtistGroup, rows: seq<Row>, i: nat)
    requires i <= |rows|
    reads GroupObjects(g)
  {
    && g.firstIndex == First(rows, OfArtist(g.key))
    && Distinct(g.albumOrder) && (forall b :: b in g.albumOrder <==> b in g.rowsByAlbum)
    && (forall b :: b in g.rowsByAlbum <==> |Positions(rows[..i], OfArtistAlbum(g.key, b))| > 0)
    && (forall b | b in g.rowsByAlbum ::
          assert forall r | r in g.rowsByAlbum[b] :: r in GroupObjects(g);
          RowsMade(g.rowsByAlbum[b], rows, i, g.key, b))
  }

  ghost function GroupsObjects(groups: map<Key, ArtistGroup>): set<object> {
    set a, o | a in groups && o in GroupObjects(groups[a]) :: o
  }

  ghost predicate GroupsMade(order: seq<Key>, groups: map<Key, ArtistGroup>, rows: seq<Row>, i: nat)
    requires i <= |rows|
    reads GroupsObjects(groups)
  {
    && Distinct(order) && (forall a :: a in order <==> a in groups)
    && (forall a :: a in groups <==> Count(rows, RowsRead(rows, i), OfArtist(a)) > 0)
    && (forall a | a in groups :: groups[a].key == a && GroupMade(groups[a], rows, i))
  }

  ghost predicate CountsMade(order: seq<Key>, counts: map<Key, CountState>, rows: seq<Row>, i: nat)
    requires i <= |rows|
    reads counts.Values
  {
    && Distinct(order) && (forall b :: b in order <==> b in counts)
    && (forall b :: b in counts <==> Count(rows, RowsRead(rows, i), OfAlbum(b)) > 0)
    && (forall b | b in counts ::
          && counts[b].key == b && counts[b].firstIndex == First(rows, OfAlbum(b)) && counts[b].firstIndex < |rows|
          && counts[b].remaining == Count(rows, RowsRead(rows, i), OfAlbum(b)) && counts[b].revision == 0)
  }

  lemma CountStateIsNoRow(state: CountState, groups: map<Key, ArtistGroup>)
    ensures state !in GroupsObjects(groups)
  {
  }

  // ---------- one row at a time ----------

  lemma DistinctAppend<T>(s: seq<T>, x: T)
    requires Distinct(s) && x !in s
    ensures Distinct(s + [x]) && forall y :: y in s + [x] <==> y in s || y == x
  {
  }

  method AddCount(order: seq<Key>, counts: map<Key, CountState>, b: Key, sourceIndex: nat, ghost rows: seq<Row>)
    returns (order': seq<Key>, counts': map<Key, CountState>)
    requires sourceIndex < |rows| && rows[sourceIndex].album == b
    requires CountsMade(order, counts, rows, sourceIndex)
    modifies counts.Values
    ensures CountsMade(order', counts', rows, sourceIndex + 1)
    ensures forall d | d in counts' :: fresh(counts'[d]) || (d in counts && counts'[d] == counts[d])
  {
    hide Count, First, RowsRead, Distinct;
    forall d ensures Count(rows, RowsRead(rows, sourceIndex + 1), OfAlbum(d))
      == Count(rows, RowsRead(rows, sourceIndex), OfAlbum(d)) + (if d == b then 1 else 0)
    {
      CountGrows(rows, sourceIndex, OfAlbum(d));
    }
    if b in counts {
      counts[b].remaining := counts[b].remaining + 1;
      return order, counts;
    }
    FirstSeen(rows, sourceIndex, OfAlbum(b));
    DistinctAppend(order, b);
    var state := new CountState(b, sourceIndex);
    order', counts' := order + [b], counts[b := state];
  }

  lemma RowsGrow(rs: seq<InternalRow>, row: InternalRow, rows: seq<Row>, i: nat)
    requires i < |rows| && row.sourceIndex == i && !row.selected && rows[i] == Row(row.artistKey, row.albumKey)
    requires RowsMade(rs, rows, i, row.artistKey, row.albumKey)
    ensures RowsMade(rs + [row], rows, i + 1, row.artistKey, row.albumKey)
  {
    PositionsGrow(rows, i, OfArtistAlbum(row.artistKey, row.albumKey));
  }

  lemma RowsStay(rs: seq<InternalRow>, rows: seq<Row>, i: nat, a: Key, b: Key)
    requires i < |rows| && rows[i] != Row(a, b)
    ensures RowsMade(rs, rows, i + 1, a, b) <==> RowsMade(rs, rows, i, a, b)
  {
    PositionsGrow(rows, i, OfArtistAlbum(a, b));
  }

  lemma AlbumGrows(g: ArtistGroup, row: InternalRow, rows: seq<Row>, i: nat, b: Key)
    requires i < |rows| && GroupMade(g, rows, i)
    requires row.sourceIndex == i && !row.selected && rows[i] == Row(row.artistKey, row.albumKey) && g.key == row.artistKey
    ensures var made := WithRow(g, row).rowsByAlbum;
      && (b in made <==> |Positions(rows[..i + 1], OfArtistAlbum(g.key, b))| > 0)
      && (b in made ==> RowsMade(made[b], rows, i + 1, g.key, b))
  {
    PositionsGrow(rows, i, OfArtistAlbum(g.key, b));
    if b == row.albumKey {
      RowsGrow(if b in g.rowsByAlbum then g.rowsByAlbum[b] else [], row, rows, i);
    } else if b in g.rowsByAlbum {
      RowsStay(g.rowsByAlbum[b], rows, i, g.key, b);
    }
  }

  lemma GroupGrows(g: ArtistGroup, row: InternalRow, rows: seq<Row>, i: nat)
    requires i < |rows| && GroupMade(g, rows, i)
    requires row.sourceIndex == i && !row.selected && rows[i] == Row(row.artistKey, row.albumKey) && g.key == row.artistKey
    ensures GroupMade(WithRow(g, row), rows, i + 1) && WithRow(g, row).key == g.key
  {
    hide RowsMade, Positions, First, Distinct;
    forall b
      ensures b in WithRow(g, row).rowsByAlbum <==> |Positions(rows[..i + 1], OfArtistAlbum(g.key, b))| > 0
      ensures b in WithRow(g, row).rowsByAlbum ==> RowsMade(WithRow(g, row).rowsByAlbum[b], rows, i + 1, g.key, b)
    {
      AlbumGrows(g, row, rows, i, b);
    }
    if row.albumKey !in g.rowsByAlbum {
      DistinctAppend(g.albumOrder, row.albumKey);
    }
  }

  lemma GroupStays(g: ArtistGroup, rows: seq<Row>, i: nat)
    requires i < |rows| && GroupMade(g, rows, i) && g.key != rows[i].artist
    ensures GroupMade(g, rows, i + 1)
  {
    forall b ensures Positions(rows[..i + 1], OfArtistAlbum(g.key, b)) == Positions(rows[..i], OfArtistAlbum(g.key, b)) {
      PositionsGrow(rows, i, OfArtistAlbum(g.key, b));
    }
    hide Positions, First;
  }

  lemma NewGroup(rows: seq<Row>, i: nat, a: Key)
    requires i < |rows| && a == rows[i].artist && Count(rows, RowsRead(rows, i), OfArtist(a)) == 0
    ensures GroupMade(ArtistGroup(a, i, [], map[]), rows, i)
  {
    FirstSeen(rows, i, OfArtist(a));
    CountPositive(rows, RowsRead(rows, i), OfArtist(a));
    forall b ensures Positions(rows[..i], OfArtistAlbum(a, b)) == [] {
      var p := Positions(rows[..i], OfArtistAlbum(a, b));
      if p != [] {
        assert p[0] in p && p[0] in RowsRead(rows, i) && Belongs(rows[p[0]], OfArtist(a));
      }
    }
  }

  lemma ObjectsGrow(groups: map<Key, ArtistGroup>, group: ArtistGroup, row: InternalRow)
    requires row.artistKey in groups ==> groups[row.artistKey] == group
    requires row.artistKey !in groups ==> group.rowsByAlbum == map[]
    ensures GroupsObjects(groups[row.artistKey := WithRow(group, row)]) <= GroupsObjects(groups) + {row}
  {
    var made := WithRow(group, row).rowsByAlbum;
    forall b, r | b in made && r in made[b]
      ensures r == row || (row.artistKey in groups && r as object in GroupObjects(groups[row.artistKey]))
    {
      if b == row.albumKey && b in group.rowsByAlbum {
        assert made[b] == group.rowsByAlbum[b] + [row];
      }
    }
  }

  lemma GroupsGrow(order: seq<Key>, groups: map<Key, ArtistGroup>, group: ArtistGroup, row: InternalRow, rows: seq<Row>, i: nat)
    requires i < |rows| && GroupsMade(order, groups, rows, i)
    requires row.sourceIndex == i && !row.selected && rows[i] == Row(row.artistKey, row.albumKey)
    requires row.artistKey in groups ==> group == groups[row.artistKey]
    requires row.artistKey !in groups ==> group == ArtistGroup(row.artistKey, i, [], map[])
    ensures GroupsMade(if row.artistKey in groups then order else order + [row.artistKey],
                       groups[row.artistKey := WithRow(group, row)], rows, i + 1)
  {
    hide Count, GroupMade, Distinct, RowsRead, WithRow;
    var a := row.artistKey;
    forall d ensures Count(rows, RowsRead(rows, i + 1), OfArtist(d)) == Count(rows, RowsRead(rows, i), OfArtist(d)) + (if d == a then 1 else 0) {
      CountGrows(rows, i, OfArtist(d));
    }
    forall d | d in groups && d != a ensures GroupMade(groups[d], rows, i + 1) {
      GroupStays(groups[d], rows, i);
    }
    if a !in groups {
      NewGroup(rows, i, a);
      DistinctAppend(order, a);
    }
    GroupGrows(group, row, rows, i);
  }

  method AddRow(order: seq<Key>, groups: map<Key, ArtistGroup>, row: InternalRow, ghost rows: seq<Row>)
    returns (order': seq<Key>, groups': map<Key, ArtistGroup>)
    requires row.sourceIndex < |rows| && rows[row.sourceIndex] == Row(row.artistKey, row.albumKey) && !row.selected
    requires GroupsMade(order, groups, rows, row.sourceIndex)
    ensures GroupsMade(order', groups', rows, row.sourceIndex + 1)
    ensures GroupsObjects(groups') <= GroupsObjects(groups) + {row}
  {
    hide GroupsMade, GroupsObjects, WithRow;
    var a := row.artistKey;
    order' := order;
    var group;
    if a in groups {
      group := groups[a];
    } else {
      group := ArtistGroup(a, row.sourceIndex, [], map[]);
      order' := order + [a];
    }
    GroupsGrow(order, groups, group, row, rows, row.sourceIndex);
    ObjectsGrow(groups, group, row);
    groups' := groups[a := WithRow(group, row)];
  }

  /** The first pass: group the rows by artist and album and count the albums. */
  method CollectRows(tracks: seq<Track>)
    returns (order: seq<Key>, groups: map<Key, ArtistGroup>, countOrder: seq<Key>, counts: map<Key, CountState>)
    ensures GroupsMade(order, groups, RowsOf(tracks), |tracks|)
    ensures CountsMade(countOrder, counts, RowsOf(tracks), |tracks|)
    ensures fresh(GroupsObjects(groups)) && forall b | b in counts :: fresh(counts[b])
  {
    hide GroupsMade, CountsMade;
    ghost var rows := RowsOf(tracks);
    NothingMade(rows);
    order, groups, countOrder, counts := [], map[], [], map[];
    for i := 0 to |tracks|
      invariant GroupsMade(order, groups, rows, i) && CountsMade(countOrder, counts, rows, i)
      invariant fresh(GroupsObjects(groups)) && forall b | b in counts :: fresh(counts[b])
    {
      var keys := KeysOf(tracks[i], i);
      var row := new InternalRow(i, keys.artist, keys.album);
      order, groups := AddRow(order, groups, row, rows);
      forall s | s in counts.Values ensures s !in GroupsObjects(groups) {
        CountStateIsNoRow(s, groups);
      }
      countOrder, counts := AddCount(countOrder, counts, keys.album, i, rows);
    }
  }

  lemma NothingMade(rows: seq<Row>)
    ensures GroupsMade([], map[], rows, 0) && CountsMade([], map[], rows, 0)
  {
    forall g ensures Count(rows, RowsRead(rows, 0), g) == 0 {
      CountPositive(rows, RowsRead(rows, 0), g);
    }
  }

  // ---------- the album states of one artist ----------

  ghost predicate GroupDone(g: ArtistGroup, rows: seq<Row>)
    reads GroupObjects(g)
  {
    GroupMade(g, rows, |rows|)
  }

  /** The rows of g on its first j albums. */
  ghost function Gathered(g: ArtistGroup, rows: seq<Row>, j: nat): set<nat>
    requires j <= |g.albumOrder|
  {
    set i | i in AllRows(rows) && rows[i].artist == g.key && rows[i].album in g.albumOrder[..j]
  }

  lemma GatherNext(g: ArtistGroup, rows: seq<Row>, j: nat)
    requires j < |g.albumOrder| && Distinct(g.albumOrder)
    ensures |Gathered(g, rows, j + 1)| ==
      |Gathered(g, rows, j)| + |Positions(rows, OfArtistAlbum(g.key, g.albumOrder[j]))|
  {
    hide Positions;
    var b := g.albumOrder[j];
    var own := Members(rows, AllRows(rows), OfArtistAlbum(g.key, b));
    PositionsCount(rows, OfArtistAlbum(g.key, b));
    assert g.albumOrder[..j + 1] == g.albumOrder[..j] + [b];
    assert b !in g.albumOrder[..j];
    assert Gathered(g, rows, j + 1) == Gathered(g, rows, j) + own;
    assert Gathered(g, rows, j) !! own;
  }

  lemma GatheredAll(g: ArtistGroup, rows: seq<Row>)
    requires GroupDone(g, rows)
    ensures |Gathered(g, rows, |g.albumOrder|)| == Count(rows, AllRows(rows), OfArtist(g.key))
  {
    hide First, RowsMade;
    assert rows[..|rows|] == rows;
    assert g.albumOrder[..|g.albumOrder|] == g.albumOrder;
    forall i | i in Members(rows, AllRows(rows), OfArtist(g.key)) ensures rows[i].album in g.albumOrder {
      assert i in Positions(rows, OfArtistAlbum(g.key, rows[i].album));
    }
    assert Gathered(g, rows, |g.albumOrder|) == Members(rows, AllRows(rows), OfArtist(g.key));
  }

  /** A new album state over the complete rows is in order. */
  lemma NewAlbumOk(al: AlbumState, g: ArtistGroup, rows: seq<Row>)
    requires GroupDone(g, rows) && al.artist == g.key && al.key in g.rowsByAlbum && al.rows == g.rowsByAlbum[al.key]
    requires |al.rows| > 0 && al.firstIndex == al.rows[0].sourceIndex && al.cursor == 0 && al.remaining == |al.rows|
    ensures AlbumOk(al, rows, AllRows(rows)) && al.remaining > 0
  {
    assert rows[..|rows|] == rows;
    assert RowsMade(g.rowsByAlbum[al.key], rows, |rows|, g.key, al.key);
    PositionsCount(rows, GroupOfAlbum(al));
    var p := Positions(rows, GroupOfAlbum(al));
    assert forall k | 0 <= k < |p| :: p[k] in p;
  }

  lemma AlbumRows(g: ArtistGroup, rows: seq<Row>, b: Key)
    requires GroupDone(g, rows) && b in g.albumOrder
    ensures b in g.rowsByAlbum && |g.rowsByAlbum[b]| == |Positions(rows, OfArtistAlbum(g.key, b))| > 0
    ensures Distinct(g.albumOrder)
  {
    assert rows[..|rows|] == rows;
    assert RowsMade(g.rowsByAlbum[b], rows, |rows|, g.key, b);
  }

  lemma EveryAlbumMade(albums: seq<AlbumState>, g: ArtistGroup, rows: seq<Row>)
    requires GroupDone(g, rows) && |albums| == |g.albumOrder|
    requires forall k | 0 <= k < |albums| :: albums[k].key == g.albumOrder[k]
    ensures OnePerAlbum(albums, g.key, rows, AllRows(rows))
  {
    assert rows[..|rows|] == rows;
    forall b | Count(rows, AllRows(rows), OfArtistAlbum(g.key, b)) > 0 ensures exists al :: al in albums && al.key == b {
      PositionsCount(rows, OfArtistAlbum(g.key, b));
      assert b in g.albumOrder;
      var k :| 0 <= k < |g.albumOrder| && g.albumOrder[k] == b;
      assert albums[k] in albums;
    }
  }

  lemma OnlyRows(o: object, g: ArtistGroup)
    requires !(o is InternalRow)
    ensures o !in GroupObjects(g)
  {
  }

  method MakeAlbums(g: ArtistGroup, ghost rows: seq<Row>) returns (albums: seq<AlbumState>, remaining: nat)
    requires GroupDone(g, rows)
    ensures forall al | al in albums :: fresh(al)
    ensures AllAlbumsOk(albums, g.key, rows, AllRows(rows)) && OnePerAlbum(albums, g.key, rows, AllRows(rows))
    ensures remaining == Count(rows, AllRows(rows), OfArtist(g.key))
    ensures forall al | al in albums :: al.key in g.rowsByAlbum && al.rows == g.rowsByAlbum[al.key]
  {
    hide GroupDone, AlbumOk, OnePerAlbum, Gathered, Positions, Count;
    albums, remaining := [], 0;
    NothingGathered(g, rows);
    for j := 0 to |g.albumOrder|
      invariant |albums| == j && (forall al | al in albums :: fresh(al)) && GroupDone(g, rows)
      invariant forall k | 0 <= k < j :: albums[k].key == g.albumOrder[k]
      invariant forall al | al in albums ::
        && al.key in g.rowsByAlbum && al.rows == g.rowsByAlbum[al.key]
        && al.artist == g.key && al.remaining > 0 && AlbumOk(al, rows, AllRows(rows))
      invariant remaining == |Gathered(g, rows, j)|
    {
      var key := g.albumOrder[j];
      AlbumRows(g, rows, key);
      GatherNext(g, rows, j);
      var members := g.rowsByAlbum[key];
      var album := new AlbumState(g.key, key, members[0].sourceIndex, members);
      OnlyRows(album, g);
      NewAlbumOk(album, g, rows);
      forall al | al in albums ensures album !in Footprint(al) {}
      albums, remaining := albums + [album], remaining + |members|;
    }
    EveryAlbumMade(albums, g, rows);
    GatheredAll(g, rows);
  }

  lemma NothingGathered(g: ArtistGroup, rows: seq<Row>)
    ensures |Gathered(g, rows, 0)| == 0
  {
    assert Gathered(g, rows, 0) == {};
  }

  method BuildArtist(g: ArtistGroup, ghost rows: seq<Row>) returns (artist: ArtistState)
    requires GroupDone(g, rows) && Count(rows, AllRows(rows), OfArtist(g.key)) > 0
    ensures fresh(artist) && fresh(artist.albums) && artist.key == g.key
    ensures LiveArtistOk(artist, rows, AllRows(rows))
    ensures forall o | o in ArtistFootprint(artist) :: fresh(o) || o in GroupObjects(g)
  {
    hide GroupDone, AlbumOk, OnePerAlbum, Count, GroupRank, First, AllAlbumsOk, HeapOk;
    GroupStarts(g, rows);
    var albumHeap := new BinaryHeap<AlbumState>();
    OnlyRows(albumHeap, g);
    var albums, remaining := MakeAlbums(g, rows);
    assert multiset(albums) == multiset(albumHeap.values) + multiset(albums);
    PushAlbums(albumHeap, albums, albums, g.key, rows, AllRows(rows));
    SameContents(albumHeap.values, albums);
    artist := new ArtistState(g.key, g.firstIndex, remaining, albumHeap);
    ArtistIsNoAlbum(artist, albumHeap.values);
    forall o | o in ArtistFootprint(artist) ensures fresh(o) || o in GroupObjects(g) {
      if o !in {artist as object, albumHeap} {
        var al :| al in albumHeap.values && o in Footprint(al);
        assert al in albums;
      }
    }
  }

  lemma GroupStarts(g: ArtistGroup, rows: seq<Row>)
    requires GroupDone(g, rows)
    ensures g.firstIndex == First(rows, OfArtist(g.key))
  {
  }

  // ---------- all artists ----------

  lemma GroupAtEnd(order: seq<Key>, groups: map<Key, ArtistGroup>, rows: seq<Row>, k: nat)
    requires GroupsMade(order, groups, rows, |rows|) && k < |order|
    ensures order[k] in groups && groups[order[k]].key == order[k]
    ensures GroupDone(groups[order[k]], rows) && Count(rows, AllRows(rows), OfArtist(order[k])) > 0
    ensures GroupObjects(groups[order[k]]) <= GroupsObjects(groups)
  {
    hide GroupMade;
    assert rows[..|rows|] == rows;
    assert order[k] in order;
  }

  lemma EveryArtistMade(artists: seq<ArtistState>, order: seq<Key>, groups: map<Key, ArtistGroup>, rows: seq<Row>)
    requires GroupsMade(order, groups, rows, |rows|) && |artists| == |order|
    requires forall k | 0 <= k < |artists| :: artists[k].key == order[k]
    requires forall x, y | 0 <= x < y < |artists| :: artists[x].albums != artists[y].albums
    ensures OnePerArtist(artists, rows, AllRows(rows))
  {
    hide GroupMade;
    assert rows[..|rows|] == rows;
    forall a | Count(rows, AllRows(rows), OfArtist(a)) > 0 ensures exists ar :: ar in artists && ar.key == a {
      assert a in order;
      var k :| 0 <= k < |order| && order[k] == a;
      assert artists[k] in artists;
    }
  }

  method MakeArtists(order: seq<Key>, groups: map<Key, ArtistGroup>, ghost rows: seq<Row>) returns (artists: seq<ArtistState>)
    requires GroupsMade(order, groups, rows, |rows|)
    ensures forall ar | ar in artists :: LiveArtistOk(ar, rows, AllRows(rows))
    ensures OnePerArtist(artists, rows, AllRows(rows))
    ensures forall ar, o | ar in artists && o in ArtistFootprint(ar) :: fresh(o) || o in GroupsObjects(groups)
  {
    hide GroupsMade, LiveArtistOk, Count, OnePerArtist, GroupDone;
    artists := [];
    for k := 0 to |order|
      invariant GroupsMade(order, groups, rows, |rows|) && |artists| == k
      invariant forall j | 0 <= j < k :: artists[j].key == order[j]
      invariant forall i, j | 0 <= i < j < k :: artists[i].albums != artists[j].albums
      invariant forall ar | ar in artists :: LiveArtistOk(ar, rows, AllRows(rows))
      invariant forall ar, o | ar in artists && o in ArtistFootprint(ar) :: fresh(o) || o in GroupsObjects(groups)
    {
      GroupAtEnd(order, groups, rows, k);
      assert forall ar | ar in artists :: allocated(ArtistFootprint(ar));
      var artist := BuildArtist(groups[order[k]], rows);
      assert forall ar | ar in artists :: LiveArtistOk(ar, rows, AllRows(rows));
      artists := artists + [artist];
    }
    EveryArtistMade(artists, order, groups, rows);
  }
}
