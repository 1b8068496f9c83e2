/** sequencePlaylistRows: build the state, place every row, and what the result is therefore known to satisfy. */
module SequencePlaylist {
  import opened Collections
  import opened PriorityHeap
  import opened PlaylistGroups
  import opened SequencingPolicy
  import opened SequencingTheorems
  import opened SequencingChoices
  import opened AlbumSpacing
  import opened SequencerState
  import opened SequencerFrontier
  import opened SequencerChoice
  import opened SequencerArtists
  import opened AlbumCountIndex
  import opened SequencerBuild
  import opened PlaylistSequencing

  lemma CountsComplete(order: seq<Key>, counts: map<Key, CountState>, rows: seq<Row>)
    requires CountsMade(order, counts, rows, |rows|)
    ensures CountsOk(counts, rows, AllRows(rows))
  {
    assert rows[..|rows|] == rows;
    forall i: nat | i < |rows| ensures rows[i].album in counts {
      CountPositive(rows, AllRows(rows), OfAlbum(rows[i].album));
    }
  }

  lemma EntriesComplete(order: seq<Key>, counts: map<Key, CountState>, rows: seq<Row>, entries: seq<CountEntry>)
    requires CountsMade(order, counts, rows, |rows|) && |entries| == |order|
    requires forall k | 0 <= k < |entries| ::
      order[k] in counts && entries[k] == CountEntry(counts[order[k]], counts[order[k]].remaining, counts[order[k]].revision)
    ensures Distinct(entries)
    ensures forall e | e in entries :: EntryOk(e, counts)
    ensures forall b | b in counts :: CountEntry(counts[b], counts[b].remaining, counts[b].revision) in entries
  {
    hide Count, First;
    forall b | b in counts ensures CountEntry(counts[b], counts[b].remaining, counts[b].revision) in entries {
      assert b in order;
      var k :| 0 <= k < |order| && order[k] == b;
      assert entries[k] in entries;
    }
    forall i, j | 0 <= i < j < |entries| ensures entries[i] != entries[j] {
      assert counts[order[i]].key == order[i] && counts[order[j]].key == order[j];
    }
  }

  lemma IndexComplete(entries: seq<CountEntry>, values: seq<CountEntry>, counts: map<Key, CountState>)
    requires Distinct(entries) && multiset(values) == multiset(entries)
    requires forall e | e in entries :: EntryOk(e, counts)
    requires forall b | b in counts :: CountEntry(counts[b], counts[b].remaining, counts[b].revision) in entries
    requires HeapOrdered(values, EntryRanks(entries))
    ensures IndexOk(values, counts)
  {
    SameContents(values, entries);
    SameHeapOrder(values, EntryRanks(entries), EntryRanks(values));
  }

  method BuildAlbumCounts(order: seq<Key>, counts: map<Key, CountState>, ghost rows: seq<Row>)
    returns (heap: BinaryHeap<CountEntry>)
    requires CountsMade(order, counts, rows, |rows|)
    ensures fresh(heap) && CountsOk(counts, rows, AllRows(rows)) && IndexOk(heap.values, counts)
  {
    hide Count, First, EntryOk, EntryRanks, HeapOrdered, IndexOk, CountsOk;
    CountsComplete(order, counts, rows);
    heap := new BinaryHeap<CountEntry>();
    HeapIsNoState(heap, [], counts);
    var entries: seq<CountEntry> := [];
    for k := 0 to |order|
      invariant |entries| == k
      invariant forall j | 0 <= j < k ::
        order[j] in counts && entries[j] == CountEntry(counts[order[j]], counts[order[j]].remaining, counts[order[j]].revision)
    {
      assert order[k] in order;
      var state := counts[order[k]];
      entries := entries + [CountEntry(state, state.remaining, state.revision)];
    }
    EntriesComplete(order, counts, rows, entries);
    EmptyHeap(entries);
    PushAll(heap, entries, CountEntryHigherPriority, EntryRanks(entries));
    IndexComplete(entries, heap.values, counts);
  }

  lemma EmptyHeap(entries: seq<CountEntry>)
    ensures HeapOrdered([], EntryRanks(entries)) && RankedAll(entries, EntryRanks(entries))
    ensures forall x, y | x in EntryRanks(entries) && y in EntryRanks(entries) ::
      CountEntryHigherPriority(x, y) == Higher(EntryRanks(entries)[x], EntryRanks(entries)[y])
  {
  }

  method BuildArtistHeap(order: seq<Key>, groups: map<Key, ArtistGroup>, ghost rows: seq<Row>)
    returns (heap: BinaryHeap<ArtistState>)
    requires GroupsMade(order, groups, rows, |rows|)
    ensures fresh(heap) && ArtistsOk(heap, rows, AllRows(rows))
    ensures forall o | o in ArtistObjects(heap.values) :: fresh(o) || o in GroupsObjects(groups)
  {
    hide LiveArtistOk, OnePerArtist, ArtistsOk, GroupsMade, GroupsObjects;
    var artists := MakeArtists(order, groups, rows);
    assert forall ar | ar in artists :: allocated(ArtistFootprint(ar));
    heap := new BinaryHeap<ArtistState>();
    forall ar | ar in artists ensures heap !in ArtistFootprint(ar) {
      HeapIsNoArtistPart(heap, ar);
    }
    assert multiset(artists) == multiset(heap.values) + multiset(artists);
    PushArtists(heap, artists, artists, rows, AllRows(rows));
  }

  ghost function StateRepr(artistHeap: BinaryHeap<ArtistState>, albumCountHeap: BinaryHeap<CountEntry>,
                           counts: map<Key, CountState>): set<object>
    reads artistHeap, set ar | ar in artistHeap.values :: ar.albums
  {
    {artistHeap, albumCountHeap} + ArtistObjects(artistHeap.values) + (set s | s in counts.Values :: s as object)
  }

  lemma BuiltIsValid(s: Sequencer)
    requires s.repr == StateRepr(s.artistHeap, s.albumCountHeap, s.albumCounts)
    requires s.live == AllRows(s.list.rows)
    requires ArtistsOk(s.artistHeap, s.list.rows, s.live)
    requires CountsOk(s.albumCounts, s.list.rows, s.live) && IndexOk(s.albumCountHeap.values, s.albumCounts)
    ensures s.Valid()
  {
    hide LiveArtistOk, OnePerArtist, HeapOrdered, EntryRanks, ArtistRanks, ArtistsOk, CountsOk;
    forall ar | ar in s.artistHeap.values ensures ArtistFootprint(ar) <= s.repr && ar in s.repr && ar.albums in s.repr {
      assert ar in ArtistFootprint(ar) && ar.albums in ArtistFootprint(ar);
    }
    forall e | e in s.albumCountHeap.values ensures e.state in s.repr {
      assert EntryOk(e, s.albumCounts);
      assert e.state in s.albumCounts.Values;
    }
  }

  /** Every track's row is live, and everything reachable is new. */
  method BuildState(tracks: seq<Track>, list: Playlist) returns (s: Sequencer)
    requires list.rows == RowsOf(tracks)
    ensures s.Valid() && s.list == list && s.live == AllRows(list.rows)
    ensures fresh(s) && fresh(s.repr)
  {
    hide LiveArtistOk, OnePerArtist, ArtistsOk, CountsOk, IndexOk, GroupsMade, CountsMade, GroupsObjects, ArtistFootprint, EntryObjects, ArtistObjects;
    var order, groups, countOrder, counts := CollectRows(tracks);
    var artistHeap := BuildArtistHeap(order, groups, list.rows);
    assert allocated(ArtistObjects(artistHeap.values));
    var albumCountHeap := BuildAlbumCounts(countOrder, counts, list.rows);
    ghost var repr := StateRepr(artistHeap, albumCountHeap, counts);
    assert fresh(repr);
    assert allocated(EntryObjects(albumCountHeap.values)) && allocated(counts);
    s := new Sequencer(list, artistHeap, albumCountHeap, counts, AllRows(list.rows), repr);
    BuiltIsValid(s);
  }

  datatype SequencedRow = SequencedRow(sourceIndex: nat, track: Track)

  function SourceIndexes(result: seq<SequencedRow>): (r: seq<nat>)
    ensures |r| == |result| && forall k | 0 <= k < |result| :: r[k] == result[k].sourceIndex
  {
    seq(|result|, k requires 0 <= k < |result| => result[k].sourceIndex)
  }

  lemma PolicyGrows(list: Playlist, order: seq<nat>, row: nat)
    requires FollowsPolicy(list, order) && Step(list, Remaining(list, order), Last(order), row)
    ensures FollowsPolicy(list, order + [row])
    ensures Remaining(list, order + [row]) == Remaining(list, order) - {row}
    ensures Last(order + [row]) == Some(row)
  {
    hide Step;
    var longer := order + [row];
    forall k | 0 <= k < |longer| ensures Step(list, Remaining(list, longer[..k]), Last(longer[..k]), longer[k]) {
      assert longer[..k] == order[..k];
      if k == |order| { assert order[..k] == order; }
    }
    assert Elements(longer) == Elements(order) + {row};
  }

  lemma HeapMeansLive(s: Sequencer)
    requires s.Valid()
    ensures s.live == {} <==> |s.artistHeap.values| == 0
  {
    hide LiveArtistOk, OnePerArtist, HeapOrdered, CountsOk, IndexOk, ArtistsOk;
    LiveHasArtist(s.artistHeap, s.list.rows, s.live);
  }

  /** What the loop knows after placing result. */
  ghost predicate Progress(s: Sequencer, tracks: seq<Track>, result: seq<SequencedRow>, previous: InternalRow?) {
    && s.list.rows == RowsOf(tracks)
    && FollowsPolicy(s.list, SourceIndexes(result))
    && (forall k | 0 <= k < |result| :: result[k].sourceIndex < |tracks| && result[k].track == tracks[result[k].sourceIndex])
    && Last(SourceIndexes(result)) == IndexOf(previous)
    && (previous != null ==>
          previous.sourceIndex < |s.list.rows| && s.list.rows[previous.sourceIndex] == Row(previous.artistKey, previous.albumKey))
  }

  lemma ProgressCounts(s: Sequencer, tracks: seq<Track>, result: seq<SequencedRow>, previous: InternalRow?)
    requires Progress(s, tracks, result, previous)
    ensures |Remaining(s.list, SourceIndexes(result))| == |tracks| - |result|
  {
    hide Remaining, FollowsPolicy;
    var order := SourceIndexes(result);
    assert order[..|order|] == order;
    PrefixPlaces(s.list, order, |order|);
  }

  lemma ProgressStarts(s: Sequencer, tracks: seq<Track>)
    requires s.list.rows == RowsOf(tracks)
    ensures Progress(s, tracks, [], null) && Remaining(s.list, SourceIndexes([])) == AllRows(s.list.rows)
  {
    assert SourceIndexes([]) == [];
  }

  lemma ProgressGrows(s: Sequencer, tracks: seq<Track>, result: seq<SequencedRow>, previous: InternalRow?, row: InternalRow)
    requires Progress(s, tracks, result, previous)
    requires Step(s.list, Remaining(s.list, SourceIndexes(result)), IndexOf(previous), row.sourceIndex)
    requires row.sourceIndex < |s.list.rows| && s.list.rows[row.sourceIndex] == Row(row.artistKey, row.albumKey)
    ensures var longer := result + [SequencedRow(row.sourceIndex, tracks[row.sourceIndex])];
      && Progress(s, tracks, longer, row)
      && Remaining(s.list, SourceIndexes(longer)) == Remaining(s.list, SourceIndexes(result)) - {row.sourceIndex}
  {
    hide Step, FollowsPolicy, Remaining;
    var longer := result + [SequencedRow(row.sourceIndex, tracks[row.sourceIndex])];
    assert SourceIndexes(longer) == SourceIndexes(result) + [row.sourceIndex];
    PolicyGrows(s.list, SourceIndexes(result), row.sourceIndex);
  }

  lemma EmptySequence(list: Playlist)
    requires |list.rows| == 0
    ensures IsSequence(list, SourceIndexes([])) && Elements(SourceIndexes([])) == AllRows(list.rows)
    ensures NoNeighbours(list.rows, SourceIndexes([]), ARTISTS) && Spreadable(list.rows, ARTISTS)
  {
    assert SourceIndexes([]) == [];
  }

  /** The result is the policy's one sequence: a permutation that spaces artists whenever any arrangement can. */
  method SequencePlaylistRows(tracks: seq<Track>, transition: (Option<nat>, nat) -> TransitionScore, preference: Preference)
    returns (result: seq<SequencedRow>)
    ensures IsSequence(Playlist(RowsOf(tracks), transition, preference), SourceIndexes(result))
    ensures forall k | 0 <= k < |result| :: result[k].sourceIndex < |tracks| && result[k].track == tracks[result[k].sourceIndex]
    ensures Distinct(SourceIndexes(result)) && Elements(SourceIndexes(result)) == AllRows(RowsOf(tracks))
    ensures NoNeighbours(RowsOf(tracks), SourceIndexes(result), ARTISTS) <==> Spreadable(RowsOf(tracks), ARTISTS)
    ensures var list, order := Playlist(RowsOf(tracks), transition, preference), SourceIndexes(result);
      forall k | 0 <= k < |order| :: BestPlacement(list, Remaining(list, order[..k]), Last(order[..k]), order[k])
  {
    hide NoNeighbours, Spreadable;
    hide Progress, Remaining, FollowsPolicy, Step, BestPlacement;
    var list := Playlist(RowsOf(tracks), transition, preference);
    if |tracks| == 0 {
      result := [];
      EmptySequence(list);
      return;
    }
    var s := BuildState(tracks, list);
    result := [];
    var previous: InternalRow? := null;
    ProgressStarts(s, tracks);
    HeapMeansLive(s);
    while |s.artistHeap.values| > 0
      invariant s.Valid() && fresh(s) && fresh(s.repr) && s.list == list
      invariant Progress(s, tracks, result, previous)
      invariant s.live == Remaining(list, SourceIndexes(result))
      invariant s.live == {} <==> |s.artistHeap.values| == 0
      decreases s.live
    {
      ProgressCounts(s, tracks, result, previous);
      ProgressFacts(s, tracks, result, previous);
      var row := s.PlaceNext(previous, |tracks| - |result| - 1);
      ProgressGrows(s, tracks, result, previous, row);
      result := result + [SequencedRow(row.sourceIndex, tracks[row.sourceIndex])];
      previous := row;
      HeapMeansLive(s);
    }
    ProgressCounts(s, tracks, result, previous);
    ProgressFacts(s, tracks, result, previous);
    if |result| != |tracks| {
      assert false;  // "emitted fewer rows than given"
    }
    SequenceIsPermutation(list, SourceIndexes(result));
    ArtistSpacingWheneverPossible(list, SourceIndexes(result));
    SequenceIsBest(list, SourceIndexes(result));
  }

  lemma ProgressFacts(s: Sequencer, tracks: seq<Track>, result: seq<SequencedRow>, previous: InternalRow?)
    requires Progress(s, tracks, result, previous)
    ensures s.list.rows == RowsOf(tracks) && FollowsPolicy(s.list, SourceIndexes(result))
    ensures forall k | 0 <= k < |result| :: result[k].sourceIndex < |tracks| && result[k].track == tracks[result[k].sourceIndex]
    ensures previous != null ==>
      previous.sourceIndex < |s.list.rows| && s.list.rows[previous.sourceIndex] == Row(previous.artistKey, previous.albumKey)
  {
  }
}
