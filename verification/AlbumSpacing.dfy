/** Two families of playlists for which album spacing is certain in spite of the bounded frontier. */
module AlbumSpacing {
  import opened Collections
  import opened PriorityHeap
  import opened PlaylistGroups
  import opened SequencingPolicy
  import opened SequencingTheorems

  /** A catalogue of one artist. */
  ghost predicate SoloArtist(rows: seq<Row>) {
    forall i: nat, j: nat | i < |rows| && j < |rows| :: rows[i].artist == rows[j].artist
  }

  /** A compilation: no artist twice, and no more rows than the artist horizon. */
  ghost predicate ShortCompilation(rows: seq<Row>) {
    |rows| <= ARTIST_LOOKAHEAD && forall i: nat, j: nat | i < j < |rows| :: rows[i].artist != rows[j].artist
  }

  ghost function AfterArtistGuards(list: Playlist, live: set<nat>, previous: Option<nat>, ps: seq<Proposal>): seq<Proposal>
    requires previous.Some? ==> previous.value < |list.rows|
  {
    Prefer(AfterArtist(list, previous, ps), SafeArtist(list, live))
  }

  /** The album filters: one permitted proposal keeps out the last album, one safe one keeps out unsafe albums. */
  lemma EligibleAlbums(list: Playlist, live: set<nat>, previous: Option<nat>, ps: seq<Proposal>, p: Proposal, chosen: Proposal)
    requires previous.Some? ==> previous.value < |list.rows|
    requires p in AfterArtistGuards(list, live, previous, ps)
    requires previous.Some? ==> p.album != list.rows[previous.value].album
    requires chosen in Eligible(list, live, previous, ps)
    ensures previous.Some? ==> chosen.album != list.rows[previous.value].album
    ensures SafeChoice(list.rows, live, OfAlbum(p.album)) ==> SafeChoice(list.rows, live, OfAlbum(chosen.album))
  {
    hide SafeChoice;
    var e3 := AfterAlbum(list, previous, AfterArtistGuards(list, live, previous, ps));
    assert p in e3 && chosen in e3;
  }

  // ---------- one artist ----------

  lemma SoloKeepsProposals(list: Playlist, live: set<nat>, previous: Option<nat>, ps: seq<Proposal>, p: Proposal)
    requires SoloArtist(list.rows) && (previous.Some? ==> previous.value < |list.rows|)
    requires IsFrontier(list, live, previous, ps) && p in ps
    ensures p in AfterArtistGuards(list, live, previous, ps)
  {
    hide SafeChoice, InFrontier, IsProposal, Precedes;
    forall q | q in ps ensures q.artist == p.artist && (previous.Some? ==> q.artist == list.rows[previous.value].artist) {
      ProposalRow(list, live, previous, q);
      ProposalRow(list, live, previous, p);
    }
    assert AfterArtist(list, previous, ps) == ps;
  }

  lemma SoloCounts(rows: seq<Row>, live: set<nat>, a: Key, b: Key)
    requires forall i: nat | i < |rows| :: rows[i].artist == a
    ensures GroupRank(rows, live, OfArtistAlbum(a, b)) == GroupRank(rows, live, OfAlbum(b))
  {
    assert Members(rows, live, OfArtistAlbum(a, b)) == Members(rows, live, OfAlbum(b));
    SoloPositions(rows, a, b);
  }

  lemma {:induction false} SoloPositions(rows: seq<Row>, a: Key, b: Key)
    requires forall i: nat | i < |rows| :: rows[i].artist == a
    ensures Positions(rows, OfArtistAlbum(a, b)) == Positions(rows, OfAlbum(b))
  {
    if |rows| > 0 {
      assert forall i: nat | i < |rows| - 1 :: rows[..|rows| - 1][i] == rows[i];
      SoloPositions(rows[..|rows| - 1], a, b);
    }
  }

  /** The top permitted album of a solo catalogue is in the 8-album frontier. */
  lemma SoloTopInFrontier(rows: seq<Row>, live: set<nat>, previous: Option<nat>, top: nat)
    requires SoloArtist(rows) && live <= AllRows(rows)
    requires previous.Some? ==> previous.value < |rows|
    requires top in live
    requires forall j | j in live && (previous.Some? ==> Of(rows, ALBUMS, j) != Of(rows, ALBUMS, previous.value)) ::
      !Higher(GroupRank(rows, live, Of(rows, ALBUMS, j)), GroupRank(rows, live, Of(rows, ALBUMS, top)))
    ensures InFrontier(rows, live, rows[top].artist, rows[top].album)
  {
    hide Count, First;
    var a, b := rows[top].artist, rows[top].album;
    CountPositive(rows, live, OfArtistAlbum(a, b));
    assert Outrankers(rows, live, OfArtist(a)) == {};
    var g := OfArtistAlbum(a, b);
    var allowed := if previous.Some? then {OfArtistAlbum(a, rows[previous.value].album)} else {};
    forall h | h in Outrankers(rows, live, g) ensures h in allowed {
      var j :| j in live && j < |rows| && Comparable(rows[j], g) && Peer(rows[j], g) == h;
      SoloCounts(rows, live, a, b);
      SoloCounts(rows, live, a, h.album);
      assert Of(rows, ALBUMS, j) == OfAlbum(h.album);
    }
    SubsetCardinality(Outrankers(rows, live, g), allowed);
  }

  lemma SoloTopProposal(list: Playlist, live: set<nat>, previous: Option<nat>, ps: seq<Proposal>, i: nat)
    returns (top: nat, p: Proposal)
    requires SoloArtist(list.rows) && live <= AllRows(list.rows)
    requires previous.Some? ==> previous.value < |list.rows|
    requires IsFrontier(list, live, previous, ps)
    requires i in live && (previous.Some? ==> list.rows[i].album != list.rows[previous.value].album)
    ensures p in AfterArtistGuards(list, live, previous, ps)
    ensures top in live && p.album == list.rows[top].album
    ensures previous.Some? ==> p.album != list.rows[previous.value].album
    ensures !Higher(GroupRank(list.rows, live, Of(list.rows, ALBUMS, i)), GroupRank(list.rows, live, Of(list.rows, ALBUMS, top)))
  {
    hide SafeChoice;
    top := TopOther(list.rows, live, previous, ALBUMS, i);
    SoloTopInFrontier(list.rows, live, previous, top);
    var k :| 0 <= k < |ps| && ps[k].artist == list.rows[top].artist && ps[k].album == list.rows[top].album;
    p := ps[k];
    SoloKeepsProposals(list, live, previous, ps, p);
  }

  lemma SoloStepAsGood(list: Playlist, live: set<nat>, previous: Option<nat>, row: nat, i: nat)
    requires SoloArtist(list.rows) && live <= AllRows(list.rows)
    requires Step(list, live, previous, row)
    requires i in live && (previous.Some? ==> list.rows[i].album != list.rows[previous.value].album)
    ensures row < |list.rows| && (previous.Some? ==> list.rows[row].album != list.rows[previous.value].album)
    ensures SafeChoice(list.rows, live, OfAlbum(list.rows[i].album)) ==>
      SafeChoice(list.rows, live, OfAlbum(list.rows[row].album))
  {
    hide SafeChoice, Eligible, IsFrontier;
    var ps, chosen := StepChoice(list, live, previous, row);
    hide Step;
    var top, p := SoloTopProposal(list, live, previous, ps, i);
    EligibleAlbums(list, live, previous, ps, p, chosen);
    hide AfterArtistGuards, SoloArtist;
    if SafeChoice(list.rows, live, OfAlbum(list.rows[i].album)) {
      TopIsSafe(list.rows, live, previous, ALBUMS, i, top);
    }
  }

  // ---------- a short compilation ----------

  lemma CompilationCounts(rows: seq<Row>, live: set<nat>, i: nat)
    requires ShortCompilation(rows) && i in live && i < |rows|
    ensures Members(rows, live, OfArtist(rows[i].artist)) == {i}
    ensures Count(rows, live, OfArtist(rows[i].artist)) == 1
  {
  }

  lemma CompilationSafe(rows: seq<Row>, live: set<nat>, i: nat)
    requires ShortCompilation(rows) && live <= AllRows(rows) && i in live
    ensures SafeChoice(rows, live, OfArtist(rows[i].artist))
  {
    var g := OfArtist(rows[i].artist);
    CompilationCounts(rows, live, i);
    assert |live| > 0;
    forall h | h in Peers(rows, live, g) && h != g
      ensures Count(rows, live, h) <= |live| / 2
    {
      var j := PeerWitness(rows, live, ARTISTS, g, h);
      CompilationCounts(rows, live, j);
      SubsetCardinality({i, j}, live);
    }
  }

  lemma CompilationKeepsProposals(list: Playlist, live: set<nat>, previous: Option<nat>, ps: seq<Proposal>, p: Proposal)
    requires ShortCompilation(list.rows) && live <= AllRows(list.rows)
    requires previous.Some? ==> previous.value < |list.rows| && previous.value !in live
    requires IsFrontier(list, live, previous, ps) && p in ps
    ensures p in AfterArtistGuards(list, live, previous, ps)
  {
    hide SafeChoice, InFrontier, IsProposal, Precedes;
    forall q | q in ps
      ensures SafeChoice(list.rows, live, OfArtist(q.artist))
      ensures previous.Some? ==> q.artist != list.rows[previous.value].artist
    {
      ProposalRow(list, live, previous, q);
      CompilationSafe(list.rows, live, q.row);
      if previous.Some? {
        assert q.row < previous.value || previous.value < q.row;
      }
    }
    assert p in AfterArtist(list, previous, ps);
  }

  lemma CompilationInFrontier(rows: seq<Row>, live: set<nat>, i: nat)
    requires ShortCompilation(rows) && live <= AllRows(rows) && i in live
    ensures InFrontier(rows, live, rows[i].artist, rows[i].album)
  {
    hide Count, First;
    var g := OfArtist(rows[i].artist);
    var o := Outrankers(rows, live, g);
    CountPositive(rows, live, OfArtistAlbum(rows[i].artist, rows[i].album));
    PeersAreFew(rows, live);
    assert g in Peers(rows, live, ARTISTS) by { assert Peer(rows[i], ARTISTS) == g; }
    assert Peers(rows, live, g) == Peers(rows, live, ARTISTS);
    assert o <= Peers(rows, live, ARTISTS) - {g};
    SubsetCardinality(o, Peers(rows, live, ARTISTS) - {g});
    assert Outrankers(rows, live, OfArtistAlbum(rows[i].artist, rows[i].album)) == {};
  }

  lemma {:induction false} PeersAreFew(rows: seq<Row>, live: set<nat>)
    requires live <= AllRows(rows)
    ensures |Peers(rows, live, ARTISTS)| <= |live| <= |rows|
  {
    AllRowsCardinality(rows);
    SubsetCardinality(live, AllRows(rows));
    if live == {} {
      assert Peers(rows, live, ARTISTS) == {};
    } else {
      var i :| i in live;
      PeersAreFew(rows, live - {i});
      assert Peers(rows, live, ARTISTS) <= Peers(rows, live - {i}, ARTISTS) + {Peer(rows[i], ARTISTS)};
      SubsetCardinality(Peers(rows, live, ARTISTS), Peers(rows, live - {i}, ARTISTS) + {Peer(rows[i], ARTISTS)});
    }
  }

  lemma CompilationStepAsGood(list: Playlist, live: set<nat>, previous: Option<nat>, row: nat, i: nat)
    requires ShortCompilation(list.rows) && live <= AllRows(list.rows)
    requires previous.Some? ==> previous.value !in live
    requires Step(list, live, previous, row)
    requires i in live && (previous.Some? ==> list.rows[i].album != list.rows[previous.value].album)
    ensures row < |list.rows| && (previous.Some? ==> list.rows[row].album != list.rows[previous.value].album)
    ensures SafeChoice(list.rows, live, OfAlbum(list.rows[i].album)) ==>
      SafeChoice(list.rows, live, OfAlbum(list.rows[row].album))
  {
    hide SafeChoice, Eligible;
    var ps, chosen := StepChoice(list, live, previous, row);
    hide Step;
    CompilationInFrontier(list.rows, live, i);
    hide InFrontier;
    var k :| 0 <= k < |ps| && ps[k].artist == list.rows[i].artist && ps[k].album == list.rows[i].album;
    CompilationKeepsProposals(list, live, previous, ps, ps[k]);
    hide IsFrontier;
    EligibleAlbums(list, live, previous, ps, ps[k], chosen);
  }

  // ---------- both families ----------

  lemma StepAlbumAsGood(list: Playlist, live: set<nat>, previous: Option<nat>, row: nat, i: nat)
    requires SoloArtist(list.rows) || ShortCompilation(list.rows)
    requires live <= AllRows(list.rows) && (previous.Some? ==> previous.value !in live)
    requires Step(list, live, previous, row)
    requires i in live && (previous.Some? ==> list.rows[i].album != list.rows[previous.value].album)
    ensures row < |list.rows| && (previous.Some? ==> list.rows[row].album != list.rows[previous.value].album)
    ensures SafeChoice(list.rows, live, OfAlbum(list.rows[i].album)) ==>
      SafeChoice(list.rows, live, OfAlbum(list.rows[row].album))
  {
    hide Step, SafeChoice;
    if SoloArtist(list.rows) {
      SoloStepAsGood(list, live, previous, row, i);
    } else {
      CompilationStepAsGood(list, live, previous, row, i);
    }
  }

  lemma StepSpacesAlbums(list: Playlist, live: set<nat>, previous: Option<nat>, row: nat)
    requires SoloArtist(list.rows) || ShortCompilation(list.rows)
    requires live <= AllRows(list.rows) && (previous.Some? ==> previous.value !in live)
    requires Step(list, live, previous, row)
    ensures row < |list.rows| && (previous.Some? ==> previous.value < |list.rows|)
    ensures Spaced(list.rows, live, previous, row, ALBUMS)
  {
    var rows := list.rows;
    hide Step, SafeChoice, SoloArtist, ShortCompilation;
    StepTakesLiveRow(list, live, previous, row);
    if i :| i in live && previous.Some? && Of(rows, ALBUMS, i) != Of(rows, ALBUMS, previous.value) {
      StepAlbumAsGood(list, live, previous, row, i);
    }
    if i :| (i in live && SafeChoice(rows, live, Of(rows, ALBUMS, i))
             && (previous.Some? ==> Of(rows, ALBUMS, i) != Of(rows, ALBUMS, previous.value))) {
      StepAlbumAsGood(list, live, previous, row, i);
    }
  }

  /** For one artist, or a short compilation, albums are spaced exactly when any arrangement could space them. */
  lemma AlbumSpacingWheneverPossible(list: Playlist, order: seq<nat>)
    requires SoloArtist(list.rows) || ShortCompilation(list.rows)
    requires IsSequence(list, order)
    ensures NoNeighbours(list.rows, order, ALBUMS) <==> Spreadable(list.rows, ALBUMS)
  {
    hide FollowsPolicy, Step, Spaced, SafeChoice;
    assert order[..|order|] == order;
    SequenceIsPermutation(list, order);
    if Spreadable(list.rows, ALBUMS) {
      hide SoloArtist, ShortCompilation;
      forall j | 0 <= j < |order|
        ensures order[j] < |list.rows|
        ensures Spaced(list.rows, Remaining(list, order[..j]), Last(order[..j]), order[j], ALBUMS)
      {
        StepAt(list, order, j);
        StepSpacesAlbums(list, Remaining(list, order[..j]), Last(order[..j]), order[j]);
      }
      SpacedRun(list, order, |order|, ALBUMS);
    }
    if NoNeighbours(list.rows, order, ALBUMS) {
      SpacedIsSpreadable(list, order, ALBUMS);
    }
  }
}
