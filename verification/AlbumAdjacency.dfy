/** Exactly when a step repeats the previous album, in any playlist, and a run in which it does so without need. */
module AlbumAdjacency {
  import opened Collections
  import opened PriorityHeap
  import opened PlaylistGroups
  import opened SequencingPolicy
  import opened SequencingTheorems
  import opened AlbumSpacing

  /** a is not the last artist, if another one still has rows. */
  ghost predicate Permitted(rows: seq<Row>, live: set<nat>, last: nat, a: Key)
    requires last < |rows|
  {
    (exists j :: j in live && j < |rows| && rows[j].artist != rows[last].artist) ==> a != rows[last].artist
  }

  ghost predicate SafeIsPermitted(rows: seq<Row>, live: set<nat>, last: nat)
    requires last < |rows|
  {
    exists j :: j in live && j < |rows| && Permitted(rows, live, last, rows[j].artist) && SafeChoice(rows, live, OfArtist(rows[j].artist))
  }

  /** What decides whether the album filter sees an artist: the horizon, the last artist and the artist guard. */
  ghost predicate Admitted(rows: seq<Row>, live: set<nat>, last: nat, a: Key)
    requires last < |rows|
  {
    && |Outrankers(rows, live, OfArtist(a))| < ARTIST_LOOKAHEAD
    && Permitted(rows, live, last, a)
    && (SafeIsPermitted(rows, live, last) ==> SafeChoice(rows, live, OfArtist(a)))
  }

  /** The horizon of eight albums never hides that an artist has another album: at most the last album outranks its best other one. */
  lemma OtherAlbumInFrontier(rows: seq<Row>, live: set<nat>, last: nat, i: nat) returns (album: Key)
    requires last < |rows| && i in live && i < |rows| && rows[i].album != rows[last].album
    requires |Outrankers(rows, live, OfArtist(rows[i].artist))| < ARTIST_LOOKAHEAD
    ensures InFrontier(rows, live, rows[i].artist, album) && album != rows[last].album
  {
    hide Count, First;
    var a := rows[i].artist;
    var others := set j | j in live && j < |rows| && rows[j].artist == a && rows[j].album != rows[last].album :: OfArtistAlbum(a, rows[j].album);
    assert OfArtistAlbum(a, rows[i].album) in others;
    var g := TopGroup(rows, live, others);
    album := g.album;
    var k :| k in live && k < |rows| && rows[k].artist == a && rows[k].album == album;
    CountPositive(rows, live, g);
    forall h | h in Outrankers(rows, live, g) ensures h in {OfArtistAlbum(a, rows[last].album)} {
      var j :| j in live && j < |rows| && Comparable(rows[j], g) && Peer(rows[j], g) == h;
      assert rows[j].album != rows[last].album ==> h in others;
    }
    SubsetCardinality(Outrankers(rows, live, g), {OfArtistAlbum(a, rows[last].album)});
  }

  /** If another artist has rows, the frontier holds a proposal by another artist. */
  lemma OtherArtistInFrontier(list: Playlist, live: set<nat>, last: nat, ps: seq<Proposal>, i: nat) returns (p: Proposal)
    requires last < |list.rows| && IsFrontier(list, live, Some(last), ps)
    requires i in live && i < |list.rows| && list.rows[i].artist != list.rows[last].artist
    ensures p in ps && p.artist != list.rows[last].artist
  {
    var top := TopOther(list.rows, live, Some(last), ARTISTS, i);
    p := TopProposal(list, live, Some(last), ps, top);
  }

  /** The first filter keeps exactly the permitted artists. */
  lemma AfterArtistIsPermitted(list: Playlist, live: set<nat>, last: nat, ps: seq<Proposal>, p: Proposal)
    requires last < |list.rows| && IsFrontier(list, live, Some(last), ps) && p in ps
    ensures p in AfterArtist(list, Some(last), ps) <==> Permitted(list.rows, live, last, p.artist)
  {
    hide InFrontier, Precedes, IsProposal;
    if i :| i in live && i < |list.rows| && list.rows[i].artist != list.rows[last].artist {
      var other := OtherArtistInFrontier(list, live, last, ps, i);
      assert OtherArtist(list.rows[last].artist)(other);
    } else {
      forall q | q in ps ensures !OtherArtist(list.rows[last].artist)(q) {
        ProposalRow(list, live, Some(last), q);
      }
    }
  }

  /** Proposals by admitted artists reach the album filter. */
  lemma AdmittedReachAlbumFilter(list: Playlist, live: set<nat>, last: nat, ps: seq<Proposal>, p: Proposal)
    requires last < |list.rows| && IsFrontier(list, live, Some(last), ps) && p in ps
    requires Admitted(list.rows, live, last, p.artist)
    ensures p in AfterArtistGuards(list, live, Some(last), ps)
  {
    hide InFrontier, Precedes, IsProposal, SafeChoice, Permitted, AfterArtist;
    AfterArtistIsPermitted(list, live, last, ps, p);
    var e1 := AfterArtist(list, Some(last), ps);
    if q :| q in e1 && SafeArtist(list, live)(q) {
      AfterArtistIsPermitted(list, live, last, ps, q);
      ProposalRow(list, live, Some(last), q);
      assert SafeIsPermitted(list.rows, live, last);
    }
  }

  /** The artist of a step's row is admitted. */
  lemma StepIsAdmitted(list: Playlist, live: set<nat>, last: nat, row: nat)
    requires live <= AllRows(list.rows) && last < |list.rows|
    requires Step(list, live, Some(last), row)
    ensures row in live && row < |list.rows| && Admitted(list.rows, live, last, list.rows[row].artist)
  {
    hide SafeChoice, Eligible, Decide, IsProposal, Precedes;
    var rows := list.rows;
    var ps, chosen := StepChoice(list, live, Some(last), row);
    assert InFrontier(rows, live, chosen.artist, chosen.album);
    hide Step, InFrontier, IsFrontier;
    if i :| i in live && i < |rows| && rows[i].artist != rows[last].artist {
      StepArtistAsGood(list, live, Some(last), row, i);
    }
    if j :| j in live && j < |rows| && Permitted(rows, live, last, rows[j].artist) && SafeChoice(rows, live, OfArtist(rows[j].artist)) {
      if rows[j].artist != rows[last].artist {
        StepArtistAsGood(list, live, Some(last), row, j);
      } else {
        assert rows[row].artist == rows[j].artist;
      }
    }
  }

  /** In every playlist: a step repeats the last album exactly when each live row of an admitted artist is of that album. */
  lemma StepRepeatsAlbumExactly(list: Playlist, live: set<nat>, last: nat, row: nat)
    requires live <= AllRows(list.rows) && last < |list.rows|
    requires Step(list, live, Some(last), row)
    ensures row < |list.rows|
    ensures list.rows[row].album == list.rows[last].album
      <==> forall i | i in live && i < |list.rows| && Admitted(list.rows, live, last, list.rows[i].artist) ::
             list.rows[i].album == list.rows[last].album
  {
    hide SafeChoice, Permitted, SafeIsPermitted, Eligible, Decide, Precedes, IsProposal, AfterArtistGuards;
    StepIsAdmitted(list, live, last, row);
    if i :| (i in live && i < |list.rows| && Admitted(list.rows, live, last, list.rows[i].artist)
             && list.rows[i].album != list.rows[last].album) {
      var ps, chosen := StepChoice(list, live, Some(last), row);
      var album := OtherAlbumInFrontier(list.rows, live, last, i);
      hide Step, InFrontier, Admitted;
      var k :| 0 <= k < |ps| && ps[k].artist == list.rows[i].artist && ps[k].album == album;
      hide IsFrontier;
      AdmittedReachAlbumFilter(list, live, last, ps, ps[k]);
      EligibleAlbums(list, live, Some(last), ps, ps[k], chosen);
    }
  }

  /** Where album spacing is certain, every artist that still has rows is admitted. */
  lemma FamiliesAdmitAll(rows: seq<Row>, live: set<nat>, last: nat, i: nat)
    requires SoloArtist(rows) || ShortCompilation(rows)
    requires live <= AllRows(rows) && last < |rows| && last !in live && i in live
    ensures Admitted(rows, live, last, rows[i].artist)
  {
    if SoloArtist(rows) {
      assert Outrankers(rows, live, OfArtist(rows[i].artist)) == {};
    } else {
      CompilationInFrontier(rows, live, i);
      CompilationSafe(rows, live, i);
      assert last < i || i < last;
    }
  }

  /** Over a whole sequence: neighbours share an album exactly when every admitted row still to come is of it. */
  lemma NeighboursShareAlbumExactly(list: Playlist, order: seq<nat>, k: nat)
    requires IsSequence(list, order) && 0 < k < |order|
    ensures order[k - 1] < |list.rows| && order[k] < |list.rows|
    ensures list.rows[order[k]].album == list.rows[order[k - 1]].album
      <==> forall i | i in Remaining(list, order[..k]) && i < |list.rows|
                      && Admitted(list.rows, Remaining(list, order[..k]), order[k - 1], list.rows[i].artist) ::
             list.rows[i].album == list.rows[order[k - 1]].album
  {
    hide Step, Admitted;
    StepAt(list, order, k);
    StepAt(list, order, k - 1);
    StepRepeatsAlbumExactly(list, Remaining(list, order[..k]), order[k - 1], order[k]);
  }
}
