/** The proposals of all candidate artists, in the order in which the heaps give them up. */
module SequencerFrontier {
  import opened Collections
  import opened PriorityHeap
  import opened PlaylistGroups
  import opened SequencingPolicy
  import opened SequencerState
  import opened SequencerProposals

  lemma OtherArtistUntouched(ar: ArtistState, other: ArtistState)
    requires ar.albums != other.albums
    ensures other.albums !in ArtistFootprint(ar)
  {
    HeapIsNoAlbum(other.albums, ar.albums.values);
  }

  /** Ask every candidate in turn; each call leaves all artists as they were but for the order inside one heap. */
  method CollectProposals(list: Playlist, candidates: seq<ArtistState>, previous: Option<nat>,
                          ghost whole: seq<ArtistState>, ghost live: set<nat>)
    returns (proposals: seq<TrackProposal>, ghost parts: seq<seq<Proposal>>)
    requires Separate(whole) && forall ar | ar in candidates :: ar in whole
    requires forall ar | ar in whole :: LiveArtistOk(ar, list.rows, live)
    modifies set ar | ar in candidates :: ar.albums`values
    ensures forall ar | ar in whole :: LiveArtistOk(ar, list.rows, live)
    ensures forall ar | ar in whole :: multiset(ar.albums.values) == old(multiset(ar.albums.values))
    ensures |parts| == |candidates| && Views(proposals) == Flatten(parts)
    ensures forall c | 0 <= c < |candidates| :: IsArtistFrontier(list, live, previous, candidates[c].key, parts[c])
    ensures |candidates| > 0 ==> |proposals| > 0 && proposals[0].artist == candidates[0]
    ensures forall p | p in proposals :: p.artist in candidates && p.album in multiset(p.artist.albums.values) && p.row in p.album.rows
  {
    hide IsArtistFrontier, LiveArtistOk, Separate, Views, Flatten;
    NoViews();
    proposals, parts := [], [];
    for c := 0 to |candidates|
      invariant forall ar | ar in whole :: LiveArtistOk(ar, list.rows, live)
      invariant forall ar | ar in whole :: multiset(ar.albums.values) == old(multiset(ar.albums.values))
      invariant |parts| == c && Views(proposals) == Flatten(parts)
      invariant forall d | 0 <= d < c :: IsArtistFrontier(list, live, previous, candidates[d].key, parts[d])
      invariant c > 0 ==> |proposals| > 0 && proposals[0].artist == candidates[0]
      invariant forall p | p in proposals :: p.artist in candidates && p.album in multiset(p.artist.albums.values) && p.row in p.album.rows
    {
      assert candidates[c] in candidates;
      var own := ProposalsOfCandidate(list, candidates[c], previous, whole, live);
      AppendViews(proposals, own, parts);
      assert own[0] in own;
      parts := parts + [Views(own)];
      proposals := proposals + own;
    }
  }

  lemma NoViews()
    ensures Views([]) == Flatten([]) == []
  {
  }

  lemma AppendViews(proposals: seq<TrackProposal>, own: seq<TrackProposal>, parts: seq<seq<Proposal>>)
    requires Views(proposals) == Flatten(parts)
    ensures Views(proposals + own) == Flatten(parts + [Views(own)])
  {
    assert (parts + [Views(own)])[..|parts|] == parts;
    assert Views(proposals + own) == Views(proposals) + Views(own);
  }

  /** One candidate's proposals, with what stays true of all the others. */
  method ProposalsOfCandidate(list: Playlist, artist: ArtistState, previous: Option<nat>,
                              ghost whole: seq<ArtistState>, ghost live: set<nat>)
    returns (own: seq<TrackProposal>)
    requires artist in whole && Separate(whole)
    requires forall ar | ar in whole :: LiveArtistOk(ar, list.rows, live)
    modifies artist.albums`values
    ensures forall ar | ar in whole :: LiveArtistOk(ar, list.rows, live)
    ensures forall ar | ar in whole :: multiset(ar.albums.values) == old(multiset(ar.albums.values))
    ensures IsArtistFrontier(list, live, previous, artist.key, Views(own))
    ensures |own| > 0
    ensures forall p | p in own :: p.artist == artist && p.album in multiset(artist.albums.values) && p.row in p.album.rows
  {
    hide IsArtistFrontier, LiveArtistOk;
    forall ar | ar in whole && ar != artist
      ensures artist.albums !in ArtistFootprint(ar)
    {
      OtherArtistUntouched(ar, artist);
    }
    own := TrackProposalsForArtist(list, artist, previous, live);
  }

  // ---------- the whole frontier ----------

  function ArtistKeys(artists: seq<ArtistState>): (r: seq<Key>)
    ensures |r| == |artists| && forall k | 0 <= k < |artists| :: r[k] == artists[k].key
  {
    seq(|artists|, k requires 0 <= k < |artists| => artists[k].key)
  }

  function ArtistGroups(keys: seq<Key>): (r: seq<Group>)
    ensures |r| == |keys| && forall k | 0 <= k < |keys| :: r[k] == OfArtist(keys[k])
  {
    seq(|keys|, k requires 0 <= k < |keys| => OfArtist(keys[k]))
  }

  /** keys are the leading artists, and so exactly those that fewer than 16 artists outrank. */
  ghost predicate AreCandidates(rows: seq<Row>, live: set<nat>, keys: seq<Key>) {
    && Leading(rows, live, ARTISTS, keys, ARTIST_LOOKAHEAD)
    && (forall a :: Count(rows, live, OfArtist(a)) > 0 ==> (|Outrankers(rows, live, OfArtist(a))| < ARTIST_LOOKAHEAD <==> a in keys))
  }

  ghost predicate PartOfFrontier(list: Playlist, live: set<nat>, previous: Option<nat>, keys: seq<Key>, ps: seq<Proposal>) {
    && (forall k | 0 <= k < |ps| ::
          ps[k].artist in keys && InFrontier(list.rows, live, ps[k].artist, ps[k].album) && IsProposal(list, live, previous, ps[k]))
    && (forall j, k | 0 <= j < k < |ps| :: Precedes(list.rows, live, ps[j], ps[k]))
    && (forall a, b | a in keys && InFrontier(list.rows, live, a, b) :: exists k :: 0 <= k < |ps| && ps[k].artist == a && ps[k].album == b)
  }

  lemma ExtendFrontier(list: Playlist, live: set<nat>, previous: Option<nat>, keys: seq<Key>, ps: seq<Proposal>, a: Key, own: seq<Proposal>)
    requires PartOfFrontier(list, live, previous, keys, ps)
    requires IsArtistFrontier(list, live, previous, a, own)
    requires |Outrankers(list.rows, live, OfArtist(a))| < ARTIST_LOOKAHEAD
    requires forall x | x in keys :: x != a && Higher(GroupRank(list.rows, live, OfArtist(x)), GroupRank(list.rows, live, OfArtist(a)))
    ensures PartOfFrontier(list, live, previous, keys + [a], ps + own)
  {
    hide GroupRank, IsProposal, Outrankers, Count;
    var all := ps + own;
    forall x, b | x in keys + [a] && InFrontier(list.rows, live, x, b)
      ensures exists k :: 0 <= k < |all| && all[k].artist == x && all[k].album == b
    {
      if x in keys {
        var k :| 0 <= k < |ps| && ps[k].artist == x && ps[k].album == b;
        assert all[k] == ps[k];
      } else {
        var k :| 0 <= k < |own| && own[k].album == b;
        assert all[|ps| + k] == own[k];
      }
    }
    forall j, k | 0 <= j < k < |all| ensures Precedes(list.rows, live, all[j], all[k]) {
      if k < |ps| {
        assert all[j] == ps[j] && all[k] == ps[k];
      } else if j < |ps| {
        assert all[j] == ps[j] && all[k] == own[k - |ps|];
      } else {
        assert all[j] == own[j - |ps|] && all[k] == own[k - |ps|];
      }
    }
  }

  ghost predicate DescendingArtists(rows: seq<Row>, live: set<nat>, keys: seq<Key>) {
    && (forall i, j | 0 <= i < j < |keys| :: Higher(GroupRank(rows, live, OfArtist(keys[i])), GroupRank(rows, live, OfArtist(keys[j]))))
    && (forall i | 0 <= i < |keys| :: |Outrankers(rows, live, OfArtist(keys[i]))| < ARTIST_LOOKAHEAD)
  }

  lemma {:induction false} FrontierGrows(list: Playlist, live: set<nat>, previous: Option<nat>, keys: seq<Key>, parts: seq<seq<Proposal>>)
    requires DescendingArtists(list.rows, live, keys) && |parts| == |keys|
    requires forall c | 0 <= c < |keys| :: IsArtistFrontier(list, live, previous, keys[c], parts[c])
    ensures PartOfFrontier(list, live, previous, keys, Flatten(parts))
  {
    hide IsArtistFrontier, IsProposal, Outrankers, GroupRank, InFrontier, Precedes;
    if |keys| > 0 {
      var n := |keys| - 1;
      FrontierGrows(list, live, previous, keys[..n], parts[..n]);
      hide PartOfFrontier;
      assert keys == keys[..n] + [keys[n]];
      ExtendFrontier(list, live, previous, keys[..n], Flatten(parts[..n]), keys[n], parts[n]);
    }
  }

  /** The proposals of the candidates, one after the other, are the frontier the policy speaks of. */
  lemma PartsMakeFrontier(list: Playlist, live: set<nat>, previous: Option<nat>, keys: seq<Key>, parts: seq<seq<Proposal>>)
    requires AreCandidates(list.rows, live, keys) && |parts| == |keys|
    requires forall c | 0 <= c < |keys| :: IsArtistFrontier(list, live, previous, keys[c], parts[c])
    ensures IsFrontier(list, live, previous, Flatten(parts))
  {
    hide IsArtistFrontier, IsProposal, Outrankers, Flatten, GroupRank, Precedes;
    forall i | 0 <= i < |keys| ensures Count(list.rows, live, OfArtist(keys[i])) > 0 {
      assert keys[i] in keys && GroupFor(ARTISTS, keys[i]) == OfArtist(keys[i]);
    }
    assert forall k :: GroupFor(ARTISTS, k) == OfArtist(k);
    FrontierGrows(list, live, previous, keys, parts);
    forall a, b | InFrontier(list.rows, live, a, b) ensures a in keys {
      AlbumWithinArtist(list.rows, live, a, b);
    }
  }

  lemma AlbumWithinArtist(rows: seq<Row>, live: set<nat>, a: Key, b: Key)
    ensures Count(rows, live, OfArtistAlbum(a, b)) <= Count(rows, live, OfArtist(a))
  {
    SubsetCardinality(Members(rows, live, OfArtistAlbum(a, b)), Members(rows, live, OfArtist(a)));
  }

  // ---------- popping the candidates ----------

  lemma ArtistsOfParts(whole: seq<ArtistState>, popped: seq<ArtistState>, rest: seq<ArtistState>, a: Key)
    requires multiset(whole) == multiset(rest) + multiset(popped)
    ensures a in ArtistKeys(popped) || a in ArtistKeys(rest) <==> exists ar :: ar in whole && ar.key == a
  {
    assert forall ar :: ar in whole <==> ar in multiset(whole);
    assert forall ar :: ar in rest <==> ar in multiset(rest);
    assert forall ar :: ar in popped <==> ar in multiset(popped);
    if ar :| ar in whole && ar.key == a {
      if ar in popped {
        var k :| 0 <= k < |popped| && popped[k] == ar;
        assert ArtistKeys(popped)[k] == a;
      } else {
        var k :| 0 <= k < |rest| && rest[k] == ar;
        assert ArtistKeys(rest)[k] == a;
      }
    }
    if a in ArtistKeys(popped) {
      var k :| 0 <= k < |popped| && ArtistKeys(popped)[k] == a;
      assert popped[k] in whole;
    }
    if a in ArtistKeys(rest) {
      var k :| 0 <= k < |rest| && ArtistKeys(rest)[k] == a;
      assert rest[k] in whole;
    }
  }

  lemma LiveArtistsPopped(whole: seq<ArtistState>, popped: seq<ArtistState>, rest: seq<ArtistState>, rows: seq<Row>, live: set<nat>)
    requires OnePerArtist(whole, rows, live)
    requires forall ar | ar in whole :: Count(rows, live, OfArtist(ar.key)) > 0
    requires multiset(whole) == multiset(rest) + multiset(popped)
    ensures forall a :: a in ArtistKeys(popped) || a in ArtistKeys(rest) <==> Count(rows, live, OfArtist(a)) > 0
  {
    forall a ensures a in ArtistKeys(popped) || a in ArtistKeys(rest) <==> Count(rows, live, OfArtist(a)) > 0 {
      ArtistsOfParts(whole, popped, rest, a);
    }
  }

  lemma PoppedOutrankers(popped: seq<Key>, rest: seq<Key>, rows: seq<Row>, live: set<nat>)
    requires forall a :: a in popped || a in rest <==> Count(rows, live, OfArtist(a)) > 0
    requires forall i, j | 0 <= i < j < |popped| :: Higher(GroupRank(rows, live, OfArtist(popped[i])), GroupRank(rows, live, OfArtist(popped[j])))
    requires forall a, b | a in popped && b in rest :: Higher(GroupRank(rows, live, OfArtist(a)), GroupRank(rows, live, OfArtist(b)))
    requires |popped| <= ARTIST_LOOKAHEAD && (|popped| == ARTIST_LOOKAHEAD || rest == [])
    ensures AreCandidates(rows, live, popped)
  {
    hide GroupRank, Peers, Count, Outrankers;
    var top, others := ArtistGroups(popped), Elements(ArtistGroups(rest));
    forall h: Group
      ensures h in top || h in others <==> h.OfArtist? && Count(rows, live, h) > 0
    {
      if h.OfArtist? {
        GroupsOfKeys(popped, h.artist);
        GroupsOfKeys(rest, h.artist);
      }
    }
    forall g | g in top || g in others
      ensures Peers(rows, live, g) == Elements(top) + others
    {
      forall h: Group ensures h in Peers(rows, live, g) <==> h in top || h in others {
        PeersByCount(rows, live, g, h);
      }
    }
    PoppedAreFrontier(rows, live, top, others, ARTIST_LOOKAHEAD);
    forall a ensures OfArtist(a) in top <==> a in popped {
      GroupsOfKeys(popped, a);
    }
    forall a ensures OfArtist(a) in others <==> a in rest {
      GroupsOfKeys(rest, a);
    }
    assert forall k :: GroupFor(ARTISTS, k) == OfArtist(k);
  }

  lemma PoppedArtistsAreCandidates(whole: seq<ArtistState>, popped: seq<ArtistState>, rest: seq<ArtistState>,
                                   rows: seq<Row>, live: set<nat>)
    requires OnePerArtist(whole, rows, live)
    requires forall ar | ar in whole :: Count(rows, live, OfArtist(ar.key)) > 0
    requires TakenFromTop(whole, popped, rest, ArtistRanks(whole, rows, live))
    requires |popped| <= ARTIST_LOOKAHEAD && (|popped| == ARTIST_LOOKAHEAD || rest == [])
    ensures AreCandidates(rows, live, ArtistKeys(popped))
  {
    hide GroupRank, Count, Outrankers;
    LiveArtistsPopped(whole, popped, rest, rows, live);
    PoppedOutrankers(ArtistKeys(popped), ArtistKeys(rest), rows, live);
  }

  lemma GroupsOfKeys(keys: seq<Key>, a: Key)
    ensures OfArtist(a) in ArtistGroups(keys) <==> a in keys
  {
    if a in keys {
      var k :| 0 <= k < |keys| && keys[k] == a;
      assert ArtistGroups(keys)[k] == OfArtist(a);
    }
  }

  /** Every candidate's proposals, best artist first: exactly the frontier. */
  method CollectFrontier(list: Playlist, candidates: seq<ArtistState>, previous: Option<nat>,
                         ghost whole: seq<ArtistState>, ghost live: set<nat>)
    returns (proposals: seq<TrackProposal>)
    requires |candidates| > 0 && AreCandidates(list.rows, live, ArtistKeys(candidates))
    requires Separate(whole) && forall ar | ar in candidates :: ar in whole
    requires forall ar | ar in whole :: LiveArtistOk(ar, list.rows, live)
    modifies set ar | ar in candidates :: ar.albums`values
    ensures forall ar | ar in whole :: LiveArtistOk(ar, list.rows, live)
    ensures forall ar | ar in whole :: multiset(ar.albums.values) == old(multiset(ar.albums.values))
    ensures |proposals| > 0 && proposals[0].artist == candidates[0]
    ensures IsFrontier(list, live, previous, Views(proposals))
    ensures forall p | p in proposals :: p.artist in candidates && p.album in multiset(p.artist.albums.values) && p.row in p.album.rows
  {
    hide IsArtistFrontier, LiveArtistOk, Separate, Views, Flatten, AreCandidates, IsFrontier;
    ghost var parts;
    proposals, parts := CollectProposals(list, candidates, previous, whole, live);
    PartsMakeFrontier(list, live, previous, ArtistKeys(candidates), parts);
  }
}
