/** A playlist that the sequencer orders with two neighbours of one album although its frontier offers a row that differs in
    artist and album. */
module AvoidableNeighbours {
  import opened Collections
  import opened PriorityHeap
  import opened PlaylistGroups
  import opened SequencingPolicy
  import opened SequencingTheorems
  import opened AlbumSpacing
  import opened AlbumAdjacency

  /** Three artists and two albums. */
  datatype Names = Names(a: Key, b: Key, c: Key, x: Key, y: Key)

  ghost predicate Different(n: Names) {
    n.a != n.b && n.a != n.c && n.b != n.c && n.x != n.y
  }

  /** Three rows of a and one of c on album x, two rows of b on album y. */
  function Rows(n: Names): seq<Row> {
    [Row(n.a, n.x), Row(n.a, n.x), Row(n.a, n.x), Row(n.b, n.y), Row(n.b, n.y), Row(n.c, n.x)]
  }

  lemma SixRows(n: Names)
    ensures |Rows(n)| == 6
  {
  }

  /** The rows of a share one genre, all others another; nothing else is known about the tracks. */
  function Transition(previous: Option<nat>, next: nat): TransitionScore {
    if previous.None? then TransitionScore(0.5, 0.0)
    else if (previous.value < 3) == (next < 3) then TransitionScore(1.0, 0.25)
    else TransitionScore(0.0, 0.25)
  }

  function Instance(n: Names): Playlist {
    Playlist(Rows(n), Transition, Smooth)
  }

  // ---------- counting ----------

  /** How many rows each artist has left. */
  ghost predicate Left(n: Names, live: set<nat>, a: nat, b: nat, c: nat) {
    && live <= AllRows(Rows(n)) && |live| == a + b + c
    && Count(Rows(n), live, OfArtist(n.a)) == a && Count(Rows(n), live, OfArtist(n.b)) == b && Count(Rows(n), live, OfArtist(n.c)) == c
    && Count(Rows(n), live, OfAlbum(n.x)) == a + c && Count(Rows(n), live, OfAlbum(n.y)) == b
  }

  lemma AllLeft(n: Names)
    requires Different(n)
    ensures Left(n, AllRows(Rows(n)), 3, 2, 1)
  {
    var rows := Rows(n);
    var live := AllRows(rows);
    AllRowsCardinality(rows);
    assert live == {0, 1, 2, 3, 4, 5};
    assert Members(rows, live, OfArtist(n.a)) == {0, 1, 2};
    assert Members(rows, live, OfArtist(n.b)) == {3, 4};
    assert Members(rows, live, OfArtist(n.c)) == {5};
    assert Members(rows, live, OfAlbum(n.x)) == {0, 1, 2, 5};
    assert Members(rows, live, OfAlbum(n.y)) == {3, 4};
  }

  lemma PlaceOne(n: Names, live: set<nat>, a: nat, b: nat, c: nat, row: nat)
    requires Different(n) && Left(n, live, a, b, c) && row in live
    ensures row < |Rows(n)|
    ensures Rows(n)[row] == Row(n.a, n.x) ==> a > 0 && Left(n, live - {row}, a - 1, b, c)
    ensures Rows(n)[row] == Row(n.b, n.y) ==> b > 0 && Left(n, live - {row}, a, b - 1, c)
    ensures Rows(n)[row] == Row(n.c, n.x) ==> c > 0 && Left(n, live - {row}, a, b, c - 1)
  {
    hide Count, Rows;
    CountAfter(Rows(n), live, OfArtist(n.a), row);
    CountAfter(Rows(n), live, OfArtist(n.b), row);
    CountAfter(Rows(n), live, OfArtist(n.c), row);
    CountAfter(Rows(n), live, OfAlbum(n.x), row);
    CountAfter(Rows(n), live, OfAlbum(n.y), row);
    assert |live - {row}| == |live| - 1;
  }

  lemma RowIsNamed(n: Names, i: nat)
    requires i < |Rows(n)|
    ensures Rows(n)[i] == Row(n.a, n.x) || Rows(n)[i] == Row(n.b, n.y) || Rows(n)[i] == Row(n.c, n.x)
    ensures Different(n) ==> (Rows(n)[i].artist == n.a <==> i < 3)
  {
  }

  /** Each artist has one album. */
  lemma AlbumCount(n: Names, live: set<nat>, i: nat)
    requires Different(n) && i < |Rows(n)|
    ensures Count(Rows(n), live, OfArtistAlbum(Rows(n)[i].artist, Rows(n)[i].album)) == Count(Rows(n), live, OfArtist(Rows(n)[i].artist))
  {
    RowIsNamed(n, i);
    forall j: nat | j < |Rows(n)| ensures Rows(n)[j].artist == Rows(n)[i].artist ==> Rows(n)[j].album == Rows(n)[i].album {
      RowIsNamed(n, j);
    }
    hide Rows;
    assert Members(Rows(n), live, OfArtistAlbum(Rows(n)[i].artist, Rows(n)[i].album)) == Members(Rows(n), live, OfArtist(Rows(n)[i].artist));
  }

  lemma ArtistPeers(n: Names, live: set<nat>, h: Group, g: Group)
    requires g.OfArtist? && h in Peers(Rows(n), live, g)
    ensures h == OfArtist(n.a) || h == OfArtist(n.b) || h == OfArtist(n.c)
  {
    var j :| j in live && j < |Rows(n)| && Peer(Rows(n)[j], g) == h;
    RowIsNamed(n, j);
  }

  lemma AlbumPeers(n: Names, live: set<nat>, h: Group, g: Group)
    requires g.OfAlbum? && h in Peers(Rows(n), live, g)
    ensures h == OfAlbum(n.x) || h == OfAlbum(n.y)
  {
    var j :| j in live && j < |Rows(n)| && Peer(Rows(n)[j], g) == h;
    RowIsNamed(n, j);
  }

  /** The artist guard, by the numbers. */
  lemma ArtistGuard(n: Names, live: set<nat>, a: nat, b: nat, c: nat)
    requires Different(n) && Left(n, live, a, b, c) && a + b + c > 0
    ensures var left := a + b + c - 1;
      && (SafeChoice(Rows(n), live, OfArtist(n.a)) <==> a - 1 <= left / 2 && b <= (left + 1) / 2 && c <= (left + 1) / 2)
      && (SafeChoice(Rows(n), live, OfArtist(n.b)) <==> b - 1 <= left / 2 && a <= (left + 1) / 2 && c <= (left + 1) / 2)
      && (SafeChoice(Rows(n), live, OfArtist(n.c)) <==> c - 1 <= left / 2 && a <= (left + 1) / 2 && b <= (left + 1) / 2)
  {
    hide Count, Peers, Rows;
    forall g: Group, h: Group | g.OfArtist? && h in Peers(Rows(n), live, g) ensures h == OfArtist(n.a) || h == OfArtist(n.b) || h == OfArtist(n.c) {
      ArtistPeers(n, live, h, g);
    }
    forall g: Group, h: Group | g.OfArtist? ensures h in Peers(Rows(n), live, g) <==> SameKind(g, h) && Count(Rows(n), live, h) > 0 {
      PeersByCount(Rows(n), live, g, h);
    }
  }

  lemma NoSafeAlbum(n: Names, live: set<nat>, a: nat, b: nat, c: nat)
    requires Different(n) && Left(n, live, a, b, c) && a + b + c > 0
    requires a + c > (a + b + c + 1) / 2
    ensures !SafeChoice(Rows(n), live, OfAlbum(n.x)) && !SafeChoice(Rows(n), live, OfAlbum(n.y))
  {
    PeersByCount(Rows(n), live, OfAlbum(n.y), OfAlbum(n.x));
    hide Count, Peers, Rows;
    assert Count(Rows(n), live, OfAlbum(n.x)) > (|live| - 1 + 1) / 2;
  }

  /** All three artists are within the horizon. */
  lemma WithinHorizon(n: Names, live: set<nat>, g: Group)
    requires g.OfArtist?
    ensures |Outrankers(Rows(n), live, g)| < ARTIST_LOOKAHEAD
  {
    var all := {OfArtist(n.a), OfArtist(n.b), OfArtist(n.c)};
    forall h | h in Outrankers(Rows(n), live, g) ensures h in all {
      ArtistPeers(n, live, h, g);
    }
    hide Rows;
    SubsetCardinality(Outrankers(Rows(n), live, g), all);
  }

  /** So every live row's album is in the frontier. */
  lemma RowInFrontier(n: Names, live: set<nat>, i: nat)
    requires Different(n) && i in live && i < |Rows(n)|
    ensures InFrontier(Rows(n), live, Rows(n)[i].artist, Rows(n)[i].album)
  {
    var rows := Rows(n);
    var g := OfArtistAlbum(rows[i].artist, rows[i].album);
    WithinHorizon(n, live, OfArtist(rows[i].artist));
    CountPositive(rows, live, g);
    forall h | h in Outrankers(rows, live, g) ensures false {
      var j :| j in live && j < |rows| && Comparable(rows[j], g) && Peer(rows[j], g) == h;
      RowIsNamed(n, i);
      RowIsNamed(n, j);
    }
    assert Outrankers(rows, live, g) == {};
  }

  // ---------- scores ----------

  lemma HigherScoreWins(list: Playlist, live: set<nat>, p: Proposal, q: Proposal, maximum: nat)
    requires ProposalScore(list, live, p, maximum) > ProposalScore(list, live, q, maximum) + SCORE_EPSILON
    ensures BetterProposal(list, live, p, q, maximum) && !BetterProposal(list, live, q, p, maximum)
  {
    hide ProposalScore, Count;
  }

  lemma BestOneMore(list: Playlist, live: set<nat>, before: seq<Proposal>, last: Proposal, maximum: nat)
    requires |before| > 0
    ensures BestProposal(list, live, before + [last], maximum)
      == var best := BestProposal(list, live, before, maximum); if BetterProposal(list, live, last, best, maximum) then last else best
  {
    hide BetterProposal;
    assert (before + [last])[..|before|] == before;
  }

  /** A proposal's artist wins when it beats every proposal by another artist. */
  lemma {:induction false} ArtistWins(list: Playlist, live: set<nat>, ps: seq<Proposal>, maximum: nat, k: Key)
    requires exists p :: p in ps && p.artist == k
    requires forall p, q | p in ps && q in ps && p.artist == k && q.artist != k ::
      ProposalScore(list, live, p, maximum) > ProposalScore(list, live, q, maximum) + SCORE_EPSILON
    ensures |ps| > 0 && BestProposal(list, live, ps, maximum).artist == k
  {
    var before, last := ps[..|ps| - 1], ps[|ps| - 1];
    assert ps == before + [last];
    if |before| > 0 {
      BestOneMore(list, live, before, last, maximum);
      hide ProposalScore, BetterProposal, BestProposal;
      var best := BestProposal(list, live, before, maximum);
      assert best in before;
      if p :| p in before && p.artist == k {
        ArtistWins(list, live, before, maximum, k);
        if last.artist != k { HigherScoreWins(list, live, best, last, maximum); }
      } else {
        HigherScoreWins(list, live, last, best, maximum);
      }
    }
  }

  function Number(n: Names, artist: Key, a: nat, b: nat, c: nat): nat {
    if artist == n.a then a else if artist == n.b then b else c
  }

  function Gain(value: real, count: nat, maximum: nat): real {
    Score(Smooth, value, count, count, maximum)
  }

  /** A frontier proposal belongs to a live row, and its score depends on its artist's count alone. */
  lemma ProposalNumbers(n: Names, live: set<nat>, previous: Option<nat>, a: nat, b: nat, c: nat, p: Proposal, maximum: nat)
    requires Different(n) && Left(n, live, a, b, c) && IsProposal(Instance(n), live, previous, p)
    ensures p.row in live && p.row < |Rows(n)| && Rows(n)[p.row] == Row(p.artist, p.album)
    ensures p.artist == n.a || p.artist == n.b || p.artist == n.c
    ensures Number(n, p.artist, a, b, c) == Count(Rows(n), live, OfArtist(p.artist)) > 0
    ensures ProposalScore(Instance(n), live, p, maximum)
      == Gain(Transition(previous, p.row).value, Number(n, p.artist, a, b, c), maximum)
    ensures p.artist == n.a <==> p.row < 3
  {
    ProposalRow(Instance(n), live, previous, p);
    RowIsNamed(n, p.row);
    AlbumCount(n, live, p.row);
    CountPositive(Rows(n), live, OfArtist(p.artist));
    hide Count, Rows, Score;
  }

  lemma Whole(m: nat)
    requires m > 0
    ensures m as real / m as real == 1.0
  {
  }

  lemma GainIs(value: real, count: nat, maximum: nat)
    requires count > 0 && 1 <= maximum <= 3
    ensures Gain(value, count, maximum) == value * 0.68 + (count as real / maximum as real) * 0.24 + 0.08
  {
    Whole(count);
  }

  /** At equal transitions the larger artist wins; a transition of one beats a larger artist at a transition of zero. */
  lemma GainsCompare(maximum: nat)
    requires 1 <= maximum <= 3
    ensures Gain(0.5, 3, maximum) > Gain(0.5, 2, maximum) + SCORE_EPSILON && Gain(0.5, 3, maximum) > Gain(0.5, 1, maximum) + SCORE_EPSILON
    ensures Gain(1.0, 1, maximum) > Gain(0.0, 2, maximum) + SCORE_EPSILON
  {
    GainIs(0.5, 3, maximum);
    GainIs(0.5, 2, maximum);
    GainIs(0.5, 1, maximum);
    GainIs(1.0, 1, maximum);
    GainIs(0.0, 2, maximum);
    if maximum == 1 {
    } else if maximum == 2 {
    } else {
      assert maximum == 3;
    }
  }

  lemma FrontierNumbers(n: Names, live: set<nat>, previous: Option<nat>, a: nat, b: nat, c: nat, ps: seq<Proposal>, maximum: nat)
    requires Different(n) && Left(n, live, a, b, c) && a <= 3 && b <= 3 && c <= 3
    requires |ps| > 0 && IsFrontier(Instance(n), live, previous, ps) && maximum == Count(Rows(n), live, OfArtist(ps[0].artist))
    ensures 1 <= maximum <= 3
    ensures forall p | p in ps :: IsProposal(Instance(n), live, previous, p)
  {
    hide InFrontier, Precedes, Rows, IsProposal;
    assert ps[0] in ps;
    ProposalNumbers(n, live, previous, a, b, c, ps[0], maximum);
  }

  // ---------- the run ----------

  /** The frontier holds every live artist, no album is safe, and scores depend on transition and count. */
  ghost predicate Surveyed(n: Names, live: set<nat>, previous: Option<nat>, a: nat, b: nat, c: nat, p: Proposal, maximum: nat) {
    && (p.artist == n.a || p.artist == n.b || p.artist == n.c)
    && (p.artist == n.a <==> p.row < 3)
    && !SafeAlbum(Instance(n), live)(p)
    && ProposalScore(Instance(n), live, p, maximum)
       == Gain(Transition(previous, p.row).value, Number(n, p.artist, a, b, c), maximum)
  }

  lemma Survey(n: Names, live: set<nat>, previous: Option<nat>, a: nat, b: nat, c: nat, ps: seq<Proposal>, maximum: nat)
    requires Different(n) && Left(n, live, a, b, c) && a + c > (a + b + c + 1) / 2 && a <= 3 && b <= 3 && c <= 3
    requires |ps| > 0 && IsFrontier(Instance(n), live, previous, ps) && maximum == Count(Rows(n), live, OfArtist(ps[0].artist))
    ensures 1 <= maximum <= 3
    ensures forall p | p in ps :: Surveyed(n, live, previous, a, b, c, p, maximum)
  {
    FrontierNumbers(n, live, previous, a, b, c, ps, maximum);
    NoSafeAlbum(n, live, a, b, c);
    hide IsFrontier, IsProposal, SafeChoice, Gain, ProposalScore, Left, Rows, Count;
    forall p | p in ps ensures Surveyed(n, live, previous, a, b, c, p, maximum) {
      ProposalNumbers(n, live, previous, a, b, c, p, maximum);
      RowIsNamed(n, p.row);
    }
  }

  lemma ProposalOfRow(n: Names, live: set<nat>, previous: Option<nat>, ps: seq<Proposal>, i: nat) returns (p: Proposal)
    requires Different(n) && i in live && i < |Rows(n)| && IsFrontier(Instance(n), live, previous, ps)
    ensures p in ps && p.artist == Rows(n)[i].artist && p.album == Rows(n)[i].album
  {
    RowInFrontier(n, live, i);
    hide InFrontier, Rows;
    var k :| 0 <= k < |ps| && ps[k].artist == Rows(n)[i].artist && ps[k].album == Rows(n)[i].album;
    p := ps[k];
  }

  /** Nothing was placed yet, and no album is safe: a safe artist stays eligible. */
  lemma EligibleAtFirst(n: Names, live: set<nat>, ps: seq<Proposal>, p: Proposal)
    requires p in ps && SafeChoice(Rows(n), live, OfArtist(p.artist))
    requires forall q | q in ps :: !SafeAlbum(Instance(n), live)(q)
    ensures p in Eligible(Instance(n), live, None, ps)
  {
    hide SafeChoice, Rows;
    assert SafeArtist(Instance(n), live)(p);
  }

  /** No album is safe at the start, so the artist with the most rows goes first. */
  lemma FirstIsOfA(n: Names, row: nat)
    requires Different(n) && Step(Instance(n), AllRows(Rows(n)), None, row)
    ensures row < |Rows(n)| && Rows(n)[row] == Row(n.a, n.x)
  {
    hide Step, IsFrontier, SafeChoice, Gain, ProposalScore, Left, Count, Eligible;
    var live := AllRows(Rows(n));
    AllLeft(n);
    var ps, chosen, maximum := StepDecision(Instance(n), live, None, row);
    Survey(n, live, None, 3, 2, 1, ps, maximum);
    var p := ProposalOfRow(n, live, None, ps, 0);
    RowIsNamed(n, row);
    ArtistGuard(n, live, 3, 2, 1);
    hide Rows;
    EligibleAtFirst(n, live, ps, p);
    GainsCompare(maximum);
    FirstScores(n, live, Eligible(Instance(n), live, None, ps), maximum);
    ArtistWins(Instance(n), live, Eligible(Instance(n), live, None, ps), maximum, n.a);
  }

  lemma FirstScores(n: Names, live: set<nat>, e: seq<Proposal>, maximum: nat)
    requires Different(n) && 1 <= maximum <= 3 && forall p | p in e :: Surveyed(n, live, None, 3, 2, 1, p, maximum)
    ensures forall p, q | p in e && q in e && p.artist == n.a && q.artist != n.a ::
      ProposalScore(Instance(n), live, p, maximum) > ProposalScore(Instance(n), live, q, maximum) + SCORE_EPSILON
  {
    hide Gain, ProposalScore, SafeChoice;
    GainsCompare(maximum);
  }

  lemma ThirdScores(n: Names, live: set<nat>, last: nat, e: seq<Proposal>, maximum: nat)
    requires Different(n) && 3 <= last && 1 <= maximum <= 3
    requires forall p | p in e :: Surveyed(n, live, Some(last), 2, 1, 1, p, maximum) && p.artist != n.b
    ensures forall p, q | p in e && q in e && p.artist == n.c && q.artist != n.c ::
      ProposalScore(Instance(n), live, p, maximum) > ProposalScore(Instance(n), live, q, maximum) + SCORE_EPSILON
  {
    hide Gain, ProposalScore, SafeChoice;
    GainsCompare(maximum);
  }

  lemma LiveRowOf(n: Names, live: set<nat>, artist: Key) returns (i: nat)
    requires Count(Rows(n), live, OfArtist(artist)) > 0
    ensures i in live && i < |Rows(n)| && Rows(n)[i].artist == artist
  {
    CountPositive(Rows(n), live, OfArtist(artist));
    i :| i in live && i < |Rows(n)| && Rows(n)[i].artist == artist;
  }

  /** Then b, the only artist with another album. */
  lemma SecondIsOfB(n: Names, live: set<nat>, last: nat, row: nat)
    requires Different(n) && Left(n, live, 2, 2, 1)
    requires last < |Rows(n)| && Rows(n)[last] == Row(n.a, n.x)
    requires Step(Instance(n), live, Some(last), row)
    ensures row in live && row < |Rows(n)| && Rows(n)[row] == Row(n.b, n.y)
  {
    hide Step, Rows, SafeChoice, Count;
    ArtistGuard(n, live, 2, 2, 1);
    WithinHorizon(n, live, OfArtist(n.b));
    StepTakesLiveRow(Instance(n), live, Some(last), row);
    StepRepeatsAlbumExactly(Instance(n), live, last, row);
    RowIsNamed(n, row);
    var i := LiveRowOf(n, live, n.b);
    RowIsNamed(n, i);
    assert Admitted(Rows(n), live, last, n.b);
  }

  /** Then c, which shares b's genre, although a has more rows. */
  lemma ThirdIsOfC(n: Names, live: set<nat>, last: nat, row: nat)
    requires Different(n) && Left(n, live, 2, 1, 1)
    requires last < |Rows(n)| && Rows(n)[last] == Row(n.b, n.y)
    requires Step(Instance(n), live, Some(last), row)
    ensures row in live && row < |Rows(n)| && Rows(n)[row] == Row(n.c, n.x)
  {
    hide Step, IsFrontier, SafeChoice, Gain, ProposalScore, Left, Count, Eligible, Rows;
    ArtistGuard(n, live, 2, 1, 1);
    var i := LeftRowOf(n, live, n.c, 2, 1, 1);
    RowIsNamed(n, i);
    RowIsNamed(n, last);
    var ps, chosen, maximum := StepDecision(Instance(n), live, Some(last), row);
    Survey(n, live, Some(last), 2, 1, 1, ps, maximum);
    var p := ProposalOfRow(n, live, Some(last), ps, i);
    RowIsNamed(n, row);
    EligibleAtThird(n, live, last, ps, p);
    var e := Eligible(Instance(n), live, Some(last), ps);
    ThirdScores(n, live, last, e, maximum);
    ArtistWins(Instance(n), live, e, maximum, n.c);
  }

  lemma LeftRowOf(n: Names, live: set<nat>, artist: Key, a: nat, b: nat, c: nat) returns (i: nat)
    requires Left(n, live, a, b, c) && a > 0 && b > 0 && c > 0 && (artist == n.a || artist == n.b || artist == n.c)
    ensures i in live && i < |Rows(n)| && Rows(n)[i].artist == artist
  {
    hide Count, Rows;
    i := LiveRowOf(n, live, artist);
  }

  /** b is out as the last artist; c is safe, on another album, and no album is safe. */
  lemma EligibleAtThird(n: Names, live: set<nat>, last: nat, ps: seq<Proposal>, p: Proposal)
    requires Different(n) && last < |Rows(n)| && Rows(n)[last] == Row(n.b, n.y)
    requires p in ps && p.artist == n.c && p.album == n.x && SafeChoice(Rows(n), live, OfArtist(n.c))
    requires forall q | q in ps :: !SafeAlbum(Instance(n), live)(q)
    ensures p in Eligible(Instance(n), live, Some(last), ps)
    ensures forall q | q in Eligible(Instance(n), live, Some(last), ps) :: q.artist != n.b
  {
    hide SafeChoice, Rows;
    var list := Instance(n);
    assert OtherArtist(n.b)(p) && SafeArtist(list, live)(p) && OtherAlbum(n.y)(p);
    var e1 := AfterArtist(list, Some(last), ps);
    assert p in e1 && forall q | q in e1 :: q.artist != n.b;
    var e2 := Prefer(e1, SafeArtist(list, live));
    assert p in e2;
    var e3 := AfterAlbum(list, Some(last), e2);
    assert p in e3;
  }

  /** Then a again, for any scores: the guard refuses b, which is on another album, because a holds two of the three rows left. */
  lemma FourthRepeatsAlbum(n: Names, list: Playlist, live: set<nat>, last: nat, row: nat)
    requires Different(n) && Left(n, live, 2, 1, 0) && list.rows == Rows(n)
    requires last < |Rows(n)| && Rows(n)[last] == Row(n.c, n.x)
    requires Step(list, live, Some(last), row)
    ensures row in live && row < |Rows(n)| && Rows(n)[row].album == n.x
  {
    hide Step, Rows, SafeChoice, Count;
    ArtistGuard(n, live, 2, 1, 0);
    StepTakesLiveRow(list, live, Some(last), row);
    StepRepeatsAlbumExactly(list, live, last, row);
    var i := LiveRowOf(n, live, n.a);
    assert SafeIsPermitted(Rows(n), live, last);
    forall j | j in live && j < |Rows(n)| && Admitted(Rows(n), live, last, Rows(n)[j].artist) ensures Rows(n)[j].album == n.x {
      RowIsNamed(n, j);
    }
  }

  /** The state after k places, when the last placed row is r. */
  ghost predicate Reached(n: Names, order: seq<nat>, k: nat, a: nat, b: nat, c: nat, r: Row)
    requires 0 < k <= |order|
  {
    Left(n, Remaining(Instance(n), order[..k]), a, b, c) && order[k - 1] < |Rows(n)| && Rows(n)[order[k - 1]] == r
  }

  lemma AfterOne(n: Names, order: seq<nat>)
    requires Different(n) && FollowsPolicy(Instance(n), order) && |order| > 1
    ensures Reached(n, order, 1, 2, 2, 1, Row(n.a, n.x))
  {
    hide FollowsPolicy, Step, Left, Rows, Remaining;
    var list := Instance(n);
    AllLeft(n);
    AllRemainAtFirst(list, order);
    assert Last(order[..0]) == None;
    StepAt(list, order, 0);
    FirstIsOfA(n, order[0]);
    PlaceOne(n, Remaining(list, order[..0]), 3, 2, 1, order[0]);
    RemainingShrinks(list, order, 0);
  }

  lemma AfterTwo(n: Names, order: seq<nat>)
    requires Different(n) && FollowsPolicy(Instance(n), order) && |order| > 2
    ensures Reached(n, order, 2, 2, 1, 1, Row(n.b, n.y))
  {
    hide FollowsPolicy, Step, Left, Rows, Remaining;
    var list := Instance(n);
    AfterOne(n, order);
    RemainingShrinks(list, order, 0);
    StepAt(list, order, 1);
    SecondIsOfB(n, Remaining(list, order[..1]), order[0], order[1]);
    PlaceOne(n, Remaining(list, order[..1]), 2, 2, 1, order[1]);
    RemainingShrinks(list, order, 1);
  }

  lemma AfterThree(n: Names, order: seq<nat>)
    requires Different(n) && FollowsPolicy(Instance(n), order) && |order| > 3
    ensures Reached(n, order, 3, 2, 1, 0, Row(n.c, n.x))
  {
    hide FollowsPolicy, Step, Left, Rows, Remaining;
    var list := Instance(n);
    AfterTwo(n, order);
    RemainingShrinks(list, order, 1);
    StepAt(list, order, 2);
    ThirdIsOfC(n, Remaining(list, order[..2]), order[1], order[2]);
    PlaceOne(n, Remaining(list, order[..2]), 2, 1, 1, order[2]);
    RemainingShrinks(list, order, 2);
  }

  lemma AtFourth(n: Names, order: seq<nat>)
    requires Different(n) && FollowsPolicy(Instance(n), order) && |order| > 3
    ensures order[3] < |Rows(n)| && Rows(n)[order[3]].album == n.x
  {
    hide FollowsPolicy, Step, Left, Rows, Remaining, InFrontier;
    var list := Instance(n);
    AfterThree(n, order);
    RemainingShrinks(list, order, 2);
    StepAt(list, order, 3);
    FourthRepeatsAlbum(n, list, Remaining(list, order[..3]), order[2], order[3]);
  }

  /** Place k repeats the album of the place before, although row i, by another artist on another album, is in the frontier there. */
  ghost predicate RepeatsThoughAvoidable(list: Playlist, order: seq<nat>, k: nat, i: nat) {
    && 0 < k < |order| && order[k - 1] < |list.rows| && order[k] < |list.rows| && i < |list.rows|
    && (var last, next, other := list.rows[order[k - 1]], list.rows[order[k]], list.rows[i];
        && next.album == last.album && other.artist != last.artist && other.album != last.album
        && i in Remaining(list, order[..k]) && InFrontier(list.rows, Remaining(list, order[..k]), other.artist, other.album))
  }

  /** Reachable, and avoidable at the step: every sequence of this playlist repeats album x at its fourth place, right after c,
      although a row by another artist on another album is in the frontier there. */
  lemma NeighboursThoughAvoidable(n: Names, order: seq<nat>) returns (i: nat)
    requires Different(n) && IsSequence(Instance(n), order)
    ensures |order| == 6 && order[2] < 6 && Rows(n)[order[2]] == Row(n.c, n.x)
    ensures RepeatsThoughAvoidable(Instance(n), order, 3, i)
  {
    var list := Instance(n);
    hide FollowsPolicy, Step, Left, InFrontier, Rows, Remaining;
    SixRows(n);
    AfterThree(n, order);
    AtFourth(n, order);
    i := RowOfB(n, Remaining(list, order[..3]), 2, 1, 0);
    RowInFrontier(n, Remaining(list, order[..3]), i);
  }

  lemma RowOfB(n: Names, live: set<nat>, a: nat, b: nat, c: nat) returns (i: nat)
    requires Different(n) && Left(n, live, a, b, c) && b > 0
    ensures i in live && i < |Rows(n)| && Rows(n)[i] == Row(n.b, n.y)
  {
    hide Count, Rows;
    i := LiveRowOf(n, live, n.b);
    RowIsNamed(n, i);
  }
}
