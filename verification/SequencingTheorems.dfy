/** What every sequence chosen by the policy looks like, for any transition scores. */
module SequencingTheorems {
  import opened Collections
  import opened PriorityHeap
  import opened PlaylistGroups
  import opened SequencingPolicy

  /** The group of kind g that a row belongs to; g only names the kind. */
  function Of(rows: seq<Row>, kind: Group, i: nat): Group
    requires i < |rows|
  {
    Peer(rows[i], kind)
  }

  ghost predicate NoNeighbours(rows: seq<Row>, order: seq<nat>, kind: Group) {
    forall k | 0 < k < |order| && order[k - 1] < |rows| && order[k] < |rows| ::
      Of(rows, kind, order[k - 1]) != Of(rows, kind, order[k])
  }

  /** No group of the kind holds more than half of the rows, rounded up. */
  ghost predicate Spreadable(rows: seq<Row>, kind: Group) {
    forall i: nat | i < |rows| :: Count(rows, AllRows(rows), Of(rows, kind, i)) <= (|rows| + 1) / 2
  }

  /** The loop invariant of spacing: the last placed group holds at most half of what is left, the others half rounded up. */
  ghost predicate Balanced(rows: seq<Row>, live: set<nat>, previous: Option<nat>, kind: Group) {
    && (forall i | i in live && i < |rows| :: Count(rows, live, Of(rows, kind, i)) <= (|live| + 1) / 2)
    && (previous.Some? ==> previous.value < |rows| && Count(rows, live, Of(rows, kind, previous.value)) <= |live| / 2)
  }

  /** row avoids the previous group when another is left, and is a safe choice when some permitted row is. */
  ghost predicate Spaced(rows: seq<Row>, live: set<nat>, previous: Option<nat>, row: nat, kind: Group) {
    && row < |rows| && (previous.Some? ==> previous.value < |rows|)
    && (previous.Some? && (exists i :: i in live && i < |rows| && Of(rows, kind, i) != Of(rows, kind, previous.value))
        ==> Of(rows, kind, row) != Of(rows, kind, previous.value))
    && ((exists i :: i in live && i < |rows| && SafeChoice(rows, live, Of(rows, kind, i))
           && (previous.Some? ==> Of(rows, kind, i) != Of(rows, kind, previous.value)))
        ==> SafeChoice(rows, live, Of(rows, kind, row)))
  }

  /** The highest ranked group other than the previous one; it is a safe choice if any permitted group is. */
  lemma TopOther(rows: seq<Row>, live: set<nat>, previous: Option<nat>, kind: Group, i: nat) returns (top: nat)
    requires kind.OfArtist? || kind.OfAlbum?
    requires previous.Some? ==> previous.value < |rows|
    requires i in live && i < |rows| && (previous.Some? ==> Of(rows, kind, i) != Of(rows, kind, previous.value))
    ensures top in live && top < |rows| && (previous.Some? ==> Of(rows, kind, top) != Of(rows, kind, previous.value))
    ensures forall j | j in live && j < |rows| && (previous.Some? ==> Of(rows, kind, j) != Of(rows, kind, previous.value)) ::
      !Higher(GroupRank(rows, live, Of(rows, kind, j)), GroupRank(rows, live, Of(rows, kind, top)))
  {
    var groups := set j | j in live && j < |rows|
      && (previous.Some? ==> Of(rows, kind, j) != Of(rows, kind, previous.value)) :: Of(rows, kind, j);
    assert Of(rows, kind, i) in groups;
    var g := TopGroup(rows, live, groups);
    top :| top in live && top < |rows| && Of(rows, kind, top) == g
      && (previous.Some? ==> Of(rows, kind, top) != Of(rows, kind, previous.value));
  }

  /** The parity argument: balance always leaves a safe choice outside the previous group. */
  lemma SafeChoiceExists(rows: seq<Row>, live: set<nat>, previous: Option<nat>, kind: Group) returns (top: nat)
    requires kind.OfArtist? || kind.OfAlbum?
    requires previous.Some? ==> previous.value < |rows|
    requires live != {} && live <= AllRows(rows)
    requires Balanced(rows, live, previous, kind)
    ensures top in live && top < |rows| && (previous.Some? ==> Of(rows, kind, top) != Of(rows, kind, previous.value))
    ensures SafeChoice(rows, live, Of(rows, kind, top))
  {
    var i := AnotherGroup(rows, live, previous, kind);
    top := TopOther(rows, live, previous, kind, i);
    var g := Of(rows, kind, top);
    assert Count(rows, live, g) <= (|live| + 1) / 2;
    forall h | h in Peers(rows, live, g) && h != g
      ensures Count(rows, live, h) <= |live| / 2
    {
      var j := PeerWitness(rows, live, kind, g, h);
      CountDisjoint(rows, live, g, h);
      if previous.None? || h != Of(rows, kind, previous.value) {
        assert !Higher(GroupRank(rows, live, h), GroupRank(rows, live, g));
      }
    }
  }

  lemma PeerWitness(rows: seq<Row>, live: set<nat>, kind: Group, g: Group, h: Group) returns (j: nat)
    requires kind.OfArtist? || kind.OfAlbum?
    requires SameKind(g, kind) && h in Peers(rows, live, g)
    ensures j in live && j < |rows| && h == Of(rows, kind, j) && SameKind(h, kind)
  {
    j :| j in live && j < |rows| && Peer(rows[j], g) == h;
  }

  lemma AnotherGroup(rows: seq<Row>, live: set<nat>, previous: Option<nat>, kind: Group) returns (i: nat)
    requires kind.OfArtist? || kind.OfAlbum?
    requires previous.Some? ==> previous.value < |rows|
    requires live != {} && live <= AllRows(rows)
    requires Balanced(rows, live, previous, kind)
    ensures i in live && i < |rows| && (previous.Some? ==> Of(rows, kind, i) != Of(rows, kind, previous.value))
  {
    if previous.None? {
      i :| i in live;
    } else {
      var last := Members(rows, live, Of(rows, kind, previous.value));
      assert |last| < |live| && last <= live;
      assert live - last != {} by { assert |live - last| == |live| - |live * last|; assert live * last == last; }
      i :| i in live && i !in last;
    }
  }

  /** One spaced step keeps the balance and separates the row from its predecessor. */
  lemma BalanceKept(rows: seq<Row>, live: set<nat>, previous: Option<nat>, row: nat, kind: Group)
    requires kind.OfArtist? || kind.OfAlbum?
    requires previous.Some? ==> previous.value < |rows|
    requires live <= AllRows(rows) && row in live
    requires Balanced(rows, live, previous, kind)
    requires Spaced(rows, live, previous, row, kind)
    ensures previous.Some? ==> Of(rows, kind, row) != Of(rows, kind, previous.value)
    ensures Balanced(rows, live - {row}, Some(row), kind)
  {
    var safe := SafeChoiceExists(rows, live, previous, kind);
    var g := Of(rows, kind, row);
    var left := live - {row};
    assert |left| == |live| - 1;
    CountAfter(rows, live, g, row);
    forall i | i in left && i < |rows|
      ensures Count(rows, left, Of(rows, kind, i)) <= (|left| + 1) / 2
    {
      var h := Of(rows, kind, i);
      CountAfter(rows, live, h, row);
      if h != g {
        assert Peer(rows[i], g) == h && Comparable(rows[i], g);
        assert h in Peers(rows, live, g);
      }
    }
  }

  /** If some permitted group is a safe choice, the top permitted group is one. */
  lemma TopIsSafe(rows: seq<Row>, live: set<nat>, previous: Option<nat>, kind: Group, i: nat, top: nat)
    requires kind.OfArtist? || kind.OfAlbum?
    requires previous.Some? ==> previous.value < |rows|
    requires live <= AllRows(rows)
    requires i in live && (previous.Some? ==> Of(rows, kind, i) != Of(rows, kind, previous.value))
    requires SafeChoice(rows, live, Of(rows, kind, i))
    requires top in live
    requires !Higher(GroupRank(rows, live, Of(rows, kind, i)), GroupRank(rows, live, Of(rows, kind, top)))
    ensures SafeChoice(rows, live, Of(rows, kind, top))
  {
    var g, h := Of(rows, kind, i), Of(rows, kind, top);
    if g != h {
      assert h in Peers(rows, live, g) by { assert Peer(rows[top], g) == h; }
      forall x | x in Peers(rows, live, h) && x != h
        ensures Count(rows, live, x) <= |live| / 2
      {
        if x != g {
          var j := PeerWitness(rows, live, kind, h, x);
          assert x in Peers(rows, live, g) by { assert Peer(rows[j], g) == x; }
        }
      }
    }
  }

  // ---------- what one step of the policy guarantees ----------

  /** An artist that at most 15 others outrank always shows its top album in the frontier. */
  lemma ArtistInFrontier(rows: seq<Row>, live: set<nat>, top: nat) returns (album: Key)
    requires top in live && top < |rows|
    requires |Outrankers(rows, live, OfArtist(rows[top].artist))| < ARTIST_LOOKAHEAD
    ensures InFrontier(rows, live, rows[top].artist, album)
    ensures forall b :: OfArtistAlbum(rows[top].artist, b) in Peers(rows, live, OfArtistAlbum(rows[top].artist, album)) ==>
      !Higher(GroupRank(rows, live, OfArtistAlbum(rows[top].artist, b)), GroupRank(rows, live, OfArtistAlbum(rows[top].artist, album)))
  {
    hide Count, First;
    var a := rows[top].artist;
    var albums := Peers(rows, live, OfArtistAlbum(a, rows[top].album));
    assert Peer(rows[top], OfArtistAlbum(a, rows[top].album)) in albums;
    var g := TopGroup(rows, live, albums);
    album := g.album;
    assert Peers(rows, live, g) == albums;
    assert Outrankers(rows, live, g) == {};
    var i :| i in live && i < |rows| && rows[i].artist == a && Peer(rows[i], OfArtistAlbum(a, rows[top].album)) == g;
    CountPositive(rows, live, g);
  }

  /** Only the previous group can outrank the top permitted one. */
  lemma FewOutrankers(rows: seq<Row>, live: set<nat>, previous: Option<nat>, kind: Group, top: nat)
    requires kind.OfArtist? || kind.OfAlbum?
    requires previous.Some? ==> previous.value < |rows|
    requires top < |rows|
    requires forall j | j in live && j < |rows| && (previous.Some? ==> Of(rows, kind, j) != Of(rows, kind, previous.value)) ::
      !Higher(GroupRank(rows, live, Of(rows, kind, j)), GroupRank(rows, live, Of(rows, kind, top)))
    ensures |Outrankers(rows, live, Of(rows, kind, top))| <= 1
  {
    var g := Of(rows, kind, top);
    var allowed := if previous.Some? then {Of(rows, kind, previous.value)} else {};
    forall h | h in Outrankers(rows, live, g) ensures h in allowed {
      var j := PeerWitness(rows, live, kind, g, h);
    }
    SubsetCardinality(Outrankers(rows, live, g), allowed);
  }

  lemma ProposalRow(list: Playlist, live: set<nat>, previous: Option<nat>, p: Proposal)
    requires IsProposal(list, live, previous, p)
    ensures p.row in live && p.row < |list.rows|
    ensures list.rows[p.row] == Row(p.artist, p.album)
  {
    assert p.row in Positions(list.rows, OfArtistAlbum(p.artist, p.album));
  }

  /** A step's row comes from an eligible proposal of the frontier. */
  lemma StepChoice(list: Playlist, live: set<nat>, previous: Option<nat>, row: nat)
    returns (ps: seq<Proposal>, chosen: Proposal)
    requires Step(list, live, previous, row)
    ensures previous.Some? ==> previous.value < |list.rows|
    ensures IsFrontier(list, live, previous, ps) && chosen in Eligible(list, live, previous, ps) && chosen in ps
    ensures row in live && row < |list.rows| && list.rows[row] == Row(chosen.artist, chosen.album)
  {
    ps :| |ps| > 0 && IsFrontier(list, live, previous, ps) && row == Decide(list, live, previous, ps).row;
    chosen := Decide(list, live, previous, ps);
    ProposalRow(list, live, previous, chosen);
  }

  /** How a step decides. */
  lemma StepDecision(list: Playlist, live: set<nat>, previous: Option<nat>, row: nat) returns (ps: seq<Proposal>, chosen: Proposal, maximum: nat)
    requires Step(list, live, previous, row)
    ensures previous.Some? ==> previous.value < |list.rows|
    ensures |ps| > 0 && IsFrontier(list, live, previous, ps)
    ensures maximum == Count(list.rows, live, OfArtist(ps[0].artist))
    ensures |Eligible(list, live, previous, ps)| > 0
    ensures chosen == BestProposal(list, live, Eligible(list, live, previous, ps), maximum)
    ensures row == chosen.row && row in live && row < |list.rows| && list.rows[row] == Row(chosen.artist, chosen.album)
  {
    hide Eligible, IsProposal;
    ps :| |ps| > 0 && IsFrontier(list, live, previous, ps) && row == Decide(list, live, previous, ps).row;
    chosen := Decide(list, live, previous, ps);
    maximum := Count(list.rows, live, OfArtist(ps[0].artist));
    ProposalRow(list, live, previous, chosen);
  }

  lemma StepTakesLiveRow(list: Playlist, live: set<nat>, previous: Option<nat>, row: nat)
    requires Step(list, live, previous, row)
    ensures row in live && row < |list.rows| && (previous.Some? ==> previous.value < |list.rows|)
  {
    var _, _ := StepChoice(list, live, previous, row);
  }

  /** The artist filters: one permitted proposal keeps out the last artist, one safe one keeps out unsafe artists. */
  lemma EligibleArtists(list: Playlist, live: set<nat>, previous: Option<nat>, ps: seq<Proposal>, p: Proposal, chosen: Proposal)
    requires previous.Some? ==> previous.value < |list.rows|
    requires p in ps && (previous.Some? ==> p.artist != list.rows[previous.value].artist)
    requires chosen in Eligible(list, live, previous, ps)
    ensures previous.Some? ==> chosen.artist != list.rows[previous.value].artist
    ensures SafeChoice(list.rows, live, OfArtist(p.artist)) ==> SafeChoice(list.rows, live, OfArtist(chosen.artist))
  {
    var e1 := AfterArtist(list, previous, ps);
    assert p in e1;
    var e2 := Prefer(e1, SafeArtist(list, live));
    assert chosen in AfterAlbum(list, previous, e2);
    assert chosen in e2;
  }

  lemma TopProposal(list: Playlist, live: set<nat>, previous: Option<nat>, ps: seq<Proposal>, top: nat) returns (p: Proposal)
    requires previous.Some? ==> previous.value < |list.rows|
    requires IsFrontier(list, live, previous, ps)
    requires top in live && top < |list.rows|
    requires forall j | j in live && j < |list.rows| && (previous.Some? ==> Of(list.rows, ARTISTS, j) != Of(list.rows, ARTISTS, previous.value)) ::
      !Higher(GroupRank(list.rows, live, Of(list.rows, ARTISTS, j)), GroupRank(list.rows, live, Of(list.rows, ARTISTS, top)))
    ensures p in ps && p.artist == list.rows[top].artist
  {
    FewOutrankers(list.rows, live, previous, ARTISTS, top);
    var album := ArtistInFrontier(list.rows, live, top);
    var k :| 0 <= k < |ps| && ps[k].artist == list.rows[top].artist && ps[k].album == album;
    p := ps[k];
  }

  /** A permitted row i shows that the chosen row is permitted too, and as safe as i. */
  lemma ChosenArtistAsGood(list: Playlist, live: set<nat>, previous: Option<nat>, ps: seq<Proposal>, chosen: Proposal, i: nat)
    requires previous.Some? ==> previous.value < |list.rows|
    requires live <= AllRows(list.rows)
    requires IsFrontier(list, live, previous, ps) && chosen in Eligible(list, live, previous, ps)
    requires i in live && (previous.Some? ==> list.rows[i].artist != list.rows[previous.value].artist)
    ensures previous.Some? ==> chosen.artist != list.rows[previous.value].artist
    ensures SafeChoice(list.rows, live, OfArtist(list.rows[i].artist)) ==> SafeChoice(list.rows, live, OfArtist(chosen.artist))
  {
    var top := TopOther(list.rows, live, previous, ARTISTS, i);
    var p := TopProposal(list, live, previous, ps, top);
    EligibleArtists(list, live, previous, ps, p, chosen);
    if SafeChoice(list.rows, live, OfArtist(list.rows[i].artist)) {
      TopIsSafe(list.rows, live, previous, ARTISTS, i, top);
    }
  }

  lemma StepArtistAsGood(list: Playlist, live: set<nat>, previous: Option<nat>, row: nat, i: nat)
    requires live <= AllRows(list.rows)
    requires Step(list, live, previous, row)
    requires i in live && (previous.Some? ==> list.rows[i].artist != list.rows[previous.value].artist)
    ensures row < |list.rows| && (previous.Some? ==> list.rows[row].artist != list.rows[previous.value].artist)
    ensures SafeChoice(list.rows, live, OfArtist(list.rows[i].artist)) ==>
      SafeChoice(list.rows, live, OfArtist(list.rows[row].artist))
  {
    var ps, chosen := StepChoice(list, live, previous, row);
    ChosenArtistAsGood(list, live, previous, ps, chosen, i);
  }

  /** Despite its 16-artist horizon, a step avoids the last artist and finds a safe artist whenever any row allows it. */
  lemma StepSpacesArtists(list: Playlist, live: set<nat>, previous: Option<nat>, row: nat)
    requires live <= AllRows(list.rows)
    requires Step(list, live, previous, row)
    ensures row < |list.rows| && (previous.Some? ==> previous.value < |list.rows|)
    ensures Spaced(list.rows, live, previous, row, ARTISTS)
  {
    var rows := list.rows;
    hide Step, SafeChoice;
    StepTakesLiveRow(list, live, previous, row);
    if i :| i in live && previous.Some? && Of(rows, ARTISTS, i) != Of(rows, ARTISTS, previous.value) {
      StepArtistAsGood(list, live, previous, row, i);
    }
    if i :| (i in live && SafeChoice(rows, live, Of(rows, ARTISTS, i))
             && (previous.Some? ==> Of(rows, ARTISTS, i) != Of(rows, ARTISTS, previous.value))) {
      StepArtistAsGood(list, live, previous, row, i);
    }
  }

  // ---------- whole sequences ----------

  lemma RemainingShrinks(list: Playlist, order: seq<nat>, k: nat)
    requires k < |order|
    ensures Remaining(list, order[..k + 1]) == Remaining(list, order[..k]) - {order[k]}
    ensures Last(order[..k + 1]) == Some(order[k])
  {
    assert order[..k + 1] == order[..k] + [order[k]];
    assert Elements(order[..k + 1]) == Elements(order[..k]) + {order[k]};
  }

  lemma StepAt(list: Playlist, order: seq<nat>, k: nat)
    requires FollowsPolicy(list, order) && k < |order|
    ensures Step(list, Remaining(list, order[..k]), Last(order[..k]), order[k])
    ensures order[k] in Remaining(list, order[..k]) && order[k] < |list.rows| && order[k] !in order[..k]
  {
    hide Step;
    StepTakesLiveRow(list, Remaining(list, order[..k]), Last(order[..k]), order[k]);
  }

  lemma AllRemainAtFirst(list: Playlist, order: seq<nat>)
    ensures Remaining(list, order[..0]) == AllRows(list.rows)
    ensures |Remaining(list, order[..0])| == |list.rows|
  {
    AllRowsCardinality(list.rows);
    assert Remaining(list, order[..0]) == AllRows(list.rows);
  }

  /** Every prefix of a policy order places distinct rows, so exactly the others remain. */
  lemma {:induction false} PrefixPlaces(list: Playlist, order: seq<nat>, k: nat)
    requires FollowsPolicy(list, order) && k <= |order|
    ensures Distinct(order[..k])
    ensures forall j | 0 <= j < k :: order[j] < |list.rows|
    ensures |Remaining(list, order[..k])| == |list.rows| - k
  {
    hide FollowsPolicy, Step, Remaining;
    if k == 0 {
      AllRemainAtFirst(list, order);
    } else {
      PrefixPlaces(list, order, k - 1);
      StepAt(list, order, k - 1);
      RemainingShrinks(list, order, k - 1);
      assert order[..k] == order[..k - 1] + [order[k - 1]];
    }
  }

  lemma {:induction false} AllRowsCardinality(rows: seq<Row>)
    ensures |AllRows(rows)| == |rows|
  {
    if |rows| == 0 {
      assert AllRows(rows) == {};
    } else {
      var before := rows[..|rows| - 1];
      AllRowsCardinality(before);
      assert AllRows(rows) == AllRows(before) + {|rows| - 1};
    }
  }

  /** Every source row is emitted exactly once. */
  lemma SequenceIsPermutation(list: Playlist, order: seq<nat>)
    requires IsSequence(list, order)
    ensures Distinct(order)
    ensures Elements(order) == AllRows(list.rows)
  {
    hide FollowsPolicy, Step;
    assert order[..|order|] == order;
    PrefixPlaces(list, order, |order|);
    var live := Remaining(list, order);
    assert |live| == 0;
    assert live == {};
  }

  /** Neighbours share an artist only once every row still to come is by that artist. */
  lemma NeighboursOnlyWhenForced(list: Playlist, order: seq<nat>, k: nat, j: nat)
    requires IsSequence(list, order)
    requires 0 < k <= j < |order|
    ensures order[k - 1] < |list.rows| && order[k] < |list.rows| && order[j] < |list.rows|
    ensures list.rows[order[k]].artist == list.rows[order[k - 1]].artist ==>
      list.rows[order[j]].artist == list.rows[order[k]].artist
  {
    hide FollowsPolicy, Step, SafeChoice;
    var live := Remaining(list, order[..k]);
    SequenceIsPermutation(list, order);
    StepAt(list, order, k);
    StepSpacesArtists(list, live, Last(order[..k]), order[k]);
    RemainingShrinks(list, order, k - 1);
    assert order[j] !in order[..k] && order[j] in Elements(order);
    assert order[j] in live;
  }

  lemma BalancedAtFirst(list: Playlist, order: seq<nat>, kind: Group)
    requires Spreadable(list.rows, kind)
    ensures Balanced(list.rows, Remaining(list, order[..0]), Last(order[..0]), kind)
    ensures NoNeighbours(list.rows, order[..0], kind)
  {
    AllRemainAtFirst(list, order);
    AllRowsCardinality(list.rows);
  }

  /** Spacing of any kind, given that each step is spaced. */
  lemma {:induction false} SpacedRun(list: Playlist, order: seq<nat>, k: nat, kind: Group)
    requires kind.OfArtist? || kind.OfAlbum?
    requires FollowsPolicy(list, order) && k <= |order|
    requires forall j | 0 <= j < |order| :: order[j] < |list.rows|
    requires Spreadable(list.rows, kind)
    requires forall j | 0 <= j < |order| ::
      Spaced(list.rows, Remaining(list, order[..j]), Last(order[..j]), order[j], kind)
    ensures Balanced(list.rows, Remaining(list, order[..k]), Last(order[..k]), kind)
    ensures NoNeighbours(list.rows, order[..k], kind)
  {
    hide FollowsPolicy, Step, SafeChoice, Spaced, Balanced, Spreadable, NoNeighbours;
    if k == 0 {
      BalancedAtFirst(list, order, kind);
    } else {
      SpacedRun(list, order, k - 1, kind);
      StepAt(list, order, k - 1);
      RemainingShrinks(list, order, k - 1);
      BalanceKept(list.rows, Remaining(list, order[..k - 1]), Last(order[..k - 1]), order[k - 1], kind);
      NoNeighboursGrow(list.rows, order, k, kind);
    }
  }

  lemma NoNeighboursGrow(rows: seq<Row>, order: seq<nat>, k: nat, kind: Group)
    requires 0 < k <= |order| && order[k - 1] < |rows|
    requires NoNeighbours(rows, order[..k - 1], kind)
    requires k > 1 ==> order[k - 2] < |rows| && Of(rows, kind, order[k - 2]) != Of(rows, kind, order[k - 1])
    ensures NoNeighbours(rows, order[..k], kind)
  {
    assert forall j | 0 <= j < k - 1 :: order[..k][j] == order[..k - 1][j];
  }

  /** Of any rows in a line without equal neighbours, each group holds at most half, rounded up. */
  lemma {:induction false} NoNeighboursBound(rows: seq<Row>, order: seq<nat>, kind: Group, g: Group)
    requires kind.OfArtist? || kind.OfAlbum?
    requires forall j | 0 <= j < |order| :: order[j] < |rows|
    requires Distinct(order) && NoNeighbours(rows, order, kind) && SameKind(g, kind)
    ensures 2 * Count(rows, Elements(order), g) <=
      |order| + (if |order| > 0 && Belongs(rows[order[|order| - 1]], g) then 1 else 0)
  {
    hide Count;
    if |order| > 0 {
      var n := |order| - 1;
      var before := order[..n];
      NoNeighboursBound(rows, before, kind, g);
      assert Elements(order) - {order[n]} == Elements(before) by { assert order == before + [order[n]]; }
      CountAfter(rows, Elements(order), g, order[n]);
      if n > 0 && Belongs(rows[order[n]], g) && Belongs(rows[order[n - 1]], g) {
        assert false;
      }
    } else {
      NoneCounted(rows, order, g);
    }
  }

  lemma NoneCounted(rows: seq<Row>, order: seq<nat>, g: Group)
    requires |order| == 0
    ensures Count(rows, Elements(order), g) == 0
  {
    assert Members(rows, Elements(order), g) == {};
  }

  /** If any order of all rows has no equal neighbours, no group holds more than half, rounded up. */
  lemma SpacedIsSpreadable(list: Playlist, order: seq<nat>, kind: Group)
    requires kind.OfArtist? || kind.OfAlbum?
    requires Distinct(order) && Elements(order) == AllRows(list.rows) && |order| == |list.rows|
    requires NoNeighbours(list.rows, order, kind)
    ensures Spreadable(list.rows, kind)
  {
    forall i: nat | i < |list.rows|
      ensures Count(list.rows, AllRows(list.rows), Of(list.rows, kind, i)) <= (|list.rows| + 1) / 2
    {
      assert forall j | 0 <= j < |order| :: order[j] in Elements(order);
      NoNeighboursBound(list.rows, order, kind, Of(list.rows, kind, i));
    }
  }

  /** Artist spacing is achieved exactly when any arrangement could achieve it. */
  lemma ArtistSpacingWheneverPossible(list: Playlist, order: seq<nat>)
    requires IsSequence(list, order)
    ensures NoNeighbours(list.rows, order, ARTISTS) <==> Spreadable(list.rows, ARTISTS)
  {
    hide FollowsPolicy, Step, Spaced, SafeChoice;
    assert order[..|order|] == order;
    SequenceIsPermutation(list, order);
    if Spreadable(list.rows, ARTISTS) {
      forall j | 0 <= j < |order|
        ensures order[j] < |list.rows|
        ensures Spaced(list.rows, Remaining(list, order[..j]), Last(order[..j]), order[j], ARTISTS)
      {
        StepAt(list, order, j);
        StepSpacesArtists(list, Remaining(list, order[..j]), Last(order[..j]), order[j]);
      }
      SpacedRun(list, order, |order|, ARTISTS);
    }
    if NoNeighbours(list.rows, order, ARTISTS) {
      SpacedIsSpreadable(list, order, ARTISTS);
    }
  }
}
