/** What a step's choice is best at, stated on rows, transitions and counts: no loop, no heap, no proposal list. */
module SequencingChoices {
  import opened Collections
  import opened PriorityHeap
  import opened PlaylistGroups
  import opened SequencingPolicy
  import opened SequencingTheorems

  // ---------- the row that stands for its album ----------

  /** One of the first four rows of its artist and album that are still to be placed. */
  ghost predicate AmongFirstFour(rows: seq<Row>, live: set<nat>, i: nat) {
    i in live && i < |rows| && |set j | j in live && j < i && rows[j] == rows[i]| < 4
  }

  /** x is within the slack of y or better, in the direction of the preference. */
  predicate NearlyAsGood(preference: Preference, x: real, y: real, slack: real) {
    (preference == Smooth ==> x >= y - slack) && (preference == Contrast ==> x <= y + slack)
  }

  /** At most one epsilon apart: a tie. */
  predicate Near(x: real, y: real) {
    x - y <= 0.000000001 && y - x <= 0.000000001
  }

  predicate NearCarries(x: real, y: real, z: real) {
    Near(x, y) && Near(y, z) ==> Near(x, z)
  }

  /** Values that tie with a third one tie with each other. */
  ghost predicate TiesCarry(values: set<real>) {
    forall x, y, z | x in values && y in values && z in values :: NearCarries(x, y, z)
  }

  ghost function Values(list: Playlist, previous: Option<nat>, rivals: set<nat>): set<real> {
    set j | j in rivals :: list.transition(previous, j).value
  }

  /** The plain order on rows: the better transition, on a tie more compared weight, then the earlier row. */
  predicate Leads(preference: Preference, t: TransitionScore, i: nat, u: TransitionScore, j: nat) {
    if Near(t.value, u.value)
    then t.comparedWeight > u.comparedWeight || (t.comparedWeight == u.comparedWeight && i <= j)
    else if preference == Smooth then t.value > u.value
    else t.value < u.value
  }

  /** No rival's transition beats that of row i by more than three epsilons; and i leads all of them when ties carry over. */
  ghost predicate LeadsRivals(list: Playlist, previous: Option<nat>, rivals: set<nat>, i: nat) {
    && (forall j | j in rivals ::
          NearlyAsGood(list.preference, list.transition(previous, i).value, list.transition(previous, j).value, 3.0 * 0.000000001))
    && (TiesCarry(Values(list, previous, rivals)) ==>
        forall j | j in rivals :: Leads(list.preference, list.transition(previous, i), i, list.transition(previous, j), j))
  }

  ghost function Rivals(rows: seq<Row>, live: set<nat>, r: Row): set<nat> {
    set i | i in live && i < |rows| && rows[i] == r && AmongFirstFour(rows, live, i)
  }

  /** Row i may stand for its album. */
  ghost predicate IsLead(list: Playlist, live: set<nat>, previous: Option<nat>, i: nat) {
    AmongFirstFour(list.rows, live, i) && LeadsRivals(list, previous, Rivals(list.rows, live, list.rows[i]), i)
  }

  lemma BestRowOneMore(list: Playlist, previous: Option<nat>, before: seq<nat>, last: nat)
    requires |before| > 0
    ensures var best := BestRow(list, previous, before);
      BestRow(list, previous, before + [last])
      == if BetterRow(list.preference, last, list.transition(previous, last), best, list.transition(previous, best)) then last else best
  {
    hide BetterRow;
    assert (before + [last])[..|before|] == before;
  }

  /** Each comparison of the loop loses at most one epsilon. */
  lemma {:induction false} BestRowIsNear(list: Playlist, previous: Option<nat>, candidates: seq<nat>)
    requires |candidates| > 0
    ensures forall k | 0 <= k < |candidates| ::
      NearlyAsGood(list.preference, list.transition(previous, BestRow(list, previous, candidates)).value,
                   list.transition(previous, candidates[k]).value, (|candidates| - 1) as real * 0.000000001)
  {
    var n := |candidates| - 1;
    var before, last := candidates[..n], candidates[n];
    assert candidates == before + [last];
    if n > 0 {
      BestRowIsNear(list, previous, before);
      BestRowOneMore(list, previous, before, last);
      hide BestRow;
      assert forall k | 0 <= k < n :: candidates[k] == before[k];
    }
  }

  /** A row that replaces the best one leads whatever that one leads, and the other way round. */
  lemma LeadsOn(preference: Preference, t: TransitionScore, i: nat, u: TransitionScore, j: nat, v: TransitionScore, k: nat)
    requires Leads(preference, u, j, v, k)
    requires NearCarries(t.value, u.value, v.value) && NearCarries(u.value, t.value, v.value) && NearCarries(t.value, v.value, u.value)
    ensures BetterRow(preference, i, t, j, u) ==> Leads(preference, t, i, v, k)
    ensures !BetterRow(preference, i, t, j, u) ==> Leads(preference, u, j, t, i)
  {
  }

  /** Where ties carry over the loop finds the first row of the plain order. */
  lemma {:induction false} BestRowLeads(list: Playlist, previous: Option<nat>, candidates: seq<nat>)
    requires |candidates| > 0
    requires TiesCarry(Values(list, previous, Elements(candidates)))
    ensures forall j | j in candidates :: var r := BestRow(list, previous, candidates);
      Leads(list.preference, list.transition(previous, r), r, list.transition(previous, j), j)
  {
    var n := |candidates| - 1;
    var before, last := candidates[..n], candidates[n];
    assert candidates == before + [last];
    hide NearCarries, Leads, BetterRow;
    if n == 0 {
      LeadsItself(list.preference, list.transition(previous, last), last);
    } else {
      assert Elements(before) <= Elements(candidates) by { assert forall j | j in before :: j in candidates; }
      BestRowLeads(list, previous, before);
      BestRowOneMore(list, previous, before, last);
      var best := BestRow(list, previous, before);
      hide BestRow;
      LeadsItself(list.preference, list.transition(previous, last), last);
      forall j | j in candidates ensures list.transition(previous, j).value in Values(list, previous, Elements(candidates)) {
        assert j in Elements(candidates);
      }
      assert best in before;
      forall j | j in before
        ensures BetterRow(list.preference, last, list.transition(previous, last), best, list.transition(previous, best)) ==>
          Leads(list.preference, list.transition(previous, last), last, list.transition(previous, j), j)
        ensures !BetterRow(list.preference, last, list.transition(previous, last), best, list.transition(previous, best)) ==>
          Leads(list.preference, list.transition(previous, best), best, list.transition(previous, last), last)
      {
        LeadsOn(list.preference, list.transition(previous, last), last, list.transition(previous, best), best, list.transition(previous, j), j);
      }
    }
  }

  lemma LeadsItself(preference: Preference, t: TransitionScore, i: nat)
    ensures Leads(preference, t, i, t, i)
  {
  }

  lemma {:induction false} LiveAscend(positions: seq<nat>, live: set<nat>)
    requires Climbs(positions)
    ensures Climbs(StillLive(positions, live))
  {
    if |positions| > 0 {
      var n := |positions| - 1;
      var before := StillLive(positions[..n], live);
      LiveAscend(positions[..n], live);
      forall j | 0 <= j < |before| ensures before[j] < positions[n] {
        assert before[j] in before;
        assert before[j] in positions[..n];
        var k :| 0 <= k < n && positions[..n][k] == before[j];
        assert positions[k] == before[j];
      }
      assert StillLive(positions, live) == before + (if positions[n] in live then [positions[n]] else []);
    }
  }

  /** Before the k-th of an ascending list there are k of its members. */
  lemma EarlierCount(s: seq<nat>, k: nat)
    requires k < |s| && Climbs(s)
    ensures |set i | i in s && i < s[k]| == k
  {
    assert Distinct(s[..k]);
    DistinctCardinality(s[..k]);
    assert (set i | i in s && i < s[k]) == Elements(s[..k]) by {
      forall i | i in s && i < s[k] ensures i in s[..k] {
        var j :| 0 <= j < |s| && s[j] == i;
        assert j < k;
        assert s[..k][j] == i;
      }
    }
  }

  /** The rows the policy looks at are the first four of the album that are still to be placed. */
  lemma CandidatesAreRivals(list: Playlist, live: set<nat>, r: Row)
    ensures Elements(AlbumCandidates(list, live, r.artist, r.album)) == Rivals(list.rows, live, r)
    ensures |AlbumCandidates(list, live, r.artist, r.album)| <= 4
  {
    hide StillLive, Positions, AmongFirstFour;
    var positions := Positions(list.rows, OfArtistAlbum(r.artist, r.album));
    var available := StillLive(positions, live);
    LiveAscend(positions, live);
    forall i: nat ensures i in available <==> i in live && i < |list.rows| && list.rows[i] == r {
      assert i in positions <==> i < |list.rows| && Belongs(list.rows[i], OfArtistAlbum(r.artist, r.album));
    }
    forall i | i in live && i < |list.rows| && list.rows[i] == r
      ensures i in AlbumCandidates(list, live, r.artist, r.album) <==> AmongFirstFour(list.rows, live, i)
    {
      var k :| 0 <= k < |available| && available[k] == i;
      PlaceAmongFour(list.rows, live, available, k);
      FirstFourOf(available, k);
    }
  }

  lemma PlaceAmongFour(rows: seq<Row>, live: set<nat>, available: seq<nat>, k: nat)
    requires k < |available| && Climbs(available)
    requires available[k] < |rows| && forall i: nat :: i in available <==> i in live && i < |rows| && rows[i] == rows[available[k]]
    ensures AmongFirstFour(rows, live, available[k]) <==> k < 4
  {
    EarlierCount(available, k);
    assert (set j | j in live && j < available[k] && rows[j] == rows[available[k]]) == (set j | j in available && j < available[k]);
  }

  lemma FirstFourOf(available: seq<nat>, k: nat)
    requires k < |available| && Climbs(available)
    ensures available[k] in (if |available| <= TRACK_LOOKAHEAD then available else available[..TRACK_LOOKAHEAD]) <==> k < 4
  {
    if k < 4 && |available| > TRACK_LOOKAHEAD { assert available[..TRACK_LOOKAHEAD][k] == available[k]; }
  }

  /** A proposal's row leads the rows that the policy compares it with. */
  lemma ProposalIsLead(list: Playlist, live: set<nat>, previous: Option<nat>, p: Proposal)
    requires IsProposal(list, live, previous, p)
    ensures p.row in live && p.row < |list.rows| && list.rows[p.row] == Row(p.artist, p.album)
    ensures IsLead(list, live, previous, p.row) && p.transition == list.transition(previous, p.row)
  {
    hide BestRow, AlbumCandidates, AmongFirstFour, NearlyAsGood, TiesCarry, Values, Leads;
    ProposalRow(list, live, previous, p);
    var r := Row(p.artist, p.album);
    var candidates := AlbumCandidates(list, live, p.artist, p.album);
    CandidatesAreRivals(list, live, r);
    assert p.row in Elements(candidates);
    LeadIsNear(list, previous, candidates);
    var rivals := Rivals(list.rows, live, r);
    forall j | j in rivals
      ensures NearlyAsGood(list.preference, list.transition(previous, p.row).value, list.transition(previous, j).value, 3.0 * 0.000000001)
    {
      assert j in Elements(candidates);
    }
    if TiesCarry(Values(list, previous, rivals)) {
      BestRowLeads(list, previous, candidates);
      forall j | j in rivals ensures Leads(list.preference, list.transition(previous, p.row), p.row, list.transition(previous, j), j) {
        assert j in Elements(candidates);
      }
    }
  }

  lemma LeadIsNear(list: Playlist, previous: Option<nat>, candidates: seq<nat>)
    requires 0 < |candidates| <= 4
    ensures forall j | j in candidates ::
      NearlyAsGood(list.preference, list.transition(previous, BestRow(list, previous, candidates)).value,
                   list.transition(previous, j).value, 3.0 * 0.000000001)
  {
    hide BestRow;
    BestRowIsNear(list, previous, candidates);
    forall j | j in candidates
      ensures NearlyAsGood(list.preference, list.transition(previous, BestRow(list, previous, candidates)).value,
                           list.transition(previous, j).value, 3.0 * 0.000000001)
    {
      var k :| 0 <= k < |candidates| && candidates[k] == j;
    }
  }

  // ---------- which albums compete ----------

  /** Fewer than 16 artists outrank the row's artist, and fewer than 8 of its artist's albums outrank its album. */
  ghost predicate Shown(rows: seq<Row>, live: set<nat>, r: Row) {
    && |Outrankers(rows, live, OfArtist(r.artist))| < 16
    && |Outrankers(rows, live, OfArtistAlbum(r.artist, r.album))| < 8
  }

  ghost function ShownAlbums(rows: seq<Row>, live: set<nat>): set<Row> {
    set i | i in live && i < |rows| && Shown(rows, live, rows[i]) :: rows[i]
  }

  /** Those that pass, or all if none does. */
  ghost function Narrowed(s: set<Row>, p: Row -> bool): set<Row> {
    if exists r :: r in s && p(r) then set r | r in s && p(r) else s
  }

  function NotBy(artist: Key): Row -> bool {
    (r: Row) => r.artist != artist
  }

  function NotOn(album: Key): Row -> bool {
    (r: Row) => r.album != album
  }

  ghost function SpreadsArtist(rows: seq<Row>, live: set<nat>): Row -> bool {
    (r: Row) => SafeChoice(rows, live, OfArtist(r.artist))
  }

  ghost function SpreadsAlbum(rows: seq<Row>, live: set<nat>): Row -> bool {
    (r: Row) => SafeChoice(rows, live, OfAlbum(r.album))
  }

  /** The albums that are left to choose from: not the last artist, then a safe artist, then not the last album, then a safe album,
      each as far as possible. */
  ghost function Contenders(rows: seq<Row>, live: set<nat>, previous: Option<nat>): set<Row>
    requires previous.Some? ==> previous.value < |rows|
  {
    var shown := ShownAlbums(rows, live);
    var otherArtist := if previous.None? then shown else Narrowed(shown, NotBy(rows[previous.value].artist));
    var safeArtist := Narrowed(otherArtist, SpreadsArtist(rows, live));
    var otherAlbum := if previous.None? then safeArtist else Narrowed(safeArtist, NotOn(rows[previous.value].album));
    Narrowed(otherAlbum, SpreadsAlbum(rows, live))
  }

  function AlbumOf(p: Proposal): Row {
    Row(p.artist, p.album)
  }

  ghost function AlbumsOf(ps: seq<Proposal>): set<Row> {
    set p | p in ps :: AlbumOf(p)
  }

  lemma PreferNarrows(ps: seq<Proposal>, q: Proposal -> bool, p: Row -> bool)
    requires forall x | x in ps :: q(x) <==> p(AlbumOf(x))
    ensures AlbumsOf(Prefer(ps, q)) == Narrowed(AlbumsOf(ps), p)
  {
    if x :| x in ps && q(x) {
      assert AlbumOf(x) in AlbumsOf(ps) && p(AlbumOf(x));
    }
  }

  lemma FrontierAlbums(list: Playlist, live: set<nat>, previous: Option<nat>, ps: seq<Proposal>)
    requires IsFrontier(list, live, previous, ps)
    ensures AlbumsOf(ps) == ShownAlbums(list.rows, live)
  {
    hide Outrankers, Count, IsProposal, Precedes;
    forall p | p in ps ensures AlbumOf(p) in ShownAlbums(list.rows, live) {
      ProposalRow(list, live, previous, p);
      assert Shown(list.rows, live, list.rows[p.row]);
    }
    forall r | r in ShownAlbums(list.rows, live) ensures r in AlbumsOf(ps) {
      var i :| i in live && i < |list.rows| && Shown(list.rows, live, list.rows[i]) && list.rows[i] == r;
      CountPositive(list.rows, live, OfArtistAlbum(r.artist, r.album));
      assert InFrontier(list.rows, live, r.artist, r.album);
      var k :| 0 <= k < |ps| && ps[k].artist == r.artist && ps[k].album == r.album;
      assert ps[k] in ps;
    }
  }

  /** The four filters leave one proposal for each contender. */
  lemma EligibleAreContenders(list: Playlist, live: set<nat>, previous: Option<nat>, ps: seq<Proposal>)
    requires (previous.Some? ==> previous.value < |list.rows|) && IsFrontier(list, live, previous, ps)
    ensures AlbumsOf(Eligible(list, live, previous, ps)) == Contenders(list.rows, live, previous)
  {
    hide SafeChoice, IsFrontier, Prefer, Narrowed, ShownAlbums, AlbumsOf;
    FrontierAlbums(list, live, previous, ps);
    var e1 := AfterArtist(list, previous, ps);
    if previous.Some? {
      PreferNarrows(ps, OtherArtist(list.rows[previous.value].artist), NotBy(list.rows[previous.value].artist));
    }
    PreferNarrows(e1, SafeArtist(list, live), SpreadsArtist(list.rows, live));
    var e2 := Prefer(e1, SafeArtist(list, live));
    var e3 := AfterAlbum(list, previous, e2);
    if previous.Some? {
      PreferNarrows(e2, OtherAlbum(list.rows[previous.value].album), NotOn(list.rows[previous.value].album));
    }
    PreferNarrows(e3, SafeAlbum(list, live), SpreadsAlbum(list.rows, live));
  }

  lemma PreferDistinct(ps: seq<Proposal>, q: Proposal -> bool)
    requires Distinct(ps)
    ensures Distinct(Prefer(ps, q))
  {
    FilterDistinct(ps, q);
  }

  lemma FrontierAlbumsDiffer(list: Playlist, live: set<nat>, previous: Option<nat>, ps: seq<Proposal>)
    requires IsFrontier(list, live, previous, ps)
    ensures Distinct(ps) && forall p, q | p in ps && q in ps && p != q :: AlbumOf(p) != AlbumOf(q)
  {
    hide InFrontier, IsProposal, GroupRank;
    forall j, k | 0 <= j < k < |ps| ensures AlbumOf(ps[j]) != AlbumOf(ps[k]) {
      assert Precedes(list.rows, live, ps[j], ps[k]);
    }
  }

  lemma ContendersCount(list: Playlist, live: set<nat>, previous: Option<nat>, ps: seq<Proposal>)
    requires (previous.Some? ==> previous.value < |list.rows|) && IsFrontier(list, live, previous, ps)
    ensures |Eligible(list, live, previous, ps)| == |Contenders(list.rows, live, previous)|
  {
    hide IsFrontier, Contenders, Prefer, SafeArtist, SafeAlbum;
    var e := Eligible(list, live, previous, ps);
    FrontierAlbumsDiffer(list, live, previous, ps);
    EligibleAreContenders(list, live, previous, ps);
    if previous.Some? { PreferDistinct(ps, OtherArtist(list.rows[previous.value].artist)); }
    var e1 := AfterArtist(list, previous, ps);
    PreferDistinct(e1, SafeArtist(list, live));
    var e2 := Prefer(e1, SafeArtist(list, live));
    if previous.Some? { PreferDistinct(e2, OtherAlbum(list.rows[previous.value].album)); }
    var e3 := AfterAlbum(list, previous, e2);
    PreferDistinct(e3, SafeAlbum(list, live));
    CountAlbums(e);
  }

  lemma CountAlbums(e: seq<Proposal>)
    requires Distinct(e) && forall p, q | p in e && q in e && p != q :: AlbumOf(p) != AlbumOf(q)
    ensures |AlbumsOf(e)| == |e|
  {
    var albums := Mapped(e, AlbumOf);
    DistinctCardinality(albums);
    assert Elements(albums) == AlbumsOf(e) by {
      forall p | p in e ensures AlbumOf(p) in albums {
        var k :| 0 <= k < |e| && e[k] == p;
        assert albums[k] == AlbumOf(p);
      }
    }
  }

  // ---------- the final comparison ----------

  /** The most rows that any artist has left. */
  ghost predicate IsMost(rows: seq<Row>, live: set<nat>, most: nat) {
    && (forall a :: Count(rows, live, OfArtist(a)) <= most)
    && exists a :: Count(rows, live, OfArtist(a)) == most
  }

  /** The score of row i as the next one. */
  function Merit(list: Playlist, live: set<nat>, previous: Option<nat>, most: nat, i: nat): real
    requires i < |list.rows|
  {
    var r := list.rows[i];
    Score(list.preference, list.transition(previous, i).value, Count(list.rows, live, OfArtist(r.artist)),
          Count(list.rows, live, OfArtistAlbum(r.artist, r.album)), most)
  }

  /** The plain order: score, and on a tie compared weight, rows left of the artist, then of the album, then the earlier row. */
  predicate Outdoes(list: Playlist, live: set<nat>, previous: Option<nat>, most: nat, i: nat, j: nat)
    requires i < |list.rows| && j < |list.rows|
  {
    var x, y := Merit(list, live, previous, most, i), Merit(list, live, previous, most, j);
    var v, w := list.transition(previous, i).comparedWeight, list.transition(previous, j).comparedWeight;
    var a, b := Count(list.rows, live, OfArtist(list.rows[i].artist)), Count(list.rows, live, OfArtist(list.rows[j].artist));
    var c := Count(list.rows, live, OfArtistAlbum(list.rows[i].artist, list.rows[i].album));
    var d := Count(list.rows, live, OfArtistAlbum(list.rows[j].artist, list.rows[j].album));
    if !Near(x, y) then x > y else v > w || (v == w && (a > b || (a == b && (c > d || (c == d && i <= j)))))
  }

  /** leads names for each contender the row that stands for it. */
  ghost predicate LeadContenders(list: Playlist, live: set<nat>, previous: Option<nat>, leads: map<Row, nat>)
    requires previous.Some? ==> previous.value < |list.rows|
  {
    && leads.Keys == Contenders(list.rows, live, previous)
    && forall r | r in leads :: leads[r] < |list.rows| && list.rows[leads[r]] == r && IsLead(list, live, previous, leads[r])
  }

  ghost function Merits(list: Playlist, live: set<nat>, previous: Option<nat>, most: nat, leads: map<Row, nat>): set<real>
    requires forall r | r in leads :: leads[r] < |list.rows|
  {
    set r | r in leads :: Merit(list, live, previous, most, leads[r])
  }

  /** row is one of the leads; its score is at most one epsilon per contender below any other's, and it is first in the plain
      order when ties carry over. */
  ghost predicate Wins(list: Playlist, live: set<nat>, previous: Option<nat>, leads: map<Row, nat>, most: nat, row: nat)
    requires forall r | r in leads :: leads[r] < |list.rows|
  {
    && row < |list.rows| && list.rows[row] in leads && leads[list.rows[row]] == row
    && (forall r | r in leads ::
          Merit(list, live, previous, most, row) >= Merit(list, live, previous, most, leads[r]) - |leads| as real * 0.000000001)
    && (TiesCarry(Merits(list, live, previous, most, leads)) ==>
        forall r | r in leads :: Outdoes(list, live, previous, most, row, leads[r]))
  }

  /** What placing row means, without naming how it was found. */
  ghost predicate BestPlacement(list: Playlist, live: set<nat>, previous: Option<nat>, row: nat) {
    && (previous.Some? ==> previous.value < |list.rows|)
    && row in live
    && exists leads, most ::
         IsMost(list.rows, live, most) && LeadContenders(list, live, previous, leads) && Wins(list, live, previous, leads, most, row)
  }

  lemma ScoreIsMerit(list: Playlist, live: set<nat>, previous: Option<nat>, most: nat, p: Proposal)
    requires p.row < |list.rows| && list.rows[p.row] == AlbumOf(p) && p.transition == list.transition(previous, p.row)
    ensures ProposalScore(list, live, p, most) == Merit(list, live, previous, most, p.row)
  {
    hide Score, Count;
  }

  lemma BestProposalOneMore(list: Playlist, live: set<nat>, before: seq<Proposal>, last: Proposal, most: nat)
    requires |before| > 0
    ensures BestProposal(list, live, before + [last], most)
      == var best := BestProposal(list, live, before, most); if BetterProposal(list, live, last, best, most) then last else best
  {
    hide BetterProposal;
    assert (before + [last])[..|before|] == before;
  }

  lemma {:induction false} BestProposalIsNear(list: Playlist, live: set<nat>, ps: seq<Proposal>, most: nat)
    requires |ps| > 0
    ensures forall k | 0 <= k < |ps| ::
      ProposalScore(list, live, BestProposal(list, live, ps, most), most)
      >= ProposalScore(list, live, ps[k], most) - (|ps| - 1) as real * 0.000000001
  {
    hide ProposalScore, Count;
    var n := |ps| - 1;
    var before, last := ps[..n], ps[n];
    assert ps == before + [last];
    if n > 0 {
      BestProposalIsNear(list, live, before, most);
      BestProposalOneMore(list, live, before, last, most);
      var best := BestProposal(list, live, before, most);
      hide BestProposal;
      assert forall k | 0 <= k < n :: ps[k] == before[k];
    }
  }

  predicate ProposalOutdoes(list: Playlist, live: set<nat>, most: nat, p: Proposal, q: Proposal) {
    var x, y := ProposalScore(list, live, p, most), ProposalScore(list, live, q, most);
    var v, w := p.transition.comparedWeight, q.transition.comparedWeight;
    var a, b := Count(list.rows, live, OfArtist(p.artist)), Count(list.rows, live, OfArtist(q.artist));
    var c, d := Count(list.rows, live, OfArtistAlbum(p.artist, p.album)), Count(list.rows, live, OfArtistAlbum(q.artist, q.album));
    if !Near(x, y) then x > y else v > w || (v == w && (a > b || (a == b && (c > d || (c == d && p.row <= q.row)))))
  }

  lemma OutdoesOn(list: Playlist, live: set<nat>, most: nat, p: Proposal, q: Proposal, r: Proposal)
    requires ProposalOutdoes(list, live, most, q, r)
    requires var x, y, z := ProposalScore(list, live, p, most), ProposalScore(list, live, q, most), ProposalScore(list, live, r, most);
      NearCarries(x, y, z) && NearCarries(y, x, z) && NearCarries(x, z, y)
    ensures BetterProposal(list, live, p, q, most) ==> ProposalOutdoes(list, live, most, p, r)
    ensures !BetterProposal(list, live, p, q, most) ==> ProposalOutdoes(list, live, most, q, p)
  {
    hide ProposalScore, Count;
  }

  lemma OutdoesItself(list: Playlist, live: set<nat>, most: nat, p: Proposal)
    ensures ProposalOutdoes(list, live, most, p, p)
  {
    hide ProposalScore, Count;
  }

  ghost function ProposalScores(list: Playlist, live: set<nat>, ps: seq<Proposal>, most: nat): set<real> {
    set p | p in ps :: ProposalScore(list, live, p, most)
  }

  lemma {:induction false} BestProposalLeads(list: Playlist, live: set<nat>, ps: seq<Proposal>, most: nat)
    requires |ps| > 0
    requires TiesCarry(ProposalScores(list, live, ps, most))
    ensures forall p | p in ps :: ProposalOutdoes(list, live, most, BestProposal(list, live, ps, most), p)
  {
    hide ProposalScore, Count, NearCarries, ProposalOutdoes, BetterProposal;
    var n := |ps| - 1;
    var before, last := ps[..n], ps[n];
    assert ps == before + [last];
    OutdoesItself(list, live, most, last);
    if n > 0 {
      BestProposalLeads(list, live, before, most);
      BestProposalOneMore(list, live, before, last, most);
      var best := BestProposal(list, live, before, most);
      hide BestProposal;
      assert best in before;
      assert forall p | p in ps :: ProposalScore(list, live, p, most) in ProposalScores(list, live, ps, most);
      forall p | p in before
        ensures BetterProposal(list, live, last, best, most) ==> ProposalOutdoes(list, live, most, last, p)
        ensures !BetterProposal(list, live, last, best, most) ==> ProposalOutdoes(list, live, most, best, last)
      {
        OutdoesOn(list, live, most, last, best, p);
      }
    }
  }

  /** The first frontier proposal belongs to an artist with the most rows left. */
  lemma FirstHasMost(list: Playlist, live: set<nat>, previous: Option<nat>, ps: seq<Proposal>)
    requires |ps| > 0 && IsFrontier(list, live, previous, ps)
    ensures IsMost(list.rows, live, Count(list.rows, live, OfArtist(ps[0].artist)))
  {
    hide Count, First, IsProposal;
    var rows := list.rows;
    var most := Count(rows, live, OfArtist(ps[0].artist));
    forall a ensures Count(rows, live, OfArtist(a)) <= most {
      if Count(rows, live, OfArtist(a)) > 0 {
        CountPositive(rows, live, OfArtist(a));
        var i :| i in live && i < |rows| && rows[i].artist == a;
        var top := TopOther(rows, live, None, ARTISTS, i);
        FewOutrankers(rows, live, None, ARTISTS, top);
        var album := ArtistInFrontier(rows, live, top);
        var k :| 0 <= k < |ps| && ps[k].artist == rows[top].artist && ps[k].album == album;
        assert Of(rows, ARTISTS, i) == OfArtist(a) && Of(rows, ARTISTS, top) == OfArtist(ps[k].artist);
        assert k > 0 ==> Precedes(rows, live, ps[0], ps[k]);
      }
    }
  }

  ghost function LeadsOf(list: Playlist, live: set<nat>, previous: Option<nat>): (leads: map<Row, nat>)
    requires previous.Some? ==> previous.value < |list.rows|
  {
    map r | r in Contenders(list.rows, live, previous) ::
      var candidates := AlbumCandidates(list, live, r.artist, r.album);
      if |candidates| > 0 then BestRow(list, previous, candidates) else 0
  }

  lemma ProposalsAreLeads(list: Playlist, live: set<nat>, previous: Option<nat>, ps: seq<Proposal>)
    requires IsFrontier(list, live, previous, ps)
    ensures forall p | p in ps :: IsProposal(list, live, previous, p) && p.row < |list.rows| && list.rows[p.row] == AlbumOf(p)
                                  && IsLead(list, live, previous, p.row) && p.transition == list.transition(previous, p.row)
  {
    hide IsProposal, InFrontier, Precedes, IsLead;
    forall p | p in ps
      ensures IsProposal(list, live, previous, p) && p.row < |list.rows| && list.rows[p.row] == AlbumOf(p)
        && IsLead(list, live, previous, p.row) && p.transition == list.transition(previous, p.row)
    {
      ProposalIsLead(list, live, previous, p);
    }
  }

  lemma LeadIsProposed(list: Playlist, live: set<nat>, previous: Option<nat>, p: Proposal)
    requires previous.Some? ==> previous.value < |list.rows|
    requires IsProposal(list, live, previous, p) && AlbumOf(p) in Contenders(list.rows, live, previous)
    ensures LeadsOf(list, live, previous)[AlbumOf(p)] == p.row
  {
    hide Contenders, BestRow, AlbumCandidates;
  }

  /** The eligible proposals and the leads are the same rows. */
  lemma LeadsAreProposals(list: Playlist, live: set<nat>, previous: Option<nat>, ps: seq<Proposal>)
    requires (previous.Some? ==> previous.value < |list.rows|) && IsFrontier(list, live, previous, ps)
    ensures var e, leads := Eligible(list, live, previous, ps), LeadsOf(list, live, previous);
      && LeadContenders(list, live, previous, leads) && |leads| == |e|
      && (forall p | p in e :: p in ps && AlbumOf(p) in leads && leads[AlbumOf(p)] == p.row)
      && (forall r | r in leads :: exists p :: p in e && AlbumOf(p) == r)
      && (forall p | p in ps :: IsProposal(list, live, previous, p) && p.row < |list.rows| && list.rows[p.row] == AlbumOf(p)
                                && p.transition == list.transition(previous, p.row))
  {
    hide Eligible, Contenders, IsFrontier, IsProposal, IsLead;
    var e, leads := Eligible(list, live, previous, ps), LeadsOf(list, live, previous);
    assert leads.Keys == Contenders(list.rows, live, previous);
    EligibleAreContenders(list, live, previous, ps);
    ContendersCount(list, live, previous, ps);
    ProposalsAreLeads(list, live, previous, ps);
    forall p | p in e ensures AlbumOf(p) in leads && leads[AlbumOf(p)] == p.row {
      assert AlbumOf(p) in AlbumsOf(e);
      LeadIsProposed(list, live, previous, p);
    }
    hide LeadsOf;
    forall r | r in leads ensures exists p :: p in e && AlbumOf(p) == r {
      assert r in AlbumsOf(e);
    }
    assert |leads| == |leads.Keys|;
  }

  /** A step of the policy is a best placement. */
  lemma StepIsBest(list: Playlist, live: set<nat>, previous: Option<nat>, row: nat)
    requires Step(list, live, previous, row)
    ensures BestPlacement(list, live, previous, row)
  {
    hide Step, IsFrontier, IsProposal, Eligible, BestProposal, LeadContenders, Wins, IsMost, LeadsOf;
    var ps, chosen, most := StepDecision(list, live, previous, row);
    FirstHasMost(list, live, previous, ps);
    var e, leads := Eligible(list, live, previous, ps), LeadsOf(list, live, previous);
    LeadsAreProposals(list, live, previous, ps);
    WinnerIsBest(list, live, previous, e, leads, most);
  }

  lemma WinnerIsBest(list: Playlist, live: set<nat>, previous: Option<nat>, e: seq<Proposal>, leads: map<Row, nat>, most: nat)
    requires |e| > 0 && |leads| == |e| && forall r | r in leads :: leads[r] < |list.rows| && exists p :: p in e && AlbumOf(p) == r
    requires forall p | p in e :: p.row < |list.rows| && list.rows[p.row] == AlbumOf(p) && p.transition == list.transition(previous, p.row)
    requires forall p | p in e :: AlbumOf(p) in leads && leads[AlbumOf(p)] == p.row
    ensures Wins(list, live, previous, leads, most, BestProposal(list, live, e, most).row)
  {
    hide BestProposal, Merit, ProposalScore, Outdoes, TiesCarry;
    var chosen := BestProposal(list, live, e, most);
    forall p | p in e ensures ProposalScore(list, live, p, most) == Merit(list, live, previous, most, p.row) {
      ScoreIsMerit(list, live, previous, most, p);
    }
    BestProposalIsNear(list, live, e, most);
    forall r | r in leads
      ensures Merit(list, live, previous, most, chosen.row) >= Merit(list, live, previous, most, leads[r]) - |leads| as real * 0.000000001
    {
      var p :| p in e && AlbumOf(p) == r;
      var k :| 0 <= k < |e| && e[k] == p;
    }
    if TiesCarry(Merits(list, live, previous, most, leads)) {
      assert ProposalScores(list, live, e, most) == Merits(list, live, previous, most, leads);
      BestProposalLeads(list, live, e, most);
      forall r | r in leads ensures Outdoes(list, live, previous, most, chosen.row, leads[r]) {
        var p :| p in e && AlbumOf(p) == r;
        OutdoesByRow(list, live, previous, most, chosen, p);
      }
    }
  }

  lemma OutdoesByRow(list: Playlist, live: set<nat>, previous: Option<nat>, most: nat, p: Proposal, q: Proposal)
    requires p.row < |list.rows| && list.rows[p.row] == AlbumOf(p) && p.transition == list.transition(previous, p.row)
    requires q.row < |list.rows| && list.rows[q.row] == AlbumOf(q) && q.transition == list.transition(previous, q.row)
    requires ProposalOutdoes(list, live, most, p, q)
    ensures Outdoes(list, live, previous, most, p.row, q.row)
  {
    hide Merit, ProposalScore, Count;
    ScoreIsMerit(list, live, previous, most, p);
    ScoreIsMerit(list, live, previous, most, q);
  }

  // ---------- the score ----------

  /** The shares of the score, and its two directions: 0.68 for the transition, 0.24 for the artist's rows among the most that any
      artist has left, 0.08 for the album's rows among the artist's. With the last line they leave one function only. */
  lemma ScoreShares(t: real, u: real, artist: nat, album: nat, artist': nat, album': nat, most: nat)
    requires artist > 0 && artist' > 0 && most > 0
    ensures Score(Contrast, t, artist, album, most) == Score(Smooth, 1.0 - t, artist, album, most)
    ensures Score(Smooth, t, artist, album, most) - Score(Smooth, u, artist, album, most) == 0.68 * (t - u)
    ensures (Score(Smooth, t, artist, album, most) - Score(Smooth, t, artist, album', most)) * artist as real
      == 0.08 * (album as real - album' as real)
    ensures (Score(Smooth, t, artist, artist, most) - Score(Smooth, t, artist', artist', most)) * most as real
      == 0.24 * (artist as real - artist' as real)
    ensures Score(Smooth, 1.0, most, most, most) == 1.0
  {
    Quotient(album, artist);
    Quotient(album', artist);
    Quotient(artist, most);
    Quotient(artist', most);
    Quotient(artist, artist);
    Quotient(artist', artist');
    Quotient(most, most);
  }

  /** Where nothing is left there is nothing to be urgent about. */
  lemma ScoreWithoutRows(t: real, artist: nat, album: nat, most: nat)
    ensures Score(Smooth, t, 0, album, most) == 0.68 * t
    ensures artist > 0 ==> Score(Smooth, t, artist, artist, 0) == 0.68 * t + 0.08
  {
    if artist > 0 { Quotient(artist, artist); }
  }

  /** Every place of a policy sequence is a best placement. */
  lemma SequenceIsBest(list: Playlist, order: seq<nat>)
    requires FollowsPolicy(list, order)
    ensures forall k | 0 <= k < |order| :: BestPlacement(list, Remaining(list, order[..k]), Last(order[..k]), order[k])
  {
    hide Step, FollowsPolicy, BestPlacement, Remaining, Last;
    forall k | 0 <= k < |order| ensures BestPlacement(list, Remaining(list, order[..k]), Last(order[..k]), order[k]) {
      StepAt(list, order, k);
      StepIsBest(list, Remaining(list, order[..k]), Last(order[..k]), order[k]);
    }
  }
}
