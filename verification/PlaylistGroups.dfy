/** Who a playlist row belongs to: identity keys, groups of rows, and how groups rank while rows are consumed. */
module PlaylistGroups {
  import opened Collections
  import opened PriorityHeap

  datatype Key = ById(id: string) | ByName(name: string) | Unknown(sourceIndex: nat)

  /** A row's identity; a row without id and label shares its key with no other row. */
  function IdentityKey(id: string, name: string, sourceIndex: nat): Key {
    if id != "" then ById(id) else if name != "" then ByName(name) else Unknown(sourceIndex)
  }

  datatype Row = Row(artist: Key, album: Key)

  /** All rows of an artist, of an album key, or of one album within one artist. */
  datatype Group = OfArtist(artist: Key) | OfAlbum(album: Key) | OfArtistAlbum(artist: Key, album: Key)

  const ARTISTS := OfArtist(Unknown(0))
  const ALBUMS := OfAlbum(Unknown(0))

  /** The artist or album group of a key; kind only names the kind. */
  function GroupFor(kind: Group, key: Key): Group {
    if kind.OfArtist? then OfArtist(key) else OfAlbum(key)
  }

  predicate Belongs(r: Row, g: Group) {
    match g
    case OfArtist(a) => r.artist == a
    case OfAlbum(b) => r.album == b
    case OfArtistAlbum(a, b) => r.artist == a && r.album == b
  }

  predicate SameKind(g: Group, h: Group) {
    g.OfArtist? == h.OfArtist? && g.OfAlbum? == h.OfAlbum?
  }

  /** The group of g's kind that holds r. */
  function Peer(r: Row, g: Group): Group {
    match g
    case OfArtist(_) => OfArtist(r.artist)
    case OfAlbum(_) => OfAlbum(r.album)
    case OfArtistAlbum(a, _) => OfArtistAlbum(a, r.album)
  }

  /** An artist's albums are ranked among that artist's rows only. */
  predicate Comparable(r: Row, g: Group) {
    g.OfArtistAlbum? ==> r.artist == g.artist
  }

  function AllRows(rows: seq<Row>): set<nat> {
    set i: nat {:trigger rows[i]} | i < |rows|
  }

  function Members(rows: seq<Row>, live: set<nat>, g: Group): set<nat> {
    set i | i in live && i < |rows| && Belongs(rows[i], g)
  }

  function Count(rows: seq<Row>, live: set<nat>, g: Group): nat {
    |Members(rows, live, g)|
  }

  /** The source positions of g's rows, ascending. */
  function Positions(rows: seq<Row>, g: Group): (r: seq<nat>)
    ensures forall i | i in r :: i < |rows| && Belongs(rows[i], g)
    ensures forall i: nat | i < |rows| && Belongs(rows[i], g) :: i in r
    ensures forall j, k | 0 <= j < k < |r| :: r[j] < r[k]
  {
    if |rows| == 0 then []
    else
      var last := |rows| - 1;
      var before := Positions(rows[..last], g);
      assert forall j | 0 <= j < |before| :: before[j] in before;
      assert forall i | i in before :: rows[..last][i] == rows[i];
      assert forall i: nat | i < last :: rows[..last][i] == rows[i];
      before + (if Belongs(rows[last], g) then [last] else [])
  }

  /** The first source position of a group, over the whole playlist. */
  function First(rows: seq<Row>, g: Group): nat {
    var p := Positions(rows, g);
    if |p| > 0 then p[0] else |rows|
  }

  function GroupRank(rows: seq<Row>, live: set<nat>, g: Group): Rank {
    Rank(Count(rows, live, g), First(rows, g))
  }

  /** The groups of g's kind that still have a live row. */
  function Peers(rows: seq<Row>, live: set<nat>, g: Group): set<Group> {
    set i | i in live && i < |rows| && Comparable(rows[i], g) :: Peer(rows[i], g)
  }

  function Outrankers(rows: seq<Row>, live: set<nat>, g: Group): set<Group> {
    set h | h in Peers(rows, live, g) && Higher(GroupRank(rows, live, h), GroupRank(rows, live, g))
  }

  lemma FirstIsMember(rows: seq<Row>, g: Group, i: nat)
    requires i < |rows| && Belongs(rows[i], g)
    ensures First(rows, g) <= i && First(rows, g) < |rows| && Belongs(rows[First(rows, g)], g)
  {
    var p := Positions(rows, g);
    assert i in p;
  }

  lemma CountPositive(rows: seq<Row>, live: set<nat>, g: Group)
    ensures Count(rows, live, g) > 0 <==> exists i :: i in live && i < |rows| && Belongs(rows[i], g)
  {
    if Count(rows, live, g) > 0 {
      var i :| i in Members(rows, live, g);
    } else {
      assert Members(rows, live, g) == {};
      assert forall i | i in live && i < |rows| && Belongs(rows[i], g) :: i in Members(rows, live, g);
    }
  }

  /** Removing one live row lowers exactly the groups that hold it. */
  lemma CountAfter(rows: seq<Row>, live: set<nat>, g: Group, c: nat)
    requires c in live && c < |rows|
    ensures Count(rows, live - {c}, g) == Count(rows, live, g) - (if Belongs(rows[c], g) then 1 else 0)
  {
    if Belongs(rows[c], g) {
      assert Members(rows, live - {c}, g) == Members(rows, live, g) - {c};
      assert c in Members(rows, live, g);
    } else {
      assert Members(rows, live - {c}, g) == Members(rows, live, g);
    }
  }

  /** Two different groups of one kind share no row. */
  lemma CountDisjoint(rows: seq<Row>, live: set<nat>, g: Group, h: Group)
    requires g != h && SameKind(g, h)
    ensures Count(rows, live, g) + Count(rows, live, h) <= |live|
  {
    DisjointCardinality(Members(rows, live, g), Members(rows, live, h), live);
  }

  /** Ranks separate the groups of one kind, so every order below is total. */
  lemma RankSeparates(rows: seq<Row>, live: set<nat>, g: Group, h: Group, i: nat, j: nat)
    requires i < |rows| && j < |rows| && Belongs(rows[i], g) && Belongs(rows[j], h)
    requires g != h && SameKind(g, h)
    ensures First(rows, g) != First(rows, h)
    ensures Higher(GroupRank(rows, live, g), GroupRank(rows, live, h))
         != Higher(GroupRank(rows, live, h), GroupRank(rows, live, g))
  {
    FirstIsMember(rows, g, i);
    FirstIsMember(rows, h, j);
  }

  /** A non-empty set of groups has a member that no other member outranks. */
  lemma {:induction false} TopGroup(rows: seq<Row>, live: set<nat>, groups: set<Group>) returns (top: Group)
    requires groups != {}
    ensures top in groups
    ensures forall h | h in groups :: !Higher(GroupRank(rows, live, h), GroupRank(rows, live, top))
  {
    var g :| g in groups;
    if groups == {g} {
      top := g;
    } else {
      var rest := TopGroup(rows, live, groups - {g});
      top := if Higher(GroupRank(rows, live, g), GroupRank(rows, live, rest)) then g else rest;
    }
  }

  lemma PeersByCount(rows: seq<Row>, live: set<nat>, g: Group, h: Group)
    requires g.OfArtist? || g.OfAlbum?
    ensures h in Peers(rows, live, g) <==> SameKind(g, h) && Count(rows, live, h) > 0
  {
    CountPositive(rows, live, h);
    if SameKind(g, h) && Count(rows, live, h) > 0 {
      var i :| i in live && i < |rows| && Belongs(rows[i], h);
      assert Comparable(rows[i], g) && Peer(rows[i], g) == h;
    }
  }

  /** keys are the leading groups of their kind, best first; a live group is missing only if limit others lead it. */
  ghost predicate Leading(rows: seq<Row>, live: set<nat>, kind: Group, keys: seq<Key>, limit: nat) {
    && |keys| <= limit
    && (forall b | b in keys :: Count(rows, live, GroupFor(kind, b)) > 0)
    && (forall i, j | 0 <= i < j < |keys| ::
          Higher(GroupRank(rows, live, GroupFor(kind, keys[i])), GroupRank(rows, live, GroupFor(kind, keys[j]))))
    && (forall b :: Count(rows, live, GroupFor(kind, b)) > 0 && b !in keys ==>
          |keys| == limit
          && forall i | 0 <= i < |keys| ::
               Higher(GroupRank(rows, live, GroupFor(kind, keys[i])), GroupRank(rows, live, GroupFor(kind, b))))
  }

  /** The count of the first leading group other than the selected one, or zero. */
  ghost function FirstOtherCount(rows: seq<Row>, live: set<nat>, kind: Group, keys: seq<Key>, selected: Key): nat {
    if |keys| == 0 then 0
    else if keys[0] != selected then Count(rows, live, GroupFor(kind, keys[0]))
    else FirstOtherCount(rows, live, kind, keys[1..], selected)
  }

  /** With two leaders known, that count is the maximum over all other groups of the kind. */
  lemma FirstOtherIsMaximum(rows: seq<Row>, live: set<nat>, kind: Group, keys: seq<Key>, limit: nat, selected: Key)
    requires Leading(rows, live, kind, keys, limit) && limit >= 2
    ensures forall b :: b != selected ==> Count(rows, live, GroupFor(kind, b)) <= FirstOtherCount(rows, live, kind, keys, selected)
    ensures FirstOtherCount(rows, live, kind, keys, selected) == 0
      || exists b :: b != selected && Count(rows, live, GroupFor(kind, b)) == FirstOtherCount(rows, live, kind, keys, selected)
  {
    hide Count;
    if |keys| >= 2 && keys[0] == selected {
      assert keys[1..][0] == keys[1] && keys[1] in keys && keys[1] != selected;
      assert FirstOtherCount(rows, live, kind, keys, selected) == Count(rows, live, GroupFor(kind, keys[1]));
    } else if |keys| == 1 && keys[0] == selected {
      assert FirstOtherCount(rows, live, kind, keys[1..], selected) == 0;
    }
  }
}
