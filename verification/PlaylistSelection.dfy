/** Exact-size selection from a ranked pool under a progressive artist cap: which rows win, and why no cap could be lower. */
module PlaylistSelection {
  import opened Collections

  /** A row's artist; a row whose artist has no usable name shares its key with no other row. */
  datatype ArtistKey = Named(name: string) | Unnamed(index: nat)

  function Rows(keys: seq<ArtistKey>): set<nat> {
    set i: nat {:trigger keys[i]} | i < |keys|
  }

  function By(keys: seq<ArtistKey>, rows: set<nat>, artist: ArtistKey): set<nat> {
    set i | i in rows && i < |keys| && keys[i] == artist
  }

  function CountBy(keys: seq<ArtistKey>, rows: set<nat>, artist: ArtistKey): nat {
    |By(keys, rows, artist)|
  }

  ghost predicate Within(keys: seq<ArtistKey>, rows: set<nat>, cap: nat) {
    forall a :: CountBy(keys, rows, a) <= cap
  }

  /** The position of a row among its artist's rows, counting from one. */
  function Level(keys: seq<ArtistKey>, i: nat): nat
    requires i < |keys|
  {
    CountBy(keys, Upto(i), keys[i]) + 1
  }

  // ---------- which rows are chosen ----------

  /** The first row of a named artist. */
  predicate Opens(keys: seq<ArtistKey>, i: nat) {
    i < |keys| && keys[i].Named? && Level(keys, i) == 1
  }

  function Openers(keys: seq<ArtistKey>, n: nat): set<nat> {
    set i | i in Upto(n) && Opens(keys, i)
  }

  function SeedsUpto(keys: seq<ArtistKey>, minimum: nat, n: nat): set<nat> {
    set i | i in Openers(keys, n) && |Openers(keys, i)| < minimum
  }

  /** The first rows of the first minimum named artists. */
  function Seeds(keys: seq<ArtistKey>, minimum: nat): set<nat> {
    SeedsUpto(keys, minimum, |keys|)
  }

  /** Seeds come first, then rows within the initial cap, then one more row per artist at a time. */
  function Tier(keys: seq<ArtistKey>, minimum: nat, initialCap: nat, i: nat): nat
    requires i < |keys|
  {
    if i in Seeds(keys, minimum) then 0
    else if Level(keys, i) <= initialCap then initialCap else Level(keys, i)
  }

  ghost predicate Before(keys: seq<ArtistKey>, minimum: nat, initialCap: nat, i: nat, j: nat)
    requires i < |keys| && j < |keys|
  {
    var tierOfI, tierOfJ := Tier(keys, minimum, initialCap, i), Tier(keys, minimum, initialCap, j);
    tierOfI < tierOfJ || (tierOfI == tierOfJ && i < j)
  }

  /** chosen is the first limit rows by tier, then rank. */
  ghost predicate IsSelection(keys: seq<ArtistKey>, minimum: nat, initialCap: nat, limit: nat, chosen: set<nat>) {
    && chosen <= Rows(keys)
    && |chosen| == limit
    && forall i, j | i in chosen && j in Rows(keys) && j !in chosen :: Before(keys, minimum, initialCap, i, j)
  }

  // ---------- what that means ----------

  lemma MustPrecede(keys: seq<ArtistKey>, minimum: nat, initialCap: nat, limit: nat, chosen: set<nat>, i: nat, j: nat)
    requires IsSelection(keys, minimum, initialCap, limit, chosen)
    requires i in chosen && j < |keys| && j !in chosen
    ensures i < |keys| && Before(keys, minimum, initialCap, i, j)
  {
  }

  lemma SelectionUnique(keys: seq<ArtistKey>, minimum: nat, initialCap: nat, limit: nat, s: set<nat>, t: set<nat>)
    requires IsSelection(keys, minimum, initialCap, limit, s) && IsSelection(keys, minimum, initialCap, limit, t)
    ensures s == t
  {
    hide Tier;
    if i :| i in s && i !in t {
      if t - s == {} {
        SubsetCardinality(t, s - {i});
        assert false;
      }
      var j :| j in t && j !in s;
      MustPrecede(keys, minimum, initialCap, limit, s, i, j);
      MustPrecede(keys, minimum, initialCap, limit, t, j, i);
      assert false;
    }
    SubsetCardinality(s, t);
  }

  lemma LevelsRise(keys: seq<ArtistKey>, i: nat, j: nat)
    requires i < j < |keys| && keys[i] == keys[j]
    ensures Level(keys, i) < Level(keys, j)
  {
    hide Upto;
    var a := keys[i];
    SubsetCardinality(By(keys, Upto(i), a) + {i}, By(keys, Upto(j), a));
  }

  /** An artist's chosen rows are the artist's best ranked ones. */
  lemma ChosenRowsArePrefix(keys: seq<ArtistKey>, minimum: nat, initialCap: nat, limit: nat, chosen: set<nat>, i: nat, j: nat)
    requires IsSelection(keys, minimum, initialCap, limit, chosen)
    requires i < j < |keys| && keys[i] == keys[j] && j in chosen
    ensures i in chosen
  {
    LevelsRise(keys, i, j);
    if i !in chosen {
      MustPrecede(keys, minimum, initialCap, limit, chosen, j, i);
      assert false;
    }
  }

  function Low(keys: seq<ArtistKey>, n: nat, a: ArtistKey, cap: nat): set<nat> {
    set j | j in By(keys, Upto(n), a) && Level(keys, j) <= cap
  }

  lemma ByGrows(keys: seq<ArtistKey>, n: nat, a: ArtistKey)
    requires n < |keys|
    ensures By(keys, Upto(n + 1), a) == By(keys, Upto(n), a) + (if keys[n] == a then {n} else {})
    ensures CountBy(keys, Upto(n + 1), a) == CountBy(keys, Upto(n), a) + (if keys[n] == a then 1 else 0)
  {
    hide Upto;
    GrowByOne(By(keys, Upto(n), a), n, By(keys, Upto(n + 1), a), keys[n] == a);
  }

  lemma LowGrows(keys: seq<ArtistKey>, n: nat, a: ArtistKey, cap: nat)
    requires n < |keys|
    ensures |Low(keys, n + 1, a, cap)| == |Low(keys, n, a, cap)| + (if keys[n] == a && Level(keys, n) <= cap then 1 else 0)
  {
    hide Level, Upto;
    GrowByOne(Low(keys, n, a, cap), n, Low(keys, n + 1, a, cap), keys[n] == a && Level(keys, n) <= cap);
  }

  lemma NothingLow(keys: seq<ArtistKey>, a: ArtistKey, cap: nat)
    ensures |Low(keys, 0, a, cap)| == 0 && CountBy(keys, Upto(0), a) == 0
  {
    assert Low(keys, 0, a, cap) == {} && By(keys, Upto(0), a) == {};
  }

  /** Of an artist's first rows, exactly as many as the cap allows have a level within it. */
  lemma {:induction false} RowsWithinLevel(keys: seq<ArtistKey>, n: nat, a: ArtistKey, cap: nat)
    requires n <= |keys|
    ensures |Low(keys, n, a, cap)| == if CountBy(keys, Upto(n), a) <= cap then CountBy(keys, Upto(n), a) else cap
  {
    hide Low, By, CountBy, Upto;
    if n == 0 {
      NothingLow(keys, a, cap);
    } else {
      RowsWithinLevel(keys, n - 1, a, cap);
      ByGrows(keys, n - 1, a);
      LowGrows(keys, n - 1, a, cap);
    }
  }

  /** A set with at most as many rows of every artist has at most as many rows. */
  lemma {:induction false} FewerOfEach(keys: seq<ArtistKey>, s: set<nat>, t: set<nat>)
    requires s <= Rows(keys) && t <= Rows(keys)
    requires forall a :: CountBy(keys, s, a) <= CountBy(keys, t, a)
    ensures |s| <= |t|
    decreases |s|
  {
    if s != {} {
      var i :| i in s;
      var a := keys[i];
      var s', t' := s - By(keys, s, a), t - By(keys, t, a);
      forall b ensures CountBy(keys, s', b) <= CountBy(keys, t', b) {
        assert By(keys, s', b) == if b == a then {} else By(keys, s, b);
        assert By(keys, t', b) == if b == a then {} else By(keys, t, b);
        assert CountBy(keys, s, b) <= CountBy(keys, t, b);
      }
      assert i in By(keys, s, a);
      FewerOfEach(keys, s', t');
      assert |s| == |s'| + CountBy(keys, s, a) && |t| == |t'| + CountBy(keys, t, a);
    }
  }

  /** An artist over the cap has a chosen row at a level over the cap. */
  lemma OverCap(keys: seq<ArtistKey>, chosen: set<nat>, a: ArtistKey, cap: nat) returns (i: nat)
    requires chosen <= Rows(keys) && CountBy(keys, chosen, a) > cap
    ensures i in chosen && keys[i] == a && Level(keys, i) > cap
  {
    hide Upto;
    var low := Low(keys, |keys|, a, cap);
    RowsWithinLevel(keys, |keys|, a, cap);
    if By(keys, chosen, a) <= low {
      SubsetCardinality(By(keys, chosen, a), low);
      assert false;
    }
    i :| i in By(keys, chosen, a) && i !in low;
  }

  /** Once a row above level cap is chosen, every row at or below it is. */
  lemma LowLevelsChosen(keys: seq<ArtistKey>, minimum: nat, initialCap: nat, limit: nat, chosen: set<nat>, i: nat, cap: nat)
    requires IsSelection(keys, minimum, initialCap, limit, chosen)
    requires 1 <= initialCap <= cap && i in chosen && Level(keys, i) > cap
    ensures forall j | j in Rows(keys) && Level(keys, j) <= cap :: j in chosen
  {
    hide Upto;
    forall j | j in Rows(keys) && Level(keys, j) <= cap ensures j in chosen {
      if j !in chosen {
        MustPrecede(keys, minimum, initialCap, limit, chosen, i, j);
        assert false;
      }
    }
  }

  /** The artist that is over the cap, and everyone else up to the cap: more rows than any selection within the cap. */
  lemma CapTooLow(keys: seq<ArtistKey>, chosen: set<nat>, other: set<nat>, cap: nat, a: ArtistKey)
    requires chosen <= Rows(keys) && other <= Rows(keys) && Within(keys, other, cap)
    requires forall j | j in Rows(keys) && Level(keys, j) <= cap :: j in chosen
    requires CountBy(keys, chosen, a) > cap
    ensures |other| < |chosen|
  {
    forall b ensures CountBy(keys, other, b) <= CountBy(keys, chosen, b) {
      var low := Low(keys, |keys|, b, cap);
      RowsWithinLevel(keys, |keys|, b, cap);
      SubsetCardinality(low, By(keys, chosen, b));
      SubsetCardinality(By(keys, other, b), By(keys, Upto(|keys|), b));
    }
    var own := By(keys, chosen, a);
    var i :| i in own;
    var less := chosen - {i};
    forall b ensures CountBy(keys, other, b) <= CountBy(keys, less, b) {
      assert CountBy(keys, other, b) <= cap;
      assert By(keys, less, b) == if b == a then own - {i} else By(keys, chosen, b);
    }
    FewerOfEach(keys, other, less);
  }

  /** Optimality: beyond the initial cap, no choice of as many rows has a smaller largest artist count. */
  lemma CapIsLowest(keys: seq<ArtistKey>, minimum: nat, initialCap: nat, limit: nat, chosen: set<nat>, other: set<nat>, cap: nat)
    requires initialCap >= 1 && IsSelection(keys, minimum, initialCap, limit, chosen)
    requires other <= Rows(keys) && |other| == limit && Within(keys, other, cap)
    ensures Within(keys, chosen, if cap > initialCap then cap else initialCap)
  {
    hide IsSelection;
    var most := if cap > initialCap then cap else initialCap;
    forall a ensures CountBy(keys, chosen, a) <= most {
      if CountBy(keys, chosen, a) > most {
        SelectionParts(keys, minimum, initialCap, limit, chosen);
        var i := OverCap(keys, chosen, a, most);
        LowLevelsChosen(keys, minimum, initialCap, limit, chosen, i, most);
        CapTooLow(keys, chosen, other, most, a);
        assert false;
      }
    }
  }

  lemma SelectionParts(keys: seq<ArtistKey>, minimum: nat, initialCap: nat, limit: nat, chosen: set<nat>)
    requires IsSelection(keys, minimum, initialCap, limit, chosen)
    ensures chosen <= Rows(keys) && |chosen| == limit
  {
  }

  // ---------- distinct artists ----------

  function NamedArtists(keys: seq<ArtistKey>, rows: set<nat>): set<ArtistKey> {
    set i | i in rows && i < |keys| && keys[i].Named? :: keys[i]
  }

  lemma OpenersGrow(keys: seq<ArtistKey>, n: nat)
    requires n < |keys|
    ensures Openers(keys, n + 1) == Openers(keys, n) + (if Opens(keys, n) then {n} else {})
    ensures |Openers(keys, n + 1)| == |Openers(keys, n)| + (if Opens(keys, n) then 1 else 0)
    ensures n !in Openers(keys, n)
  {
    hide Level, Upto;
    assert Openers(keys, n + 1) == Openers(keys, n) + (if Opens(keys, n) then {n} else {});
  }

  lemma NamedArtistsGrow(keys: seq<ArtistKey>, n: nat)
    requires n < |keys|
    ensures |NamedArtists(keys, Upto(n + 1))| == |NamedArtists(keys, Upto(n))| + (if Opens(keys, n) then 1 else 0)
  {
    hide Upto;
    NewArtist(keys, n);
    hide Opens;
    if Opens(keys, n) {
      assert NamedArtists(keys, Upto(n + 1)) == NamedArtists(keys, Upto(n)) + {keys[n]};
    } else {
      assert NamedArtists(keys, Upto(n + 1)) == NamedArtists(keys, Upto(n));
    }
  }

  lemma NoArtists(keys: seq<ArtistKey>, minimum: nat)
    ensures |Openers(keys, 0)| == 0 && |NamedArtists(keys, Upto(0))| == 0 && |SeedsUpto(keys, minimum, 0)| == 0
  {
    assert Openers(keys, 0) == {} && NamedArtists(keys, Upto(0)) == {} && SeedsUpto(keys, minimum, 0) == {};
  }

  /** Every named artist has an opening row; counting them counts the artists. */
  lemma {:induction false} OpenersCountArtists(keys: seq<ArtistKey>, n: nat)
    requires n <= |keys|
    ensures |Openers(keys, n)| == |NamedArtists(keys, Upto(n))|
  {
    hide Openers, NamedArtists, Upto, Opens;
    if n == 0 {
      NoArtists(keys, 0);
    } else {
      OpenersCountArtists(keys, n - 1);
      OpenersGrow(keys, n - 1);
      NamedArtistsGrow(keys, n - 1);
    }
  }

  lemma NewArtist(keys: seq<ArtistKey>, i: nat)
    requires i < |keys|
    ensures Opens(keys, i) <==> keys[i].Named? && keys[i] !in NamedArtists(keys, Upto(i))
  {
    hide Upto;
    if keys[i] in NamedArtists(keys, Upto(i)) {
      var j :| j in Upto(i) && keys[j] == keys[i];
      assert j in By(keys, Upto(i), keys[i]);
    } else if keys[i].Named? {
      assert By(keys, Upto(i), keys[i]) == {};
    }
  }

  lemma {:induction false} SeedsCount(keys: seq<ArtistKey>, minimum: nat, n: nat)
    requires n <= |keys|
    ensures |SeedsUpto(keys, minimum, n)| == if |Openers(keys, n)| <= minimum then |Openers(keys, n)| else minimum
  {
    hide Openers, SeedsUpto, Opens;
    if n == 0 {
      NoArtists(keys, minimum);
    } else {
      SeedsCount(keys, minimum, n - 1);
      SeedsGrow(keys, minimum, n - 1);
      OpenersGrow(keys, n - 1);
    }
  }

  lemma SeedsGrow(keys: seq<ArtistKey>, minimum: nat, n: nat)
    requires n < |keys|
    ensures SeedsUpto(keys, minimum, n + 1) ==
      SeedsUpto(keys, minimum, n) + (if Opens(keys, n) && |Openers(keys, n)| < minimum then {n} else {})
    ensures |SeedsUpto(keys, minimum, n + 1)| ==
      |SeedsUpto(keys, minimum, n)| + (if Opens(keys, n) && |Openers(keys, n)| < minimum then 1 else 0)
  {
    hide Opens;
    OpenersGrow(keys, n);
    GrowByOne(SeedsUpto(keys, minimum, n), n, SeedsUpto(keys, minimum, n + 1), Opens(keys, n) && |Openers(keys, n)| < minimum);
  }

  lemma SeedIsRow(keys: seq<ArtistKey>, minimum: nat, i: nat)
    requires i in Seeds(keys, minimum)
    ensures Opens(keys, i)
  {
  }

  lemma SeedsChosen(keys: seq<ArtistKey>, minimum: nat, initialCap: nat, limit: nat, chosen: set<nat>)
    requires initialCap >= 1 && minimum <= limit
    requires IsSelection(keys, minimum, initialCap, limit, chosen)
    ensures Seeds(keys, minimum) <= chosen
  {
    hide Upto, Level, Opens, Openers;
    SeedsCount(keys, minimum, |keys|);
    hide IsSelection, SeedsUpto;
    if j :| j in Seeds(keys, minimum) && j !in chosen {
      SeedIsRow(keys, minimum, j);
      SelectionParts(keys, minimum, initialCap, limit, chosen);
      forall i | i in chosen ensures i in Seeds(keys, minimum) - {j} {
        MustPrecede(keys, minimum, initialCap, limit, chosen, i, j);
        hide Level;
      }
      SubsetCardinality(chosen, Seeds(keys, minimum) - {j});
      assert false;
    }
  }

  lemma {:induction false} DistinctOpeners(keys: seq<ArtistKey>, seeds: set<nat>)
    requires forall i | i in seeds :: Opens(keys, i)
    ensures |NamedArtists(keys, seeds)| == |seeds|
  {
    if seeds == {} {
      assert NamedArtists(keys, seeds) == {};
    } else {
      var i :| i in seeds;
      DistinctOpeners(keys, seeds - {i});
      forall j | j in seeds - {i} ensures keys[j] != keys[i] {
        OpenersApart(keys, i, j);
      }
      hide Opens;
      assert NamedArtists(keys, seeds) == NamedArtists(keys, seeds - {i}) + {keys[i]};
    }
  }

  lemma OpenersApart(keys: seq<ArtistKey>, i: nat, j: nat)
    requires Opens(keys, i) && Opens(keys, j) && i != j
    ensures keys[i] != keys[j]
  {
    if keys[i] == keys[j] {
      LevelsRise(keys, if i < j then i else j, if i < j then j else i);
    }
  }

  /** The breadth goal: as many distinct artists as asked for, or all that the pool has. */
  lemma EnoughArtists(keys: seq<ArtistKey>, minimum: nat, initialCap: nat, limit: nat, chosen: set<nat>)
    requires initialCap >= 1 && minimum <= limit
    requires IsSelection(keys, minimum, initialCap, limit, chosen)
    ensures |NamedArtists(keys, chosen)| >= minimum || NamedArtists(keys, chosen) == NamedArtists(keys, Rows(keys))
  {
    SeedsChosen(keys, minimum, initialCap, limit, chosen);
    SeedsCount(keys, minimum, |keys|);
    OpenersCountArtists(keys, |keys|);
    DistinctOpeners(keys, Seeds(keys, minimum));
    assert Upto(|keys|) == Rows(keys);
    SubsetCardinality(NamedArtists(keys, Seeds(keys, minimum)), NamedArtists(keys, chosen));
    assert NamedArtists(keys, chosen) <= NamedArtists(keys, Rows(keys));
    if |NamedArtists(keys, chosen)| < minimum {
      SubsetCardinality(NamedArtists(keys, chosen), NamedArtists(keys, Rows(keys)));
    }
  }
}
