/** What the options promise about the chosen rows, stated on names, counts and ranks. */
module SelectionOutcomes {
  import opened Collections
  import opened PlaylistSelection
  import opened SelectionOptions

  /** size is the whole part of what was asked for, between nothing and all count rows. */
  predicate RightSize(count: nat, maximumTracks: Number, size: nat) {
    match maximumTracks
    case NotFinite => size == count
    case Finite(x) =>
      && size <= count
      && (x < 0.0 ==> size == 0)
      && (x > count as real ==> size == count)
      && (0.0 <= x <= count as real ==> size as real <= x < size as real + 1.0)
  }

  /** The ranks of s in ascending order. */
  ghost predicate Lists(ranks: seq<nat>, s: set<nat>) {
    Climbs(ranks) && forall i: nat :: i in ranks <==> i in s
  }

  /** part holds the rows of s and nothing else, best rank first. */
  ghost predicate IsPart<T>(rows: seq<T>, s: set<nat>, part: seq<T>) {
    exists ranks: seq<nat> :: Lists(ranks, s) && |ranks| == |part| && forall k | 0 <= k < |part| :: ranks[k] < |rows| && part[k] == rows[ranks[k]]
  }

  /** The rows of an artist among s. */
  function RowsBy<T>(rows: seq<RankedRow<T>>, normalize: string -> string, s: set<nat>, name: string): set<nat> {
    set i | i in s && i < |rows| && normalize(rows[i].artist) == name
  }

  /** The artists of s; a row whose artist normalises to nothing has none. */
  function NamesOf<T>(rows: seq<RankedRow<T>>, normalize: string -> string, s: set<nat>): set<string> {
    set i | i in s && i < |rows| && normalize(rows[i].artist) != "" :: normalize(rows[i].artist)
  }

  /** Breadth: as many artists as asked for, or one for each row, or every artist of the pool. */
  ghost predicate IsBroad<T>(rows: seq<RankedRow<T>>, normalize: string -> string, options: Options, chosen: set<nat>) {
    forall x | options.minimumDistinctArtists == Some(Finite(x)) ::
      || x < |NamesOf(rows, normalize, chosen)| as real + 1.0
      || |NamesOf(rows, normalize, chosen)| == |chosen|
      || NamesOf(rows, normalize, chosen) == NamesOf(rows, normalize, Upto(|rows|))
  }

  /** The share of the playlist that one artist may fill at first. */
  predicate ShareIs(options: Options, share: real) {
    match options.maximumInitialArtistShare
    case Some(Finite(x)) =>
      0.01 <= share <= 1.0 && (x < 0.01 ==> share == 0.01) && (x > 1.0 ==> share == 1.0) && (0.01 <= x <= 1.0 ==> share == x)
    case _ => share == 0.15
  }

  /** count rows are at least this share of size rows. */
  predicate FillsShare(count: nat, size: nat, share: real) {
    count as real >= size as real * share
  }

  /** When some artist has c rows, more than one and more than its share, no other choice of as many rows gives every artist fewer. */
  ghost predicate NoLowerCap<T>(rows: seq<RankedRow<T>>, normalize: string -> string, options: Options, chosen: set<nat>) {
    forall share, name, other: set<nat> |
      && ShareIs(options, share) && name != "" && other <= Upto(|rows|) && |other| == |chosen|
      && |RowsBy(rows, normalize, chosen, name)| > 1
      && FillsShare(|RowsBy(rows, normalize, chosen, name)| - 1, |chosen|, share) ::
      exists rival :: rival != "" && |RowsBy(rows, normalize, other, rival)| >= |RowsBy(rows, normalize, chosen, name)|
  }

  /** A better ranked row is passed over although its artist has not filled its share. */
  ghost predicate Jumps<T>(rows: seq<RankedRow<T>>, normalize: string -> string, share: real, chosen: set<nat>, j: nat) {
    && j in chosen
    && exists i: nat ::
         && i < j && i < |rows| && i !in chosen
         && (normalize(rows[i].artist) != "" ==>
               !FillsShare(|RowsBy(rows, normalize, chosen, normalize(rows[i].artist))|, |chosen|, share)
               || |RowsBy(rows, normalize, chosen, normalize(rows[i].artist))| == 0)
  }

  /** Rows jump ahead for breadth only: no more of them than artists were asked for. */
  ghost predicate FewJumps<T>(rows: seq<RankedRow<T>>, normalize: string -> string, options: Options, chosen: set<nat>) {
    forall share | ShareIs(options, share) ::
      var jumps := set j | j in chosen && Jumps(rows, normalize, share, chosen, j);
      match options.minimumDistinctArtists
      case Some(Finite(x)) => jumps == {} || |jumps| as real <= x
      case _ => jumps == {}
  }

  /** A whole number is met exactly, as far as the pool goes. */
  lemma WholeRequest(count: nat, n: nat, size: nat)
    ensures RightSize(count, Finite(n as real), size) <==> size == if n <= count then n else count
  {
  }

  lemma LimitIsRight(count: nat, maximumTracks: Number)
    ensures RightSize(count, maximumTracks, Limit(count, maximumTracks))
  {
  }

  // ---------- names and keys ----------

  lemma KeysByName<T>(rows: seq<RankedRow<T>>, normalize: string -> string, s: set<nat>, name: string)
    requires name != ""
    ensures By(KeysOf(rows, normalize), s, Named(name)) == RowsBy(rows, normalize, s, name)
  {
  }

  lemma NamesAreArtists<T>(rows: seq<RankedRow<T>>, normalize: string -> string, s: set<nat>)
    ensures var keys := KeysOf(rows, normalize);
      && |NamesOf(rows, normalize, s)| == |NamedArtists(keys, s)|
      && forall name :: name in NamesOf(rows, normalize, s) <==> Named(name) in NamedArtists(keys, s)
  {
    var keys := KeysOf(rows, normalize);
    var names, artists := NamesOf(rows, normalize, s), NamedArtists(keys, s);
    forall name ensures name in names <==> Named(name) in artists {
      if name in names {
        var i :| i in s && i < |rows| && normalize(rows[i].artist) != "" && normalize(rows[i].artist) == name;
        assert keys[i] == Named(name);
      }
      if Named(name) in artists {
        var i :| i in s && i < |keys| && keys[i].Named? && keys[i] == Named(name);
        assert normalize(rows[i].artist) == name;
      }
    }
    NamedCardinality(names, artists);
  }

  lemma {:induction false} NamedCardinality(names: set<string>, artists: set<ArtistKey>)
    requires forall a | a in artists :: a.Named?
    requires forall name :: name in names <==> Named(name) in artists
    ensures |names| == |artists|
    decreases artists
  {
    if artists == {} {
      assert forall name | name in names :: Named(name) in artists;
      assert names == {};
    } else {
      var a :| a in artists;
      NamedCardinality(names - {a.name}, artists - {a});
    }
  }

  // ---------- breadth ----------

  lemma SelectionIsBroad<T>(rows: seq<RankedRow<T>>, normalize: string -> string, options: Options, limit: nat, chosen: set<nat>)
    requires limit >= 1
    requires IsSelection(KeysOf(rows, normalize), MinimumArtists(options, limit), InitialCap(options, limit), limit, chosen)
    ensures IsBroad(rows, normalize, options, chosen)
  {
    hide IsSelection, NamesOf, NamedArtists;
    var keys := KeysOf(rows, normalize);
    EnoughArtists(keys, MinimumArtists(options, limit), InitialCap(options, limit), limit, chosen);
    SelectionParts(keys, MinimumArtists(options, limit), InitialCap(options, limit), limit, chosen);
    NamesAreArtists(rows, normalize, chosen);
    NamesAreArtists(rows, normalize, Upto(|rows|));
    NoMoreNames(rows, normalize, chosen);
    assert Rows(keys) == Upto(|rows|);
  }

  lemma {:induction false} NoMoreNames<T>(rows: seq<RankedRow<T>>, normalize: string -> string, s: set<nat>)
    ensures |NamesOf(rows, normalize, s)| <= |s|
  {
    if s == {} {
      assert NamesOf(rows, normalize, s) == {};
    } else {
      var i :| i in s;
      NoMoreNames(rows, normalize, s - {i});
      var own := if i < |rows| then {normalize(rows[i].artist)} else {};
      var rest := NamesOf(rows, normalize, s - {i});
      SubsetCardinality(NamesOf(rows, normalize, s), rest + own);
      assert |rest + own| <= |rest| + |own|;
    }
  }

  // ---------- the cap ----------

  lemma CapFromShare(options: Options, limit: nat, share: real, c: nat)
    requires ShareIs(options, share)
    ensures c >= 1 && FillsShare(c, limit, share) ==> InitialCap(options, limit) <= c
    ensures FillsShare(InitialCap(options, limit), limit, share)
  {
  }

  /** Some artist has at least as many rows in any other choice. */
  lemma RivalExists<T>(rows: seq<RankedRow<T>>, normalize: string -> string, options: Options, limit: nat, chosen: set<nat>,
                       name: string, other: set<nat>)
    requires limit >= 1 && name != "" && other <= Upto(|rows|) && |other| == |chosen|
    requires IsSelection(KeysOf(rows, normalize), MinimumArtists(options, limit), InitialCap(options, limit), limit, chosen)
    requires |RowsBy(rows, normalize, chosen, name)| > 1
    requires InitialCap(options, limit) <= |RowsBy(rows, normalize, chosen, name)| - 1
    ensures exists rival :: rival != "" && |RowsBy(rows, normalize, other, rival)| >= |RowsBy(rows, normalize, chosen, name)|
  {
    hide IsSelection, RowsBy, InitialCap, MinimumArtists, Upto;
    var keys := KeysOf(rows, normalize);
    SelectionParts(keys, MinimumArtists(options, limit), InitialCap(options, limit), limit, chosen);
    var cap := |RowsBy(rows, normalize, chosen, name)| - 1;
    KeysByName(rows, normalize, chosen, name);
    assert CountBy(keys, chosen, Named(name)) == cap + 1;
    assert Rows(keys) == Upto(|rows|);
    if Within(keys, other, cap) {
      CapIsLowest(keys, MinimumArtists(options, limit), InitialCap(options, limit), limit, chosen, other, cap);
      assert false;
    }
    var a :| CountBy(keys, other, a) > cap;
    NamedWhenMany(rows, normalize, other, a);
    KeysByName(rows, normalize, other, a.name);
  }

  lemma SelectionHasNoLowerCap<T>(rows: seq<RankedRow<T>>, normalize: string -> string, options: Options, limit: nat, chosen: set<nat>)
    requires limit >= 1
    requires IsSelection(KeysOf(rows, normalize), MinimumArtists(options, limit), InitialCap(options, limit), limit, chosen)
    ensures NoLowerCap(rows, normalize, options, chosen)
  {
    hide IsSelection, RowsBy, InitialCap, MinimumArtists, FillsShare, ShareIs, Upto;
    SelectionParts(KeysOf(rows, normalize), MinimumArtists(options, limit), InitialCap(options, limit), limit, chosen);
    forall share, name, other: set<nat> |
      && ShareIs(options, share) && name != "" && other <= Upto(|rows|) && |other| == |chosen|
      && |RowsBy(rows, normalize, chosen, name)| > 1
      && FillsShare(|RowsBy(rows, normalize, chosen, name)| - 1, |chosen|, share)
      ensures exists rival :: rival != "" && |RowsBy(rows, normalize, other, rival)| >= |RowsBy(rows, normalize, chosen, name)|
    {
      CapFromShare(options, limit, share, |RowsBy(rows, normalize, chosen, name)| - 1);
      RivalExists(rows, normalize, options, limit, chosen, name, other);
    }
  }

  /** An artist with two rows has a name. */
  lemma NamedWhenMany<T>(rows: seq<RankedRow<T>>, normalize: string -> string, s: set<nat>, a: ArtistKey)
    requires CountBy(KeysOf(rows, normalize), s, a) > 1
    ensures a.Named? && a.name != ""
  {
    var keys := KeysOf(rows, normalize);
    if a.Unnamed? {
      forall i | i in By(keys, s, a) ensures i in {a.index} {
        assert keys[i] == KeyAt(rows, normalize, i);
      }
      SubsetCardinality(By(keys, s, a), {a.index});
      assert false;
    }
    var i :| i in By(keys, s, a) by { if By(keys, s, a) == {} { assert false; } }
    assert keys[i] == KeyAt(rows, normalize, i);
  }

  /** Once a row beyond the initial cap is passed over for a worse ranked one that is no seed, its artist has filled the cap. */
  lemma PassedOverFillsCap(keys: seq<ArtistKey>, minimum: nat, initialCap: nat, limit: nat, chosen: set<nat>, i: nat, j: nat)
    requires initialCap >= 1 && IsSelection(keys, minimum, initialCap, limit, chosen)
    requires i < j && i < |keys| && i !in chosen && j in chosen && j !in Seeds(keys, minimum)
    ensures Level(keys, i) > initialCap && CountBy(keys, chosen, keys[i]) >= initialCap
  {
    hide Level, Upto, Seeds, Low;
    MustPrecede(keys, minimum, initialCap, limit, chosen, j, i);
    var a := keys[i];
    RowsWithinLevel(keys, |keys|, a, initialCap);
    var low := Low(keys, |keys|, a, initialCap);
    forall r | r in low ensures r in By(keys, chosen, a) {
      LowMember(keys, a, initialCap, r);
      if r >= i {
        if r > i { LevelsRise(keys, i, r); }
        assert false;
      }
      if r !in chosen { MustPrecede(keys, minimum, initialCap, limit, chosen, j, r); }
    }
    SubsetCardinality(low, By(keys, chosen, a));
    LevelBound(keys, i);
  }

  lemma LowMember(keys: seq<ArtistKey>, a: ArtistKey, cap: nat, r: nat)
    requires r in Low(keys, |keys|, a, cap)
    ensures r < |keys| && keys[r] == a && Level(keys, r) <= cap
  {
    hide Level;
  }

  lemma LevelBound(keys: seq<ArtistKey>, i: nat)
    requires i < |keys|
    ensures Level(keys, i) <= CountBy(keys, Upto(|keys|), keys[i])
  {
    hide Upto;
    var own := By(keys, Upto(i), keys[i]);
    assert |own + {i}| == Level(keys, i);
    SubsetCardinality(own + {i}, By(keys, Upto(|keys|), keys[i]));
  }

  lemma UnnamedIsFirst<T>(rows: seq<RankedRow<T>>, normalize: string -> string, i: nat)
    requires i < |rows| && normalize(rows[i].artist) == ""
    ensures Level(KeysOf(rows, normalize), i) == 1
  {
    var keys := KeysOf(rows, normalize);
    assert keys[i] == Unnamed(i);
    forall k: nat | k < i ensures keys[k] != keys[i] {
      assert keys[k] == KeyAt(rows, normalize, k);
    }
    assert By(keys, Upto(i), keys[i]) == {};
  }

  lemma FilledIsFilled(c: nat, d: nat, size: nat, share: real)
    requires FillsShare(c, size, share) && c <= d
    ensures FillsShare(d, size, share)
  {
  }

  lemma JumpIsSeed<T>(rows: seq<RankedRow<T>>, normalize: string -> string, options: Options, limit: nat, chosen: set<nat>, share: real, j: nat)
    requires limit >= 1 && ShareIs(options, share) && Jumps(rows, normalize, share, chosen, j)
    requires IsSelection(KeysOf(rows, normalize), MinimumArtists(options, limit), InitialCap(options, limit), limit, chosen)
    ensures j in Seeds(KeysOf(rows, normalize), MinimumArtists(options, limit))
  {
    hide IsSelection, RowsBy, InitialCap, MinimumArtists, Seeds, Level, FillsShare, ShareIs;
    var keys := KeysOf(rows, normalize);
    var minimum, cap := MinimumArtists(options, limit), InitialCap(options, limit);
    SelectionParts(keys, minimum, cap, limit, chosen);
    if j !in Seeds(keys, minimum) {
      var i: nat :| i < j && i < |rows| && i !in chosen
        && (normalize(rows[i].artist) != "" ==>
              !FillsShare(|RowsBy(rows, normalize, chosen, normalize(rows[i].artist))|, |chosen|, share)
              || |RowsBy(rows, normalize, chosen, normalize(rows[i].artist))| == 0);
      PassedOverFillsCap(keys, minimum, cap, limit, chosen, i, j);
      if normalize(rows[i].artist) == "" {
        UnnamedIsFirst(rows, normalize, i);
        assert false;
      } else {
        KeysByName(rows, normalize, chosen, normalize(rows[i].artist));
        CapFromShare(options, limit, share, cap);
        FilledIsFilled(cap, |RowsBy(rows, normalize, chosen, normalize(rows[i].artist))|, |chosen|, share);
        assert false;
      }
    }
  }

  lemma SelectionHasFewJumps<T>(rows: seq<RankedRow<T>>, normalize: string -> string, options: Options, limit: nat, chosen: set<nat>)
    requires limit >= 1
    requires IsSelection(KeysOf(rows, normalize), MinimumArtists(options, limit), InitialCap(options, limit), limit, chosen)
    ensures FewJumps(rows, normalize, options, chosen)
  {
    hide IsSelection, RowsBy, InitialCap, Seeds, Jumps, SeedsUpto, Openers;
    var keys := KeysOf(rows, normalize);
    var minimum := MinimumArtists(options, limit);
    var seeds := Seeds(keys, minimum);
    SeedsWithin(keys, minimum);
    forall share | ShareIs(options, share)
      ensures var jumps := set j | j in chosen && Jumps(rows, normalize, share, chosen, j); jumps <= seeds && |jumps| <= minimum
    {
      var jumps := set j | j in chosen && Jumps(rows, normalize, share, chosen, j);
      forall j | j in jumps ensures j in seeds {
        JumpIsSeed(rows, normalize, options, limit, chosen, share, j);
      }
      SubsetCardinality(jumps, seeds);
    }
  }

  lemma SeedsWithin(keys: seq<ArtistKey>, minimum: nat)
    ensures |Seeds(keys, minimum)| <= minimum
  {
    SeedsCount(keys, minimum, |keys|);
  }

  /** With no row or all rows there is nothing to be fair about. */
  lemma AllOrNothingIsFair<T>(rows: seq<RankedRow<T>>, normalize: string -> string, options: Options, n: nat)
    requires n == 0 || n == |rows|
    ensures IsBroad(rows, normalize, options, Upto(n)) && NoLowerCap(rows, normalize, options, Upto(n))
    ensures FewJumps(rows, normalize, options, Upto(n))
  {
    hide Upto, NamesOf, RowsBy;
    NoMoreNames(rows, normalize, Upto(n));
    forall share, name, other: set<nat> |
      && ShareIs(options, share) && name != "" && other <= Upto(|rows|) && |other| == |Upto(n)|
      && |RowsBy(rows, normalize, Upto(n), name)| > 1
      ensures exists rival :: rival != "" && |RowsBy(rows, normalize, other, rival)| >= |RowsBy(rows, normalize, Upto(n), name)|
    {
      SubsetCardinality(other, Upto(|rows|));
      OwnRowsWithin(rows, normalize, Upto(n), name);
      assert other == Upto(n);
    }
  }

  lemma OwnRowsWithin<T>(rows: seq<RankedRow<T>>, normalize: string -> string, s: set<nat>, name: string)
    ensures |RowsBy(rows, normalize, s, name)| <= |s|
  {
    SubsetCardinality(RowsBy(rows, normalize, s, name), s);
  }
}
