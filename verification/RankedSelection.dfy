/** selectRankedPlaylistRows: seed distinct artists, raise the cap until the target is filled, split the pool in rank order. */
module RankedSelection {
  import opened Collections
  import opened PlaylistSelection
  import opened SelectionOptions
  import opened SelectionOutcomes

  // ---------- the running counts ----------

  function CountIn(counts: map<ArtistKey, nat>, a: ArtistKey): nat {
    if a in counts then counts[a] else 0
  }

  ghost predicate CountsMatch(keys: seq<ArtistKey>, selected: set<nat>, counts: map<ArtistKey, nat>) {
    forall a :: CountIn(counts, a) == CountBy(keys, selected, a)
  }

  lemma SelectOne(keys: seq<ArtistKey>, selected: set<nat>, counts: map<ArtistKey, nat>, i: nat)
    requires i < |keys| && i !in selected && CountsMatch(keys, selected, counts)
    ensures CountsMatch(keys, selected + {i}, counts[keys[i] := CountIn(counts, keys[i]) + 1])
  {
    forall a ensures CountBy(keys, selected + {i}, a) == CountBy(keys, selected, a) + (if a == keys[i] then 1 else 0) {
      GrowByOne(By(keys, selected, a), i, By(keys, selected + {i}, a), a == keys[i]);
    }
    hide CountBy;
  }

  // ---------- seeding ----------

  lemma SeedingStarts(keys: seq<ArtistKey>, minimum: nat)
    ensures Openers(keys, 0) == {} && SeedsUpto(keys, minimum, 0) == {} && NamedArtists(keys, Upto(0)) == {}
    ensures CountsMatch(keys, {}, map[])
  {
    forall a ensures CountBy(keys, {}, a) == 0 {
      assert By(keys, {}, a) == {};
    }
  }

  /** While artists are still wanted, the seeds are all opening rows so far. */
  lemma SeedingStep(keys: seq<ArtistKey>, minimum: nat, index: nat)
    requires index < |keys| && |NamedArtists(keys, Upto(index))| < minimum
    ensures Opens(keys, index) <==> keys[index].Named? && keys[index] !in NamedArtists(keys, Upto(index))
    ensures Openers(keys, index + 1) == Openers(keys, index) + (if Opens(keys, index) then {index} else {})
    ensures SeedsUpto(keys, minimum, index + 1) == SeedsUpto(keys, minimum, index) + (if Opens(keys, index) then {index} else {})
    ensures NamedArtists(keys, Upto(index + 1)) ==
      NamedArtists(keys, Upto(index)) + (if Opens(keys, index) then {keys[index]} else {})
    ensures index !in SeedsUpto(keys, minimum, index)
  {
    hide Opens, Openers, SeedsUpto, NamedArtists;
    NewArtist(keys, index);
    OpenersGrow(keys, index);
    SeedsGrow(keys, minimum, index);
    NotYetSeeded(keys, minimum, index);
    OpenersCountArtists(keys, index);
    NextArtist(keys, index);
  }

  lemma NotYetSeeded(keys: seq<ArtistKey>, minimum: nat, index: nat)
    ensures index !in SeedsUpto(keys, minimum, index)
  {
    hide Opens;
  }

  lemma NextArtist(keys: seq<ArtistKey>, index: nat)
    requires index < |keys|
    ensures NamedArtists(keys, Upto(index + 1)) ==
      NamedArtists(keys, Upto(index)) + (if Opens(keys, index) then {keys[index]} else {})
  {
    NewArtist(keys, index);
    hide Opens, Upto;
  }

  lemma SeedingEnds(keys: seq<ArtistKey>, minimum: nat, index: nat)
    requires index <= |keys| && (index == |keys| || |NamedArtists(keys, Upto(index))| >= minimum)
    ensures SeedsUpto(keys, minimum, index) == Seeds(keys, minimum)
  {
    hide Opens;
    OpenersCountArtists(keys, index);
    forall i | i in Seeds(keys, minimum) ensures i in SeedsUpto(keys, minimum, index) {
      if i >= index {
        SubsetCardinality(Openers(keys, index), Openers(keys, i));
      }
    }
    assert SeedsUpto(keys, minimum, index) <= Seeds(keys, minimum);
  }

  /** Take the strongest row of each artist until enough artists are seeded. */
  method SeedArtists(keys: seq<ArtistKey>, minimum: nat) returns (selected: set<nat>, counts: map<ArtistKey, nat>)
    ensures selected == Seeds(keys, minimum) && CountsMatch(keys, selected, counts)
  {
    hide Seeds, SeedsUpto, Openers, Opens, NamedArtists, CountsMatch, Upto, CountIn;
    selected, counts := {}, map[];
    var seededArtists := {};
    var index := 0;
    SeedingStarts(keys, minimum);
    while index < |keys| && |seededArtists| < minimum
      invariant index <= |keys|
      invariant selected == SeedsUpto(keys, minimum, index) && seededArtists == NamedArtists(keys, Upto(index))
      invariant CountsMatch(keys, selected, counts)
    {
      var key := keys[index];
      SeedingStep(keys, minimum, index);
      if key.Named? && key !in seededArtists {
        FirstOfArtist(keys, minimum, selected, counts, index);
        seededArtists := seededArtists + {key};
        selected := selected + {index};
        counts := counts[key := 1];
      }
      index := index + 1;
    }
    SeedingEnds(keys, minimum, index);
  }

  lemma FirstOfArtist(keys: seq<ArtistKey>, minimum: nat, selected: set<nat>, counts: map<ArtistKey, nat>, index: nat)
    requires index < |keys| && selected == SeedsUpto(keys, minimum, index) && CountsMatch(keys, selected, counts)
    requires keys[index] !in NamedArtists(keys, Upto(index)) && keys[index].Named?
    ensures CountsMatch(keys, selected + {index}, counts[keys[index] := 1])
  {
    assert index !in selected by { hide Opens; }
    assert By(keys, selected, keys[index]) == {} by { hide Opens; }
    SelectOne(keys, selected, counts, index);
    assert CountIn(counts, keys[index]) == 0;
  }

  // ---------- one pass under one cap ----------

  /** What is selected when the pass for cap has come as far as index. */
  ghost function Reached(keys: seq<ArtistKey>, minimum: nat, initialCap: nat, cap: nat, index: nat): set<nat> {
    set i | i in Rows(keys) && (Tier(keys, minimum, initialCap, i) < cap || (i < index && Tier(keys, minimum, initialCap, i) <= cap))
  }

  lemma SeedLevel(keys: seq<ArtistKey>, minimum: nat, i: nat)
    requires i in Seeds(keys, minimum)
    ensures i < |keys| && Level(keys, i) == 1
  {
  }

  lemma TierWithin(keys: seq<ArtistKey>, minimum: nat, initialCap: nat, cap: nat, i: nat)
    requires 1 <= initialCap <= cap && i < |keys|
    ensures Tier(keys, minimum, initialCap, i) <= cap <==> Level(keys, i) <= cap
  {
    if i in Seeds(keys, minimum) { SeedLevel(keys, minimum, i); }
  }

  lemma TiersRise(keys: seq<ArtistKey>, minimum: nat, initialCap: nat, i: nat, j: nat)
    requires i < j < |keys| && keys[i] == keys[j]
    ensures Tier(keys, minimum, initialCap, i) <= Tier(keys, minimum, initialCap, j)
  {
    LevelsRise(keys, i, j);
    if j in Seeds(keys, minimum) { SeedLevel(keys, minimum, j); }
  }

  /** The running count tells whether the next row's level is within the cap. */
  lemma CountIsLevel(keys: seq<ArtistKey>, minimum: nat, initialCap: nat, cap: nat, index: nat)
    requires 1 <= initialCap <= cap && index < |keys|
    requires index !in Reached(keys, minimum, initialCap, cap, index)
    ensures CountBy(keys, Reached(keys, minimum, initialCap, cap, index), keys[index]) >= cap
      <==> Tier(keys, minimum, initialCap, index) > cap
  {
    hide Tier, Upto;
    var a := keys[index];
    var reached := Reached(keys, minimum, initialCap, cap, index);
    RowsWithinLevel(keys, index, a, cap);
    TierWithin(keys, minimum, initialCap, cap, index);
    assert By(keys, reached, a) == Low(keys, index, a, cap) by {
      hide Level;
      forall j | j in By(keys, reached, a) ensures j in Low(keys, index, a, cap) {
        TierWithin(keys, minimum, initialCap, cap, j);
        if j > index { TiersRise(keys, minimum, initialCap, index, j); }
      }
      forall j | j in Low(keys, index, a, cap) ensures j in By(keys, reached, a) {
        TierWithin(keys, minimum, initialCap, cap, j);
      }
    }
  }

  lemma ReachedGrows(keys: seq<ArtistKey>, minimum: nat, initialCap: nat, cap: nat, index: nat)
    requires index < |keys|
    ensures Reached(keys, minimum, initialCap, cap, index + 1) ==
      Reached(keys, minimum, initialCap, cap, index) + (if Tier(keys, minimum, initialCap, index) <= cap then {index} else {})
  {
    hide Tier;
  }

  lemma PassEnds(keys: seq<ArtistKey>, minimum: nat, initialCap: nat, cap: nat)
    ensures Reached(keys, minimum, initialCap, cap, |keys|) == Reached(keys, minimum, initialCap, cap + 1, 0)
  {
    hide Tier;
  }

  lemma ReachedIsSelection(keys: seq<ArtistKey>, minimum: nat, initialCap: nat, cap: nat, index: nat)
    ensures var s := Reached(keys, minimum, initialCap, cap, index); IsSelection(keys, minimum, initialCap, |s|, s)
  {
    hide Tier;
  }

  /** One pass in rank order: take every row whose artist is still below the cap, until the target is reached. */
  method CapPass(keys: seq<ArtistKey>, ghost minimum: nat, ghost initialCap: nat, cap: nat, limit: nat,
                 start: set<nat>, startCounts: map<ArtistKey, nat>)
    returns (selected: set<nat>, counts: map<ArtistKey, nat>, added: nat)
    requires 1 <= initialCap <= cap
    requires start == Reached(keys, minimum, initialCap, cap, 0) && CountsMatch(keys, start, startCounts) && |start| <= limit
    ensures |selected| <= limit && IsSelection(keys, minimum, initialCap, |selected|, selected)
    ensures |selected| < limit ==> selected == Reached(keys, minimum, initialCap, cap + 1, 0)
    ensures CountsMatch(keys, selected, counts)
    ensures |selected| == |start| + added
  {
    hide Reached, CountsMatch, Tier, IsSelection, CountBy;
    selected, counts, added := start, startCounts, 0;
    var index := 0;
    while index < |keys| && |selected| < limit
      invariant index <= |keys| && |selected| <= limit
      invariant selected == Reached(keys, minimum, initialCap, cap, index)
      invariant CountsMatch(keys, selected, counts)
      invariant |selected| == |start| + added
    {
      ReachedGrows(keys, minimum, initialCap, cap, index);
      if index !in selected {
        var key := keys[index];
        var count := CountIn(counts, key);
        CountIsLevel(keys, minimum, initialCap, cap, index);
        CountAt(keys, selected, counts, key);
        if count < cap {
          SelectOne(keys, selected, counts, index);
          selected := selected + {index};
          counts := counts[key := count + 1];
          added := added + 1;
        }
      } else {
        AlreadyReached(keys, minimum, initialCap, cap, index);
      }
      index := index + 1;
    }
    ReachedIsSelection(keys, minimum, initialCap, cap, index);
    PassEnds(keys, minimum, initialCap, cap);
  }

  lemma CountAt(keys: seq<ArtistKey>, selected: set<nat>, counts: map<ArtistKey, nat>, a: ArtistKey)
    requires CountsMatch(keys, selected, counts)
    ensures CountIn(counts, a) == CountBy(keys, selected, a)
  {
  }

  lemma AlreadyReached(keys: seq<ArtistKey>, minimum: nat, initialCap: nat, cap: nat, index: nat)
    requires index in Reached(keys, minimum, initialCap, cap, index)
    ensures Reached(keys, minimum, initialCap, cap, index) + {index} == Reached(keys, minimum, initialCap, cap, index)
  {
  }

  // ---------- raising the cap ----------

  lemma StartsWithSeeds(keys: seq<ArtistKey>, minimum: nat, initialCap: nat)
    requires initialCap >= 1
    ensures Seeds(keys, minimum) == Reached(keys, minimum, initialCap, initialCap, 0)
  {
    forall i | i in Seeds(keys, minimum) ensures i in Rows(keys) {
      SeedLevel(keys, minimum, i);
    }
  }

  lemma LevelReached(keys: seq<ArtistKey>, minimum: nat, initialCap: nat, cap: nat, i: nat)
    requires 1 <= initialCap <= cap && i < |keys| && Level(keys, i) <= cap
    ensures i in Reached(keys, minimum, initialCap, cap + 1, 0)
  {
    hide Tier, Level;
    TierWithin(keys, minimum, initialCap, cap, i);
  }

  /** A cap of limit accepts every remaining row, so a full pass under it cannot fall short. */
  lemma LimitSuffices(keys: seq<ArtistKey>, minimum: nat, initialCap: nat, limit: nat, cap: nat)
    requires 1 <= initialCap <= cap && limit <= cap && limit <= |keys|
    ensures |Reached(keys, minimum, initialCap, cap + 1, 0)| >= limit
  {
    hide Reached;
    var reached := Reached(keys, minimum, initialCap, cap + 1, 0);
    if j :| j in Rows(keys) && j !in reached {
      var a := keys[j];
      RowsWithinLevel(keys, |keys|, a, cap);
      forall i | i in Low(keys, |keys|, a, cap) ensures i in reached { LevelReached(keys, minimum, initialCap, cap, i); }
      if Level(keys, j) <= cap { LevelReached(keys, minimum, initialCap, cap, j); }
      SubsetCardinality(Low(keys, |keys|, a, cap), reached);
      SubsetCardinality(By(keys, Upto(j), a), By(keys, Upto(|keys|), a));
    } else {
      assert Rows(keys) == Upto(|keys|);
      SubsetCardinality(Upto(|keys|), reached);
    }
  }

  /** The progressive cap: never short of the target, and never more cap than the target needs. */
  method SelectIndexes(keys: seq<ArtistKey>, minimum: nat, initialCap: nat, limit: nat) returns (selected: set<nat>)
    requires 1 <= initialCap <= limit <= |keys| && minimum <= limit
    ensures IsSelection(keys, minimum, initialCap, limit, selected)
  {
    hide Reached, CountsMatch, IsSelection, Seeds;
    var counts;
    selected, counts := {}, map[];
    SeedingStarts(keys, minimum);
    NoSeeds(keys);
    if minimum > 0 {
      selected, counts := SeedArtists(keys, minimum);
    }
    FewSeeds(keys, minimum);
    StartsWithSeeds(keys, minimum, initialCap);
    var artistCap := initialCap;
    ReachedIsSelection(keys, minimum, initialCap, artistCap, 0);
    while |selected| < limit
      invariant initialCap <= artistCap <= limit && |selected| <= limit
      invariant IsSelection(keys, minimum, initialCap, |selected|, selected)
      invariant |selected| < limit ==> selected == Reached(keys, minimum, initialCap, artistCap, 0)
      invariant CountsMatch(keys, selected, counts)
      decreases limit - artistCap
    {
      var added;
      selected, counts, added := CapPass(keys, minimum, initialCap, artistCap, limit, selected, counts);
      if |selected| >= limit { break; }
      LimitSuffices(keys, minimum, initialCap, limit, if artistCap >= limit then artistCap else limit);
      if added == 0 && artistCap >= limit { break; }
      artistCap := artistCap + 1;
    }
    if |selected| < limit {
      assert false;  // the exact-count fallback
    }
  }

  lemma NoSeeds(keys: seq<ArtistKey>)
    ensures Seeds(keys, 0) == {}
  {
  }

  lemma FewSeeds(keys: seq<ArtistKey>, minimum: nat)
    ensures |Seeds(keys, minimum)| <= minimum
  {
    SeedsCount(keys, minimum, |keys|);
  }

  // ---------- splitting the pool ----------

  /** The first n rows that are in s (or, for the overflow, that are not), in rank order. */
  function Pick<T>(rows: seq<T>, s: set<nat>, wanted: bool, n: nat): seq<T>
    requires n <= |rows|
  {
    if n == 0 then []
    else Pick(rows, s, wanted, n - 1) + (if (n - 1 in s) == wanted then [rows[n - 1]] else [])
  }

  lemma PickNext<T>(rows: seq<T>, s: set<nat>, wanted: bool, n: nat)
    requires n < |rows|
    ensures |Pick(rows, s, wanted, n + 1)| == |Pick(rows, s, wanted, n)| + (if (n in s) == wanted then 1 else 0)
    ensures multiset(Pick(rows, s, wanted, n + 1)) ==
      multiset(Pick(rows, s, wanted, n)) + (if (n in s) == wanted then multiset{rows[n]} else multiset{})
  {
  }

  lemma PickNothing<T>(rows: seq<T>, s: set<nat>)
    ensures Pick(rows, s, true, 0) == [] && Pick(rows, s, false, 0) == []
  {
  }

  /** Splitting loses and invents nothing. */
  lemma {:induction false} PickConserves<T>(rows: seq<T>, s: set<nat>, n: nat)
    requires n <= |rows|
    ensures multiset(Pick(rows, s, true, n)) + multiset(Pick(rows, s, false, n)) == multiset(rows[..n])
  {
    hide Pick;
    if n == 0 {
      PickNothing(rows, s);
    } else {
      PickConserves(rows, s, n - 1);
      PickNext(rows, s, true, n - 1);
      PickNext(rows, s, false, n - 1);
      PrefixGrows(rows, n - 1);
    }
  }

  lemma PrefixGrows<T>(rows: seq<T>, n: nat)
    requires n < |rows|
    ensures multiset(rows[..n + 1]) == multiset(rows[..n]) + multiset{rows[n]}
  {
    assert rows[..n + 1] == rows[..n] + [rows[n]];
  }

  lemma {:induction false} PickCounts<T>(rows: seq<T>, s: set<nat>, n: nat)
    requires n <= |rows|
    ensures |Pick(rows, s, true, n)| == |s * Upto(n)|
    ensures |Pick(rows, s, true, n)| + |Pick(rows, s, false, n)| == n
  {
    hide Upto, Pick;
    if n == 0 {
      PickNothing(rows, s);
      assert s * Upto(0) == {};
    } else {
      PickCounts(rows, s, n - 1);
      PickNext(rows, s, true, n - 1);
      PickNext(rows, s, false, n - 1);
      NextMember(s, n - 1);
    }
  }

  lemma NextMember(s: set<nat>, n: nat)
    ensures |s * Upto(n + 1)| == |s * Upto(n)| + (if n in s then 1 else 0)
  {
    hide Upto;
    GrowByOne(s * Upto(n), n, s * Upto(n + 1), n in s);
  }

  /** Picking a prefix is slicing. */
  lemma {:induction false} PickPrefix<T>(rows: seq<T>, limit: nat, n: nat)
    requires limit <= n <= |rows|
    ensures Pick(rows, Upto(limit), true, n) == rows[..limit]
    ensures Pick(rows, Upto(limit), false, n) == rows[limit..n]
    decreases n
  {
    hide Upto;
    if n > limit {
      PickPrefix(rows, limit, n - 1);
      assert rows[limit..n] == rows[limit..n - 1] + [rows[n - 1]];
    } else if n > 0 {
      PickAll(rows, limit, n - 1);
      assert rows[..n] == rows[..n - 1] + [rows[n - 1]];
    }
  }

  lemma {:induction false} PickAll<T>(rows: seq<T>, limit: nat, n: nat)
    requires n <= limit && n <= |rows|
    ensures Pick(rows, Upto(limit), true, n) == rows[..n] && Pick(rows, Upto(limit), false, n) == []
  {
    hide Upto;
    if n > 0 {
      PickAll(rows, limit, n - 1);
      assert rows[..n] == rows[..n - 1] + [rows[n - 1]];
    }
  }

  function PickedIndexes(s: set<nat>, wanted: bool, n: nat): (r: seq<nat>)
    ensures forall i: nat :: i in r <==> i < n && ((i in s) == wanted)
    ensures forall j, k | 0 <= j < k < |r| :: r[j] < r[k]
  {
    if n == 0 then []
    else
      var before := PickedIndexes(s, wanted, n - 1);
      assert forall j | 0 <= j < |before| :: before[j] in before;
      before + (if (n - 1 in s) == wanted then [n - 1] else [])
  }

  lemma NothingPicked<T>(rows: seq<T>, s: set<nat>, wanted: bool)
    ensures Pick(rows, s, wanted, 0) == [] && PickedIndexes(s, wanted, 0) == []
  {
  }

  lemma PickedOneMore<T>(rows: seq<T>, s: set<nat>, wanted: bool, n: nat)
    requires n < |rows|
    ensures Pick(rows, s, wanted, n + 1) == Pick(rows, s, wanted, n) + (if (n in s) == wanted then [rows[n]] else [])
    ensures PickedIndexes(s, wanted, n + 1) == PickedIndexes(s, wanted, n) + (if (n in s) == wanted then [n] else [])
  {
  }

  lemma OneMoreIsRanked<T>(rows: seq<T>, before: seq<T>, indexes: seq<nat>, n: nat, taken: bool)
    requires n < |rows| && |before| == |indexes|
    requires forall k | 0 <= k < |before| :: indexes[k] < n && before[k] == rows[indexes[k]]
    ensures var picked, ranks := before + (if taken then [rows[n]] else []), indexes + (if taken then [n] else []);
      |picked| == |ranks| && forall k | 0 <= k < |picked| :: ranks[k] < n + 1 && picked[k] == rows[ranks[k]]
  {
  }

  /** The split is stable: both parts list their rows by ascending rank. */
  lemma {:induction false} PickKeepsRank<T>(rows: seq<T>, s: set<nat>, wanted: bool, n: nat)
    requires n <= |rows|
    ensures |Pick(rows, s, wanted, n)| == |PickedIndexes(s, wanted, n)|
    ensures forall k | 0 <= k < |Pick(rows, s, wanted, n)| ::
      PickedIndexes(s, wanted, n)[k] < n && Pick(rows, s, wanted, n)[k] == rows[PickedIndexes(s, wanted, n)[k]]
  {
    hide Pick, PickedIndexes;
    if n == 0 {
      NothingPicked(rows, s, wanted);
    } else {
      PickKeepsRank(rows, s, wanted, n - 1);
      PickedOneMore(rows, s, wanted, n - 1);
      OneMoreIsRanked(rows, Pick(rows, s, wanted, n - 1), PickedIndexes(s, wanted, n - 1), n - 1, (n - 1 in s) == wanted);
    }
  }

  /** The rows that are selected: the policy's when diversifying, otherwise the best ranked ones. */
  ghost predicate IsChosen(keys: seq<ArtistKey>, maximumTracks: Number, options: Options, chosen: set<nat>) {
    var limit := Limit(|keys|, maximumTracks);
    if Diversifies(|keys|, maximumTracks, options)
    then IsSelection(keys, MinimumArtists(options, limit), InitialCap(options, limit), limit, chosen)
    else chosen == Upto(limit)
  }

  method SplitRows<T>(rows: seq<T>, selectedIndexes: set<nat>) returns (selected: seq<T>, overflow: seq<T>)
    ensures selected == Pick(rows, selectedIndexes, true, |rows|) && overflow == Pick(rows, selectedIndexes, false, |rows|)
  {
    selected, overflow := [], [];
    for index := 0 to |rows|
      invariant selected == Pick(rows, selectedIndexes, true, index) && overflow == Pick(rows, selectedIndexes, false, index)
    {
      if index in selectedIndexes {
        selected := selected + [rows[index]];
      } else {
        overflow := overflow + [rows[index]];
      }
    }
  }

  lemma PickIsPart<T>(rows: seq<T>, s: set<nat>)
    requires s <= Upto(|rows|)
    ensures IsPart(rows, s, Pick(rows, s, true, |rows|))
    ensures IsPart(rows, Upto(|rows|) - s, Pick(rows, s, false, |rows|))
  {
    hide Pick, PickedIndexes, Upto;
    PickKeepsRank(rows, s, true, |rows|);
    PickKeepsRank(rows, s, false, |rows|);
    assert Lists(PickedIndexes(s, true, |rows|), s);
    assert Lists(PickedIndexes(s, false, |rows|), Upto(|rows|) - s);
  }

  method SelectRankedPlaylistRows<T>(rows: seq<RankedRow<T>>, normalize: string -> string, maximumTracks: Number, options: Options)
    returns (selected: seq<RankedRow<T>>, overflow: seq<RankedRow<T>>, ghost chosen: set<nat>)
    ensures IsChosen(KeysOf(rows, normalize), maximumTracks, options, chosen)
    ensures selected == Pick(rows, chosen, true, |rows|) && overflow == Pick(rows, chosen, false, |rows|)
    ensures RightSize(|rows|, maximumTracks, |selected|) && |selected| == |chosen|
    ensures IsPart(rows, chosen, selected) && IsPart(rows, Upto(|rows|) - chosen, overflow)
    ensures multiset(selected) + multiset(overflow) == multiset(rows)
    ensures !options.diversifyArtists ==> chosen == Upto(|selected|)
    ensures options.diversifyArtists ==>
      IsBroad(rows, normalize, options, chosen) && NoLowerCap(rows, normalize, options, chosen) && FewJumps(rows, normalize, options, chosen)
  {
    hide IsSelection, InitialShare, Upto, Pick, MinimumArtists, InitialCap, IsPart, IsBroad, NoLowerCap, FewJumps, RightSize;
    LimitIsRight(|rows|, maximumTracks);
    var limit := Limit(|rows|, maximumTracks);
    chosen := Upto(limit);
    PickPrefix(rows, limit, |rows|);
    PickIsPart(rows, chosen);
    if limit == 0 || limit == |rows| { AllOrNothingIsFair(rows, normalize, options, limit); }
    assert rows[..limit] + rows[limit..] == rows;
    if maximumTracks.NotFinite? {
      return rows, [], chosen;
    }
    if limit == 0 {
      return [], rows, chosen;
    }
    if !options.diversifyArtists || |rows| <= limit {
      return rows[..limit], rows[limit..], chosen;
    }
    var keys := KeysOf(rows, normalize);
    var selectedIndexes := SelectIndexes(keys, MinimumArtists(options, limit), InitialCap(options, limit), limit);
    chosen := selectedIndexes;
    selected, overflow := SplitRows(rows, selectedIndexes);
    PickConserves(rows, chosen, |rows|);
    PickCounts(rows, chosen, |rows|);
    SelectionParts(keys, MinimumArtists(options, limit), InitialCap(options, limit), limit, chosen);
    SelectionIsBroad(rows, normalize, options, limit, chosen);
    SelectionHasNoLowerCap(rows, normalize, options, limit, chosen);
    SelectionHasFewJumps(rows, normalize, options, limit, chosen);
    PickIsPart(rows, chosen);
    assert chosen * Upto(|rows|) == chosen;
    assert rows[..|rows|] == rows;
  }
}
