/** selectCanonicalSparseMatch: which result stands for a corroborated recording family. */
module CatalogFamilies {
  import opened Collections
  import opened StableSorting
  import opened CatalogClusters

  const ISRC_SPAN := 10000

  /** What the text rules say about a song: given functions, whatever they compute; a song without ISRC has the empty key. */
  datatype Rules = Rules(
    derived: Song -> bool, unsafeLoose: Song -> bool, penalty: Song -> int, releaseTime: Song -> int, isrcKey: Song -> string)

  function NotDerived(rules: Rules): Match -> bool {
    (m: Match) => !rules.derived(m.song)
  }

  /** Derived contexts count only when there is nothing else. */
  function Pool(rules: Rules, matches: seq<Match>): seq<Match> {
    Prefer(matches, NotDerived(rules))
  }

  function HasIsrc(rules: Rules, isrc: string): Match -> bool {
    (m: Match) => rules.isrcKey(m.song) == isrc
  }

  function IsrcGroup(rules: Rules, pool: seq<Match>, isrc: string): seq<Match> {
    Filter(pool, HasIsrc(rules, isrc))
  }

  /** The known durations of an ISRC group lie within ten seconds. */
  ghost predicate Agrees(group: seq<Match>) {
    forall x, y | x in group && y in group && HasDuration(x.song) && HasDuration(y.song) ::
      Duration(x) - Duration(y) <= ISRC_SPAN
  }

  ghost predicate IsrcCorroborates(rules: Rules, pool: seq<Match>, isrc: string) {
    isrc != "" && |IsrcGroup(rules, pool, isrc)| >= 2 && Agrees(IsrcGroup(rules, pool, isrc))
  }

  ghost predicate DurationCorroborates(pool: seq<Match>) {
    exists x, y :: x in pool && y in pool && x != y && HasDuration(x.song) && HasDuration(y.song) && Close(x, y)
  }

  ghost predicate Corroborated(rules: Rules, pool: seq<Match>) {
    DurationCorroborates(pool) || exists isrc :: IsrcCorroborates(rules, pool, isrc)
  }

  /** At least two results that agree on the recording: by duration, or by ISRC. */
  ghost predicate IsFamily(rules: Rules, pool: seq<Match>, family: seq<Match>) {
    && |family| >= 2
    && (forall m | m in family :: m in pool)
    && ((Spans(family) && forall m | m in family :: HasDuration(m.song))
        || exists isrc :: IsrcCorroborates(rules, pool, isrc) && family == IsrcGroup(rules, pool, isrc))
  }

  // ---------- grouping by ISRC ----------

  /** The ISRCs of the pool, in the order in which they first occur. */
  function IsrcOrder(rules: Rules, pool: seq<Match>): (r: seq<string>)
    ensures "" !in r && forall m | m in pool && rules.isrcKey(m.song) != "" :: rules.isrcKey(m.song) in r
  {
    if |pool| == 0 then []
    else
      var before, last := IsrcOrder(rules, pool[..|pool| - 1]), pool[|pool| - 1];
      assert pool == pool[..|pool| - 1] + [last];
      var isrc := rules.isrcKey(last.song);
      if isrc == "" || isrc in before then before else before + [isrc]
  }

  lemma IsrcOrderOneMore(rules: Rules, pool: seq<Match>, item: Match)
    ensures IsrcOrder(rules, pool + [item]) ==
      if rules.isrcKey(item.song) == "" || rules.isrcKey(item.song) in IsrcOrder(rules, pool) then IsrcOrder(rules, pool)
      else IsrcOrder(rules, pool) + [rules.isrcKey(item.song)]
  {
    assert (pool + [item])[..|pool|] == pool;
  }

  ghost predicate Grouped(rules: Rules, rows: seq<Match>, order: seq<string>, groups: map<string, seq<Match>>) {
    && (forall isrc :: isrc in order <==> isrc in groups)
    && (forall isrc | isrc in groups :: isrc != "" && |groups[isrc]| > 0 && groups[isrc] == IsrcGroup(rules, rows, isrc))
    && (forall m | m in rows :: rules.isrcKey(m.song) != "" ==> rules.isrcKey(m.song) in groups)
  }

  lemma GroupOneMore(rules: Rules, rows: seq<Match>, item: Match, order: seq<string>, groups: map<string, seq<Match>>)
    requires Grouped(rules, rows, order, groups)
    ensures rules.isrcKey(item.song) == "" ==> Grouped(rules, rows + [item], order, groups)
    ensures rules.isrcKey(item.song) != "" && rules.isrcKey(item.song) in groups ==>
      Grouped(rules, rows + [item], order, groups[rules.isrcKey(item.song) := groups[rules.isrcKey(item.song)] + [item]])
    ensures rules.isrcKey(item.song) != "" && rules.isrcKey(item.song) !in groups ==>
      Grouped(rules, rows + [item], order + [rules.isrcKey(item.song)], groups[rules.isrcKey(item.song) := [item]])
  {
    hide IsrcGroup;
    var key := rules.isrcKey(item.song);
    forall isrc ensures IsrcGroup(rules, rows + [item], isrc) == IsrcGroup(rules, rows, isrc) + (if key == isrc then [item] else []) {
      IsrcGroupOneMore(rules, rows, item, isrc);
    }
    if key != "" && key !in groups {
      NoneWithIsrc(rules, rows, key);
    }
  }

  lemma IsrcGroupOneMore(rules: Rules, rows: seq<Match>, item: Match, isrc: string)
    ensures IsrcGroup(rules, rows + [item], isrc) == IsrcGroup(rules, rows, isrc) + (if rules.isrcKey(item.song) == isrc then [item] else [])
  {
    FilterOneMore(rows, item, HasIsrc(rules, isrc));
  }

  lemma {:induction false} NoneWithIsrc(rules: Rules, rows: seq<Match>, isrc: string)
    requires forall m | m in rows :: rules.isrcKey(m.song) != isrc
    ensures IsrcGroup(rules, rows, isrc) == []
  {
    if |rows| > 0 {
      NoneWithIsrc(rules, rows[..|rows| - 1], isrc);
    }
  }

  method GroupByIsrc(rules: Rules, pool: seq<Match>) returns (order: seq<string>, groups: map<string, seq<Match>>)
    ensures Grouped(rules, pool, order, groups) && order == IsrcOrder(rules, pool)
  {
    hide Grouped, IsrcOrder;
    order, groups := [], map[];
    NothingGrouped(rules);
    for i := 0 to |pool|
      invariant Grouped(rules, pool[..i], order, groups) && order == IsrcOrder(rules, pool[..i])
    {
      var item := pool[i];
      var isrc := rules.isrcKey(item.song);
      GroupOneMore(rules, pool[..i], item, order, groups);
      IsrcOrderOneMore(rules, pool[..i], item);
      GroupedKeys(rules, pool[..i], order, groups);
      assert pool[..i + 1] == pool[..i] + [item];
      if isrc == "" { continue; }
      if isrc in groups {
        groups := groups[isrc := groups[isrc] + [item]];
      } else {
        order := order + [isrc];
        groups := groups[isrc := [item]];
      }
    }
    assert pool[..|pool|] == pool;
  }

  lemma NothingGrouped(rules: Rules)
    ensures Grouped(rules, [], [], map[]) && IsrcOrder(rules, []) == []
  {
  }

  lemma GroupedKeys(rules: Rules, pool: seq<Match>, order: seq<string>, groups: map<string, seq<Match>>)
    requires Grouped(rules, pool, order, groups)
    ensures forall isrc :: isrc in order <==> isrc in groups
  {
  }

  function KnownDurations(group: seq<Match>): (r: seq<Match>)
    ensures forall m :: m in r <==> m in group && HasDuration(m.song)
  {
    Filter(group, DurationKnown())
  }

  predicate DurationsAgree(group: seq<Match>) {
    var known := KnownDurations(group);
    |known| <= 1 || LongestOf(known[1..], Duration(known[0])) - ShortestOf(known[1..], Duration(known[0])) <= ISRC_SPAN
  }

  lemma DurationsAgreeMeans(group: seq<Match>)
    ensures DurationsAgree(group) <==> Agrees(group)
  {
    var known := KnownDurations(group);
    if |known| > 1 {
      assert known == [known[0]] + known[1..];
      var longest, shortest := LongestOf(known[1..], Duration(known[0])), ShortestOf(known[1..], Duration(known[0]));
      assert known[0] in known;
      assert exists x :: x in known && Duration(x) == longest;
      assert exists x :: x in known && Duration(x) == shortest;
      assert forall x | x in known :: shortest <= Duration(x) <= longest;
    } else if |known| == 1 {
      assert forall x | x in known :: x == known[0];
    }
  }

  // ---------- all families of a pool ----------

  function AtLeastTwo(): seq<Match> -> bool {
    (group: seq<Match>) => |group| >= 2
  }

  /** The groups among order that corroborate a recording. */
  ghost function IsrcFamilies(rules: Rules, pool: seq<Match>, order: seq<string>): (r: seq<seq<Match>>)
    ensures forall f :: f in r <==> exists isrc :: isrc in order && IsrcCorroborates(rules, pool, isrc) && f == IsrcGroup(rules, pool, isrc)
  {
    if |order| == 0 then []
    else
      var before, last := IsrcFamilies(rules, pool, order[..|order| - 1]), order[|order| - 1];
      assert order == order[..|order| - 1] + [last];
      if IsrcCorroborates(rules, pool, last) then before + [IsrcGroup(rules, pool, last)] else before
  }

  ghost predicate AreClusters(pool: seq<Match>, clusters: seq<seq<Match>>) {
    Flatten(clusters) == SortBy(Filter(pool, DurationKnown()), DurationKey()) && Greedy(clusters)
  }

  /** All clusters and ISRC groups that corroborate a recording: clusters by duration, then groups by first occurrence. */
  ghost predicate AreFamilies(rules: Rules, pool: seq<Match>, families: seq<seq<Match>>) {
    exists clusters :: AreClusters(pool, clusters)
      && families == Filter(clusters, AtLeastTwo()) + IsrcFamilies(rules, pool, IsrcOrder(rules, pool))
  }

  lemma FamiliesUnique(rules: Rules, pool: seq<Match>, families: seq<seq<Match>>, families': seq<seq<Match>>)
    requires AreFamilies(rules, pool, families) && AreFamilies(rules, pool, families')
    ensures families == families'
  {
    hide Greedy, Flatten, SortBy, IsrcFamilies, IsrcOrder;
    var a :| AreClusters(pool, a) && families == Filter(a, AtLeastTwo()) + IsrcFamilies(rules, pool, IsrcOrder(rules, pool));
    var b :| AreClusters(pool, b) && families' == Filter(b, AtLeastTwo()) + IsrcFamilies(rules, pool, IsrcOrder(rules, pool));
    GreedyUnique(a, b);
  }

  /** Every family corroborates a recording, and there is one exactly when something corroborates. */
  lemma FamiliesCorroborate(rules: Rules, pool: seq<Match>, families: seq<seq<Match>>)
    requires AreFamilies(rules, pool, families) && Distinct(pool)
    ensures forall f | f in families :: IsFamily(rules, pool, f)
    ensures |families| > 0 <==> Corroborated(rules, pool)
  {
    hide Greedy, Flatten, SortBy, IsFamily, DurationCorroborates, IsrcCorroborates, IsrcGroup, IsrcFamilies, IsrcOrder, Distinct;
    var order := IsrcOrder(rules, pool);
    var clusters :| AreClusters(pool, clusters) && families == Filter(clusters, AtLeastTwo()) + IsrcFamilies(rules, pool, order);
    ClustersCorroborate(pool, clusters);
    forall f | f in families ensures IsFamily(rules, pool, f) {
      if f in Filter(clusters, AtLeastTwo()) {
        ClusterIsFamily(rules, pool, clusters, f);
      } else {
        var isrc :| isrc in order && IsrcCorroborates(rules, pool, isrc) && f == IsrcGroup(rules, pool, isrc);
        GroupIsFamily(rules, pool, isrc);
      }
    }
    if |IsrcFamilies(rules, pool, order)| > 0 {
      assert IsrcFamilies(rules, pool, order)[0] in IsrcFamilies(rules, pool, order);
    }
    forall isrc | IsrcCorroborates(rules, pool, isrc) ensures |IsrcFamilies(rules, pool, order)| > 0 {
      CorroboratingIsrcOccurs(rules, pool, isrc);
      assert IsrcGroup(rules, pool, isrc) in IsrcFamilies(rules, pool, order);
    }
  }

  lemma GroupIsFamily(rules: Rules, pool: seq<Match>, isrc: string)
    requires IsrcCorroborates(rules, pool, isrc)
    ensures IsFamily(rules, pool, IsrcGroup(rules, pool, isrc))
  {
  }

  lemma CorroboratingIsrcOccurs(rules: Rules, pool: seq<Match>, isrc: string)
    requires IsrcCorroborates(rules, pool, isrc)
    ensures isrc in IsrcOrder(rules, pool)
  {
    var group := IsrcGroup(rules, pool, isrc);
    assert group[0] in group;
    hide IsrcOrder;
  }

  lemma ClusterIsFamily(rules: Rules, pool: seq<Match>, clusters: seq<seq<Match>>, f: seq<Match>)
    requires Flatten(clusters) == SortBy(Filter(pool, DurationKnown()), DurationKey()) && Greedy(clusters)
    requires f in clusters && |f| >= 2
    ensures IsFamily(rules, pool, f)
  {
    ClustersPartition(clusters, pool);
    GreedySpans(clusters);
    hide Greedy, SortBy, IsrcCorroborates;
    var k :| 0 <= k < |clusters| && clusters[k] == f;
    forall m | m in f ensures m in Flatten(clusters) {
      FlattenMembers(clusters, m);
    }
  }

  /** A cluster of two exists exactly when durations corroborate. */
  lemma ClustersCorroborate(pool: seq<Match>, clusters: seq<seq<Match>>)
    requires Distinct(pool)
    requires Flatten(clusters) == SortBy(Filter(pool, DurationKnown()), DurationKey()) && Greedy(clusters)
    ensures |Filter(clusters, AtLeastTwo())| > 0 <==> DurationCorroborates(pool)
  {
    ClustersPartition(clusters, pool);
    FilterDistinct(pool, DurationKnown());
    SameContents(Filter(pool, DurationKnown()), Flatten(clusters));
    TwoCloseRowsShareACluster(clusters);
    hide Greedy, SortBy, Flatten, Close;
    var pairs := Filter(clusters, AtLeastTwo());
    if |pairs| > 0 {
      assert pairs[0] in pairs;
      assert SomePair(clusters);
    }
    if SomePair(clusters) {
      var k :| 0 <= k < |clusters| && |clusters[k]| >= 2;
      assert clusters[k] in clusters;
      assert clusters[k] in pairs;
    }
  }

  method Families(rules: Rules, pool: seq<Match>) returns (families: seq<seq<Match>>)
    ensures AreFamilies(rules, pool, families)
  {
    hide Greedy, Flatten, SortBy, Grouped, IsrcOrder, IsrcFamilies;
    var clusters := DurationClusters(pool);
    assert AreClusters(pool, clusters);
    var order, groups := GroupByIsrc(rules, pool);
    families := AddIsrcFamilies(rules, pool, order, groups, Filter(clusters, AtLeastTwo()));
  }

  method AddIsrcFamilies(rules: Rules, pool: seq<Match>, order: seq<string>, groups: map<string, seq<Match>>, clusters: seq<seq<Match>>)
    returns (families: seq<seq<Match>>)
    requires Grouped(rules, pool, order, groups)
    ensures families == clusters + IsrcFamilies(rules, pool, order)
  {
    hide DurationsAgree, IsrcCorroborates, IsrcFamilies;
    families := clusters;
    NoIsrcFamilies(rules, pool);
    for i := 0 to |order|
      invariant families == clusters + IsrcFamilies(rules, pool, order[..i])
    {
      assert order[i] in order;
      assert order[..i + 1] == order[..i] + [order[i]];
      var group := groups[order[i]];
      GroupCorroborates(rules, pool, order[i], group);
      IsrcFamiliesOneMore(rules, pool, order[..i], order[i]);
      if |group| < 2 { continue; }
      if !DurationsAgree(group) { continue; }
      families := families + [group];
    }
    assert order[..|order|] == order;
  }

  lemma NoIsrcFamilies(rules: Rules, pool: seq<Match>)
    ensures IsrcFamilies(rules, pool, []) == []
  {
  }

  lemma IsrcFamiliesOneMore(rules: Rules, pool: seq<Match>, order: seq<string>, isrc: string)
    ensures IsrcFamilies(rules, pool, order + [isrc]) ==
      IsrcFamilies(rules, pool, order) + (if IsrcCorroborates(rules, pool, isrc) then [IsrcGroup(rules, pool, isrc)] else [])
  {
    assert (order + [isrc])[..|order|] == order;
  }

  lemma GroupCorroborates(rules: Rules, pool: seq<Match>, isrc: string, group: seq<Match>)
    requires isrc != "" && group == IsrcGroup(rules, pool, isrc)
    ensures IsrcCorroborates(rules, pool, isrc) <==> |group| >= 2 && DurationsAgree(group)
  {
    DurationsAgreeMeans(group);
  }

  // ---------- the strongest family and its preferred issue ----------

  /** Code units, for Array.prototype.sort on strings. */
  function TextKey(): string -> seq<int> {
    (text: string) => seq(|text|, i requires 0 <= i < |text| => text[i] as int)
  }

  function Join(parts: seq<string>): string {
    if |parts| == 0 then "" else if |parts| == 1 then parts[0] else Join(parts[..|parts| - 1]) + "|" + parts[|parts| - 1]
  }

  function Ids(family: seq<Match>): seq<string> {
    seq(|family|, i requires 0 <= i < |family| => family[i].song.id)
  }

  function IdentityOf(family: seq<Match>): string {
    Join(SortBy(Ids(family), TextKey()))
  }

  function Identities(families: seq<seq<Match>>): (r: seq<string>)
    ensures |r| == |families| && forall k | 0 <= k < |families| :: r[k] == IdentityOf(families[k])
  {
    seq(|families|, k requires 0 <= k < |families| => IdentityOf(families[k]))
  }

  /** No id holds the separator. */
  predicate Plain(parts: seq<string>) {
    forall part | part in parts :: '|' !in part
  }

  lemma ShorterStartLeavesSeparator(a: string, x: string, b: string, y: string)
    requires a + "|" + x == b + "|" + y && |a| < |b|
    ensures '|' in x
  {
    assert |a + "|" + x| == |b + "|" + y|;
    assert (a + "|" + x)[|b|] == x[|b| - |a| - 1];
    assert (b + "|" + y)[|b|] == '|';
  }

  lemma LastPartSplits(a: string, x: string, b: string, y: string)
    requires a + "|" + x == b + "|" + y && '|' !in x && '|' !in y
    ensures a == b && x == y
  {
    if |a| < |b| {
      ShorterStartLeavesSeparator(a, x, b, y);
      assert false;
    } else if |b| < |a| {
      ShorterStartLeavesSeparator(b, y, a, x);
      assert false;
    } else {
      var whole := a + "|" + x;
      assert a == whole[..|a|] && b == whole[..|b|];
      assert x == whole[|a| + 1..] && y == whole[|b| + 1..];
    }
  }

  lemma {:induction false} JoinDecodes(x: seq<string>, y: seq<string>)
    requires |x| > 0 && |y| > 0 && Plain(x) && Plain(y) && Join(x) == Join(y)
    ensures x == y
  {
    assert '|' !in x[0] && '|' !in y[0];
    if |x| > 1 && |y| > 1 {
      LastPartSplits(Join(x[..|x| - 1]), x[|x| - 1], Join(y[..|y| - 1]), y[|y| - 1]);
      JoinDecodes(x[..|x| - 1], y[..|y| - 1]);
      assert x == x[..|x| - 1] + [x[|x| - 1]] && y == y[..|y| - 1] + [y[|y| - 1]];
    } else if |x| > 1 {
      JoinHasSeparator(x);
      assert false;
    } else if |y| > 1 {
      JoinHasSeparator(y);
      assert false;
    }
  }

  lemma JoinHasSeparator(x: seq<string>)
    requires |x| > 1
    ensures '|' in Join(x)
  {
    assert Join(x)[|Join(x[..|x| - 1])|] == '|';
  }

  lemma TextKeyTells(x: string, y: string)
    requires TextKey()(x) == TextKey()(y)
    ensures x == y
  {
    assert |x| == |TextKey()(x)| == |y|;
    assert forall k | 0 <= k < |x| :: x[k] as int == TextKey()(x)[k] && y[k] as int == TextKey()(y)[k];
  }

  lemma TextKeysApart(ids: seq<string>)
    requires Distinct(ids)
    ensures KeysApart(ids, TextKey())
  {
    hide TextKey;
    forall i, j | 0 <= i < j < |ids| ensures TextKey()(ids[i]) != TextKey()(ids[j]) {
      if TextKey()(ids[i]) == TextKey()(ids[j]) { TextKeyTells(ids[i], ids[j]); }
    }
  }

  /** For ids without the separator, two families have one identity exactly when they consist of the same results. */
  lemma SameIdentityExactly(f: seq<Match>, g: seq<Match>)
    requires |f| > 0 && |g| > 0 && Distinct(Ids(f)) && Distinct(Ids(g)) && Plain(Ids(f)) && Plain(Ids(g))
    ensures IdentityOf(f) == IdentityOf(g) <==> multiset(Ids(f)) == multiset(Ids(g))
  {
    var x, y := SortBy(Ids(f), TextKey()), SortBy(Ids(g), TextKey());
    SameContents(x, Ids(f));
    SameContents(y, Ids(g));
    hide SortBy, Join, KeysApart, Distinct, TextKey;
    if IdentityOf(f) == IdentityOf(g) {
      JoinDecodes(x, y);
    }
    if multiset(Ids(f)) == multiset(Ids(g)) {
      TextKeysApart(Ids(f));
      TextKeysApart(Ids(g));
      SortForgetsOrder(Ids(f), Ids(g), TextKey());
    }
  }

  /** Map.set: replace the family with the same identity in its place, or append. */
  function Placed(families: seq<seq<Match>>, family: seq<Match>): (r: seq<seq<Match>>)
    ensures |r| > 0 && forall f | f in r :: f in families || f == family
  {
    var index := FirstIndex(Identities(families), IdentityOf(family));
    if index < |families| then families[index := family] else families + [family]
  }

  function Unique(families: seq<seq<Match>>): (r: seq<seq<Match>>)
    ensures forall f | f in r :: f in families
    ensures |families| > 0 ==> |r| > 0
  {
    if |families| == 0 then []
    else
      assert families == families[..|families| - 1] + [families[|families| - 1]];
      Placed(Unique(families[..|families| - 1]), families[|families| - 1])
  }

  ghost predicate DistinctIdentities(families: seq<seq<Match>>) {
    forall i, j | 0 <= i < j < |families| :: IdentityOf(families[i]) != IdentityOf(families[j])
  }

  ghost predicate Represented(families: seq<seq<Match>>, f: seq<Match>) {
    exists g :: g in families && IdentityOf(g) == IdentityOf(f)
  }

  /** No two unique families consist of the same results, and every family is represented. */
  lemma {:induction false} UniqueRepresents(families: seq<seq<Match>>)
    ensures DistinctIdentities(Unique(families))
    ensures forall f | f in families :: Represented(Unique(families), f)
  {
    hide Represented, DistinctIdentities, Placed;
    if |families| == 0 {
      NoIdentities();
    } else {
      var before, last := families[..|families| - 1], families[|families| - 1];
      UniqueRepresents(before);
      assert families == before + [last];
      forall f | f in families ensures Represented(Unique(families), f) {
        PlacedRepresents(Unique(before), last, f);
      }
      PlacedDistinct(Unique(before), last);
    }
  }

  lemma NoIdentities()
    ensures DistinctIdentities([])
  {
  }

  lemma PlacedDistinct(families: seq<seq<Match>>, family: seq<Match>)
    requires DistinctIdentities(families)
    ensures DistinctIdentities(Placed(families, family))
  {
    hide IdentityOf;
  }

  lemma PlacedRepresents(families: seq<seq<Match>>, family: seq<Match>, f: seq<Match>)
    requires f == family || Represented(families, f)
    ensures Represented(Placed(families, family), f)
  {
    hide IdentityOf;
    var r := Placed(families, family);
    var index := FirstIndex(Identities(families), IdentityOf(family));
    assert r[index] == family && r[index] in r;
    if f != family {
      var g :| g in families && IdentityOf(g) == IdentityOf(f);
      var k :| 0 <= k < |families| && families[k] == g;
      assert r[k] in r && IdentityOf(r[k]) == IdentityOf(f);
    }
  }

  /** The least of f's values. */
  function Least(family: seq<Match>, f: Song -> int): (r: int)
    requires |family| > 0
    ensures forall m | m in family :: r <= f(m.song)
    ensures exists m :: m in family && f(m.song) == r
  {
    var last := family[|family| - 1];
    assert family == family[..|family| - 1] + [last];
    if |family| == 1 then f(last.song)
    else
      var before := Least(family[..|family| - 1], f);
      if f(last.song) < before then f(last.song) else before
  }

  function WithPenalty(rules: Rules, penalty: int): Match -> bool {
    (m: Match) => rules.penalty(m.song) == penalty
  }

  function PreferredRelease(rules: Rules, family: seq<Match>): int
    requires |family| > 0
  {
    Least(Filter(family, WithPenalty(rules, Least(family, rules.penalty))), rules.releaseTime)
  }

  function EarliestSource(family: seq<Match>): (r: nat)
    requires |family| > 0
    ensures forall m | m in family :: r <= m.sourceIndex
  {
    var last := family[|family| - 1];
    assert family == family[..|family| - 1] + [last];
    if |family| == 1 then last.sourceIndex
    else
      var before := EarliestSource(family[..|family| - 1]);
      if last.sourceIndex < before then last.sourceIndex else before
  }

  /** Larger families first, then cleaner presentation, earlier release, longer duration, earlier result. */
  function StrengthKey(rules: Rules): seq<Match> -> seq<int> {
    (family: seq<Match>) =>
      if |family| == 0 then []
      else [-|family|, Least(family, rules.penalty), PreferredRelease(rules, family), -LongestOf(family[1..], Duration(family[0])),
            EarliestSource(family)]
  }

  /** Cleaner presentation first, then earlier release, then earlier result. */
  function IssueKey(rules: Rules): Match -> seq<int> {
    (m: Match) => [rules.penalty(m.song), rules.releaseTime(m.song), m.sourceIndex]
  }

  /** r is the preferred issue of the strongest family; of equals, the one collected first. */
  ghost predicate IsCanonical(rules: Rules, pool: seq<Match>, r: Match) {
    exists families, f ::
      AreFamilies(rules, pool, families) && Leads(Unique(families), StrengthKey(rules), f) && Leads(f, IssueKey(rules), r)
  }

  /** A pool has at most one canonical issue. */
  lemma CanonicalIsUnique(rules: Rules, pool: seq<Match>, r: Match, r': Match)
    requires IsCanonical(rules, pool, r) && IsCanonical(rules, pool, r')
    ensures r == r'
  {
    hide AreFamilies, Unique, StrengthKey, IssueKey, Leads;
    var families, f :|
      AreFamilies(rules, pool, families) && Leads(Unique(families), StrengthKey(rules), f) && Leads(f, IssueKey(rules), r);
    var families', f' :|
      AreFamilies(rules, pool, families') && Leads(Unique(families'), StrengthKey(rules), f') && Leads(f', IssueKey(rules), r');
    FamiliesUnique(rules, pool, families, families');
    LeaderIsUnique(Unique(families), StrengthKey(rules), f, f');
    LeaderIsUnique(f, IssueKey(rules), r, r');
  }

  method StrongestIssue(rules: Rules, pool: seq<Match>) returns (r: Option<Match>)
    requires Distinct(pool)
    ensures r.Some? <==> Corroborated(rules, pool)
    ensures r.Some? ==> r.value in pool && IsCanonical(rules, pool, r.value)
  {
    hide Corroborated, IsCanonical, StrengthKey, IssueKey, KeyLess, Distinct, SortBy, Unique, Leads, AreFamilies;
    var families := Families(rules, pool);
    FamiliesCorroborate(rules, pool, families);
    var unique := Unique(families);
    if |unique| == 0 {
      NoneUnique(families);
      return None;
    }
    var strongest := SortBy(unique, StrengthKey(rules))[0];
    FirstLeads(unique, StrengthKey(rules));
    FirstIsLeast(unique, StrengthKey(rules));
    assert IsFamily(rules, pool, strongest);
    r := Some(SortBy(strongest, IssueKey(rules))[0]);
    FirstLeads(strongest, IssueKey(rules));
    FirstIsLeast(strongest, IssueKey(rules));
    Canonical(rules, pool, families, strongest, r.value);
  }

  lemma NoneUnique(families: seq<seq<Match>>)
    requires |Unique(families)| == 0
    ensures |families| == 0
  {
  }

  lemma Canonical(rules: Rules, pool: seq<Match>, families: seq<seq<Match>>, f: seq<Match>, r: Match)
    requires AreFamilies(rules, pool, families) && Leads(Unique(families), StrengthKey(rules), f) && Leads(f, IssueKey(rules), r)
    ensures IsCanonical(rules, pool, r)
  {
    hide AreFamilies, Unique, StrengthKey, IssueKey, Leads;
  }

  /** When a set of results identifies one recording. */
  ghost predicate Identifies(rules: Rules, matches: seq<Match>, allowUncorroboratedSingleton: bool) {
    || (|matches| == 1 && allowUncorroboratedSingleton)
    || (|matches| >= 2 && (|Pool(rules, matches)| == 1 || Corroborated(rules, Pool(rules, matches))))
  }

  /** The result that stands for the recording: the only candidate of the pool, or the canonical one. */
  ghost predicate Represents(rules: Rules, matches: seq<Match>, r: Match) {
    r in Pool(rules, matches) && (|Pool(rules, matches)| > 1 ==> IsCanonical(rules, Pool(rules, matches), r))
  }

  /** At most one result stands for a set of results, and it is derived only if all of them are. */
  lemma RepresentativeIsUnique(rules: Rules, matches: seq<Match>, r: Match, r': Match)
    requires Represents(rules, matches, r) && Represents(rules, matches, r')
    ensures r == r'
    ensures rules.derived(r.song) ==> forall m | m in matches :: rules.derived(m.song)
  {
    hide IsCanonical;
    if |Pool(rules, matches)| > 1 {
      CanonicalIsUnique(rules, Pool(rules, matches), r, r');
    }
  }

  /** Sound and complete: a match is found exactly when one is identified, and it is the one that stands for the recording. */
  method SelectCanonicalSparseMatch(rules: Rules, matches: seq<Match>, allowUncorroboratedSingleton: bool) returns (r: Option<Match>)
    requires Distinct(matches)
    ensures r.Some? <==> Identifies(rules, matches, allowUncorroboratedSingleton)
    ensures r.Some? ==> r.value in matches && Represents(rules, matches, r.value)
  {
    hide Corroborated, IsCanonical;
    if |matches| == 0 { return None; }
    if |matches| == 1 {
      return if allowUncorroboratedSingleton then Some(matches[0]) else None;
    }
    var nonDerived := Filter(matches, NotDerived(rules));
    var pool := if |nonDerived| > 0 then nonDerived else matches;
    FilterDistinct(matches, NotDerived(rules));
    assert pool == Pool(rules, matches);
    if |pool| == 1 {
      assert pool[0] in pool;
      return Some(pool[0]);
    }
    r := StrongestIssue(rules, pool);
  }
}
