/** Catalog results of one recording: greedy grouping by duration. */
module CatalogClusters {
  import opened Collections
  import opened StableSorting

  /** An absent id or ISRC is the empty string, an absent duration is zero. */
  datatype Song = Song(id: string, isrc: string, durationInMillis: int, details: string)

  const CLUSTER_SPAN := 3000

  predicate HasDuration(song: Song) {
    song.durationInMillis > 0
  }

  /** How a result compares with the candidate in artist, title, album, duration, version and year. */
  datatype Comparison = Comparison(
    isrcMatch: bool, isrcConflict: bool,
    artistExact: bool, artistCompatible: bool, artistCollaboratorSetExact: bool, artistCatalogRolePrefixedSetExact: bool,
    artistCreditContainsCandidate: bool,
    titleExact: bool, baseTitleExact: bool, catalogFeatureCreditTitleVariant: bool, compactTitleExact: bool, partStemExact: bool,
    albumExact: bool, durationExact: bool, versionConflict: bool, yearConflict: bool)

  /** A ranked catalog result; sourceIndex is its position among the merged results. */
  datatype Match = Match(song: Song, sourceIndex: nat, comparison: Comparison, score: int)

  function Duration(m: Match): int {
    m.song.durationInMillis
  }

  function DurationKnown(): Match -> bool {
    (m: Match) => HasDuration(m.song)
  }

  function DurationKey(): Match -> seq<int> {
    (m: Match) => [m.song.durationInMillis]
  }

  predicate Close(x: Match, y: Match) {
    -CLUSTER_SPAN <= Duration(x) - Duration(y) <= CLUSTER_SPAN
  }

  ghost predicate Spans(group: seq<Match>) {
    forall x, y | x in group && y in group :: Close(x, y)
  }

  function LongestOf(group: seq<Match>, duration: int): (r: int)
    ensures r >= duration && forall m | m in group :: r >= Duration(m)
    ensures r == duration || exists m :: m in group && Duration(m) == r
  {
    if |group| == 0 then duration
    else
      var rest := LongestOf(group[..|group| - 1], duration);
      var last := group[|group| - 1];
      assert group == group[..|group| - 1] + [last];
      if Duration(last) > rest then Duration(last) else rest
  }

  function ShortestOf(group: seq<Match>, duration: int): (r: int)
    ensures r <= duration && forall m | m in group :: r <= Duration(m)
    ensures r == duration || exists m :: m in group && Duration(m) == r
  {
    if |group| == 0 then duration
    else
      var rest := ShortestOf(group[..|group| - 1], duration);
      var last := group[|group| - 1];
      assert group == group[..|group| - 1] + [last];
      if Duration(last) < rest then Duration(last) else rest
  }

  predicate Fits(group: seq<Match>, duration: int) {
    LongestOf(group, duration) - ShortestOf(group, duration) <= CLUSTER_SPAN
  }

  /** The first group that still fits, or |clusters|. */
  function FirstFit(clusters: seq<seq<Match>>, duration: int): (r: nat)
    ensures r <= |clusters| && (r < |clusters| ==> Fits(clusters[r], duration))
    ensures forall k | 0 <= k < r :: !Fits(clusters[k], duration)
  {
    if |clusters| == 0 then 0
    else
      var r := FirstFit(clusters[..|clusters| - 1], duration);
      assert forall k | 0 <= k < |clusters| - 1 :: clusters[..|clusters| - 1][k] == clusters[k];
      if r < |clusters| - 1 then r else if Fits(clusters[|clusters| - 1], duration) then |clusters| - 1 else |clusters|
  }

  /** Greedy clusters of ascending durations: every group starts more than the span after the one before. */
  ghost predicate Greedy(clusters: seq<seq<Match>>) {
    && (forall k | 0 <= k < |clusters| :: |clusters[k]| > 0 && WithinSpanOfHead(clusters[k]))
    && (forall j, k | 0 <= j < k < |clusters| :: Duration(clusters[k][0]) > Duration(clusters[j][0]) + CLUSTER_SPAN)
  }

  ghost predicate WithinSpanOfHead(group: seq<Match>)
    requires |group| > 0
  {
    forall m | m in group :: Duration(group[0]) <= Duration(m) <= Duration(group[0]) + CLUSTER_SPAN
  }

  lemma FitsIsNearHead(group: seq<Match>, duration: int)
    requires |group| > 0 && WithinSpanOfHead(group) && forall m | m in group :: Duration(m) <= duration
    ensures Fits(group, duration) <==> duration <= Duration(group[0]) + CLUSTER_SPAN
  {
    assert group[0] in group;
  }

  /** Only the last group can take the next, longer item. */
  lemma OnlyLastFits(clusters: seq<seq<Match>>, duration: int)
    requires Greedy(clusters)
    requires forall k, m | 0 <= k < |clusters| && m in clusters[k] :: Duration(m) <= duration
    ensures FirstFit(clusters, duration) >= |clusters| - 1
    ensures |clusters| > 0 ==>
      (FirstFit(clusters, duration) == |clusters| - 1 <==> duration <= Duration(clusters[|clusters| - 1][0]) + CLUSTER_SPAN)
  {
    forall k | 0 <= k < |clusters| ensures Fits(clusters[k], duration) <==> duration <= Duration(clusters[k][0]) + CLUSTER_SPAN {
      FitsIsNearHead(clusters[k], duration);
    }
    if |clusters| > 0 {
      var last := clusters[|clusters| - 1];
      assert last[0] in last;
    }
  }

  lemma GreedyGrows(clusters: seq<seq<Match>>, item: Match)
    requires Greedy(clusters)
    requires forall k, m | 0 <= k < |clusters| && m in clusters[k] :: Duration(m) <= Duration(item)
    requires |clusters| > 0 && Duration(item) <= Duration(clusters[|clusters| - 1][0]) + CLUSTER_SPAN
    ensures var n := |clusters| - 1;
      Greedy(clusters[n := clusters[n] + [item]]) && Flatten(clusters[n := clusters[n] + [item]]) == Flatten(clusters) + [item]
  {
    var n := |clusters| - 1;
    var after := clusters[n := clusters[n] + [item]];
    assert clusters[n][0] in clusters[n];
    assert after[..n] == clusters[..n];
  }

  lemma OneIsWithinSpan(item: Match)
    ensures WithinSpanOfHead([item])
  {
  }

  lemma EarlierHeads(clusters: seq<seq<Match>>, item: Match)
    requires Greedy(clusters) && |clusters| > 0
    requires Duration(item) > Duration(clusters[|clusters| - 1][0]) + CLUSTER_SPAN
    ensures forall j | 0 <= j < |clusters| :: Duration(item) > Duration(clusters[j][0]) + CLUSTER_SPAN
  {
    hide WithinSpanOfHead;
    var last := |clusters| - 1;
    forall j | 0 <= j < |clusters| ensures Duration(item) > Duration(clusters[j][0]) + CLUSTER_SPAN {
      if j < last { assert Duration(clusters[last][0]) > Duration(clusters[j][0]) + CLUSTER_SPAN; }
    }
  }

  lemma GreedyStarts(clusters: seq<seq<Match>>, item: Match)
    requires Greedy(clusters)
    requires |clusters| > 0 ==> Duration(item) > Duration(clusters[|clusters| - 1][0]) + CLUSTER_SPAN
    ensures Greedy(clusters + [[item]]) && Flatten(clusters + [[item]]) == Flatten(clusters) + [item]
  {
    hide Flatten, WithinSpanOfHead, Duration;
    FlattenOneMore(clusters, [item]);
    var after := clusters + [[item]];
    OneIsWithinSpan(item);
    assert forall k | 0 <= k < |clusters| :: after[k] == clusters[k];
    if |clusters| > 0 {
      EarlierHeads(clusters, item);
    }
  }

  /** The groups of durationClusters: a partition of the rows with known durations into as few groups within the span as possible. */
  method DurationClusters(matches: seq<Match>) returns (clusters: seq<seq<Match>>)
    ensures Flatten(clusters) == SortBy(Filter(matches, DurationKnown()), DurationKey())
    ensures Greedy(clusters)
  {
    var withDuration := SortBy(Filter(matches, DurationKnown()), DurationKey());
    SortBySorts(Filter(matches, DurationKnown()), DurationKey());
    hide KeyLess, SortBy, Filter, Greedy, Flatten;
    clusters := [];
    NoClusters();
    for i := 0 to |withDuration|
      invariant Greedy(clusters) && Flatten(clusters) == withDuration[..i]
    {
      var item := withDuration[i];
      var duration := Duration(item);
      PlacedAreShorter(clusters, withDuration, i);
      OnlyLastFits(clusters, duration);
      var index := FirstFit(clusters, duration);
      if index < |clusters| {
        GreedyGrows(clusters, item);
        clusters := clusters[index := clusters[index] + [item]];
      } else {
        GreedyStarts(clusters, item);
        clusters := clusters + [[item]];
      }
      assert withDuration[..i + 1] == withDuration[..i] + [item];
    }
    assert withDuration[..|withDuration|] == withDuration;
  }

  lemma NoClusters()
    ensures Greedy([]) && Flatten<Match>([]) == []
  {
  }

  lemma PlacedAreShorter(clusters: seq<seq<Match>>, sorted: seq<Match>, i: nat)
    requires SortedBy(sorted, DurationKey()) && i < |sorted| && Flatten(clusters) == sorted[..i]
    ensures forall k, m | 0 <= k < |clusters| && m in clusters[k] :: Duration(m) <= Duration(sorted[i])
  {
    forall k, m | 0 <= k < |clusters| && m in clusters[k] ensures Duration(m) <= Duration(sorted[i]) {
      FlattenMembers(clusters, m);
      var j :| 0 <= j < i && sorted[j] == m;
      assert !KeyLess(DurationKey()(sorted[i]), DurationKey()(sorted[j]));
    }
  }

  // ---------- what greedy clusters are ----------

  lemma NextStartsLater(a: seq<seq<Match>>)
    requires Greedy(a) && |a| > 0 && |Flatten(a[1..])| > 0
    ensures Duration(Flatten(a[1..])[0]) > Duration(a[0][0]) + CLUSTER_SPAN
  {
    FlattenFirst(a[1..]);
    hide Flatten;
    assert a[1..][0] == a[1];
  }

  lemma LongerSplit<T>(a: seq<T>, s: seq<T>, b: seq<T>, t: seq<T>)
    requires a + s == b + t && 0 < |a| < |b|
    ensures |s| > 0 && a[0] == b[0] && s[0] in b
  {
    assert |a + s| == |b + t|;
    assert (a + s)[0] == a[0] && (b + t)[0] == b[0];
    assert (a + s)[|a|] == s[0] && (b + t)[|a|] == b[|a|];
  }

  lemma SameHead(a: seq<seq<Match>>, b: seq<seq<Match>>)
    requires Greedy(a) && Greedy(b) && |a| > 0 && |b| > 0
    requires a[0] + Flatten(a[1..]) == b[0] + Flatten(b[1..])
    ensures |a[0]| >= |b[0]|
  {
    hide Flatten;
    if |a[0]| < |b[0]| {
      LongerSplit(a[0], Flatten(a[1..]), b[0], Flatten(b[1..]));
      NextStartsLater(a);
      assert false;
    }
  }

  lemma GreedyRest(a: seq<seq<Match>>)
    requires Greedy(a) && |a| > 0
    ensures Greedy(a[1..])
  {
  }

  lemma SplitAlike<T>(a: seq<T>, s: seq<T>, b: seq<T>, t: seq<T>)
    requires a + s == b + t && |a| == |b|
    ensures a == b && s == t
  {
    assert a == (a + s)[..|a|] && b == (b + t)[..|a|];
    assert s == (a + s)[|a|..] && t == (b + t)[|a|..];
  }

  /** There is one way to cut a list of rows into greedy clusters. */
  lemma {:induction false} GreedyUnique(a: seq<seq<Match>>, b: seq<seq<Match>>)
    requires Greedy(a) && Greedy(b) && Flatten(a) == Flatten(b)
    ensures a == b
  {
    hide Greedy, Flatten;
    NonEmptyFlatten(a);
    NonEmptyFlatten(b);
    if |a| > 0 {
      FlattenFirst(a);
      FlattenFirst(b);
      SameHead(a, b);
      SameHead(b, a);
      SplitAlike(a[0], Flatten(a[1..]), b[0], Flatten(b[1..]));
      GreedyRest(a);
      GreedyRest(b);
      GreedyUnique(a[1..], b[1..]);
      assert a == [a[0]] + a[1..] && b == [b[0]] + b[1..];
    }
  }

  lemma NonEmptyFlatten(a: seq<seq<Match>>)
    requires Greedy(a)
    ensures |a| > 0 <==> |Flatten(a)| > 0
  {
  }

  /** Clustering keeps every row whose duration is known, and nothing else. */
  lemma ClustersPartition(clusters: seq<seq<Match>>, matches: seq<Match>)
    requires Flatten(clusters) == SortBy(Filter(matches, DurationKnown()), DurationKey())
    ensures multiset(Flatten(clusters)) == multiset(Filter(matches, DurationKnown()))
    ensures forall m :: m in Flatten(clusters) <==> m in matches && HasDuration(m.song)
  {
    SortKeepsMembers(Filter(matches, DurationKnown()), DurationKey());
    hide SortBy;
  }

  lemma GreedySpans(clusters: seq<seq<Match>>)
    requires Greedy(clusters)
    ensures forall k | 0 <= k < |clusters| :: Spans(clusters[k])
  {
  }

  /** The group of a cover that holds the head of cluster k. */
  lemma HeadsApart(clusters: seq<seq<Match>>, groups: seq<seq<Match>>, j: nat, k: nat, g: nat)
    requires Greedy(clusters) && j < k < |clusters| && g < |groups| && Spans(groups[g])
    ensures !(clusters[j][0] in groups[g] && clusters[k][0] in groups[g])
  {
    assert !Close(clusters[j][0], clusters[k][0]);
  }

  /** No division of the same rows into groups within the span has fewer groups. */
  lemma FewestClusters(clusters: seq<seq<Match>>, groups: seq<seq<Match>>)
    requires Greedy(clusters)
    requires forall g | 0 <= g < |groups| :: Spans(groups[g])
    requires forall m | m in Flatten(clusters) :: m in Flatten(groups)
    ensures |clusters| <= |groups|
  {
    var _ := HomesOfHeads(clusters, groups, |clusters|);
  }

  /** The first n heads sit in n different groups. */
  lemma {:induction false} HomesOfHeads(clusters: seq<seq<Match>>, groups: seq<seq<Match>>, n: nat) returns (homes: set<nat>)
    requires Greedy(clusters) && n <= |clusters|
    requires forall g | 0 <= g < |groups| :: Spans(groups[g])
    requires forall m | m in Flatten(clusters) :: m in Flatten(groups)
    ensures |homes| == n && n <= |groups|
    ensures forall g | g in homes :: 0 <= g < |groups| && exists k :: 0 <= k < n && |clusters[k]| > 0 && clusters[k][0] in groups[g]
  {
    hide Greedy, Flatten, Spans;
    if n == 0 {
      return {};
    }
    var before := HomesOfHeads(clusters, groups, n - 1);
    HeadInFlatten(clusters, n - 1);
    var head := clusters[n - 1][0];
    FlattenMembers(groups, head);
    var home :| 0 <= home < |groups| && head in groups[home];
    if home in before {
      var k :| 0 <= k < n - 1 && |clusters[k]| > 0 && clusters[k][0] in groups[home];
      HeadsApart(clusters, groups, k, n - 1, home);
      assert false;
    }
    homes := before + {home};
    SubsetCardinality(homes, Upto(|groups|));
  }

  lemma HeadInFlatten(clusters: seq<seq<Match>>, k: nat)
    requires Greedy(clusters) && k < |clusters|
    ensures |clusters[k]| > 0 && clusters[k][0] in Flatten(clusters)
  {
    assert clusters[k][0] in clusters[k];
    FlattenMembers(clusters, clusters[k][0]);
  }

  ghost predicate SomePair(clusters: seq<seq<Match>>) {
    exists k :: 0 <= k < |clusters| && |clusters[k]| >= 2
  }

  ghost predicate TwoClose(s: seq<Match>) {
    exists x, y :: x in s && y in s && x != y && Close(x, y)
  }

  /** Some cluster has two members exactly when two rows lie within the span. */
  lemma TwoCloseRowsShareACluster(clusters: seq<seq<Match>>)
    requires Greedy(clusters) && Distinct(Flatten(clusters))
    ensures SomePair(clusters) <==> TwoClose(Flatten(clusters))
  {
    hide Greedy, Flatten, TwoClose;
    if k :| 0 <= k < |clusters| && |clusters[k]| >= 2 {
      PairIsClose(clusters, k);
    }
    if TwoClose(Flatten(clusters)) {
      CloseMakesPair(clusters);
    }
  }

  lemma PairIsClose(clusters: seq<seq<Match>>, k: nat)
    requires Greedy(clusters) && Distinct(Flatten(clusters)) && k < |clusters| && |clusters[k]| >= 2
    ensures TwoClose(Flatten(clusters))
  {
    GreedySpans(clusters);
    hide Greedy, Flatten;
    var x, y := clusters[k][0], clusters[k][1];
    assert x in clusters[k] && y in clusters[k];
    FlattenMembers(clusters, x);
    FlattenMembers(clusters, y);
    PartDistinct(clusters, k);
  }

  lemma CloseMakesPair(clusters: seq<seq<Match>>)
    requires Greedy(clusters) && TwoClose(Flatten(clusters))
    ensures SomePair(clusters)
  {
    hide Flatten;
    var x, y :| x in Flatten(clusters) && y in Flatten(clusters) && x != y && Close(x, y);
    FlattenMembers(clusters, x);
    FlattenMembers(clusters, y);
    var j :| 0 <= j < |clusters| && x in clusters[j];
    var k :| 0 <= k < |clusters| && y in clusters[k];
    if |clusters[j]| == 1 && |clusters[k]| == 1 {
      SingletonsApart(clusters, j, k, x, y);
      assert false;
    }
  }

  lemma SingletonsApart(clusters: seq<seq<Match>>, j: nat, k: nat, x: Match, y: Match)
    requires Greedy(clusters) && j < |clusters| && k < |clusters| && x != y
    requires |clusters[j]| == 1 && x in clusters[j] && |clusters[k]| == 1 && y in clusters[k]
    ensures !Close(x, y)
  {
    assert clusters[j][0] == x && clusters[k][0] == y;
    assert j < k || k < j;
  }

  lemma {:induction false} PartDistinct<T>(groups: seq<seq<T>>, k: nat)
    requires k < |groups| && Distinct(Flatten(groups))
    ensures Distinct(groups[k])
  {
    var n := |groups| - 1;
    var before := Flatten(groups[..n]);
    if k == n {
      forall i, j | 0 <= i < j < |groups[k]| ensures groups[k][i] != groups[k][j] {
        assert Flatten(groups)[|before| + i] == groups[k][i] && Flatten(groups)[|before| + j] == groups[k][j];
      }
    } else {
      forall i, j | 0 <= i < j < |before| ensures before[i] != before[j] {
        assert Flatten(groups)[i] == before[i] && Flatten(groups)[j] == before[j];
      }
      PartDistinct(groups[..n], k);
    }
  }
}
