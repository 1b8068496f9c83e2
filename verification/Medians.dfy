/** Medians of scores, and why pairwise improvement cannot lower one. */
module Medians {
  import opened Collections
  import opened Counting

  function InsertScore(s: seq<real>, x: real): (r: seq<real>)
    ensures multiset(r) == multiset(s) + multiset{x} && |r| == |s| + 1
  {
    if |s| == 0 || s[|s| - 1] <= x then s + [x]
    else
      assert s == s[..|s| - 1] + [s[|s| - 1]];
      InsertScore(s[..|s| - 1], x) + [s[|s| - 1]]
  }

  function Sorted(s: seq<real>): (r: seq<real>)
    ensures multiset(r) == multiset(s) && |r| == |s|
  {
    if |s| == 0 then []
    else
      assert s == s[..|s| - 1] + [s[|s| - 1]];
      InsertScore(Sorted(s[..|s| - 1]), s[|s| - 1])
  }

  ghost predicate IsAscending(s: seq<real>) {
    forall i, j | 0 <= i < j < |s| :: s[i] <= s[j]
  }

  lemma {:induction false} InsertAscends(s: seq<real>, x: real)
    requires IsAscending(s)
    ensures IsAscending(InsertScore(s, x))
  {
    if |s| > 0 && s[|s| - 1] > x {
      var before, last := s[..|s| - 1], s[|s| - 1];
      InsertAscends(before, x);
      forall i | 0 <= i < |InsertScore(before, x)| ensures InsertScore(before, x)[i] <= last {
        assert InsertScore(before, x)[i] in multiset(InsertScore(before, x));
      }
    }
  }

  lemma {:induction false} SortedAscends(s: seq<real>)
    ensures IsAscending(Sorted(s))
  {
    if |s| > 0 {
      SortedAscends(s[..|s| - 1]);
      InsertAscends(Sorted(s[..|s| - 1]), s[|s| - 1]);
    }
  }

  function Median(values: seq<real>): real
    requires |values| > 0
  {
    var sorted := Sorted(values);
    var middle := |sorted| / 2;
    if |sorted| % 2 == 1 then sorted[middle] else (sorted[middle - 1] + sorted[middle]) / 2.0
  }

  function AtMost(bound: real): real -> bool {
    (x: real) => x <= bound
  }

  /** In ascending order, the k-th item is at most bound exactly when more than k items are. */
  lemma {:induction false} RankByCount(s: seq<real>, k: nat, bound: real)
    requires IsAscending(s) && k < |s|
    ensures s[k] <= bound <==> CountTrue(s, AtMost(bound)) > k
  {
    hide CountTrue;
    var before, last := s[..|s| - 1], s[|s| - 1];
    CountOneMore(before, last, AtMost(bound));
    assert s == before + [last];
    if k < |before| {
      RankByCount(before, k, bound);
    } else if last <= bound {
      AllAtMost(s, bound);
    }
  }

  lemma AllAtMost(s: seq<real>, bound: real)
    requires IsAscending(s) && |s| > 0 && s[|s| - 1] <= bound
    ensures CountTrue(s, AtMost(bound)) == |s|
  {
    hide CountTrue;
    forall x | x in s ensures AtMost(bound)(x) {
      var i :| 0 <= i < |s| && s[i] == x;
    }
  }

  lemma {:induction false} MoreAtMost(low: seq<real>, high: seq<real>, bound: real)
    requires |low| == |high| && forall i | 0 <= i < |low| :: low[i] <= high[i]
    ensures CountTrue(low, AtMost(bound)) >= CountTrue(high, AtMost(bound))
  {
    hide CountTrue;
    if |low| > 0 {
      var n := |low| - 1;
      MoreAtMost(low[..n], high[..n], bound);
      CountOneMore(low[..n], low[n], AtMost(bound));
      CountOneMore(high[..n], high[n], AtMost(bound));
      assert low == low[..n] + [low[n]] && high == high[..n] + [high[n]];
    }
  }

  /** Rank by rank, the sorted smaller scores stay at most the sorted larger ones. */
  lemma SortedDominance(low: seq<real>, high: seq<real>, k: nat)
    requires |low| == |high| && (forall i | 0 <= i < |low| :: low[i] <= high[i]) && k < |low|
    ensures Sorted(low)[k] <= Sorted(high)[k]
  {
    var bound := Sorted(high)[k];
    SortedAscends(low);
    SortedAscends(high);
    RankByCount(Sorted(high), k, bound);
    RankByCount(Sorted(low), k, bound);
    CountByContents(Sorted(high), high, AtMost(bound));
    CountByContents(Sorted(low), low, AtMost(bound));
    MoreAtMost(low, high, bound);
  }

  /** Median dominance, for any number of pairs. */
  lemma MedianDominance(low: seq<real>, high: seq<real>)
    requires |low| == |high| > 0 && forall i | 0 <= i < |low| :: low[i] <= high[i]
    ensures Median(low) <= Median(high)
  {
    hide Sorted;
    SortedDominance(low, high, |low| / 2);
    if |low| % 2 == 0 {
      SortedDominance(low, high, |low| / 2 - 1);
    }
  }

  // ---------- what a median is ----------

  function AtLeast(bound: real): real -> bool {
    (x: real) => x >= bound
  }

  /** v is a value with exactly k values before it in ascending order, said by counting. */
  ghost predicate HasRank(values: seq<real>, k: nat, v: real) {
    && v in values
    && CountTrue(values, AtMost(v)) > k
    && CountTrue(values, AtLeast(v)) >= |values| - k
  }

  /** Values up to one bound and values from a higher one are different values. */
  lemma {:induction false} CountsApart(values: seq<real>, v: real, w: real)
    requires v < w
    ensures CountTrue(values, AtMost(v)) + CountTrue(values, AtLeast(w)) <= |values|
  {
    hide CountTrue;
    if |values| == 0 {
      assert values == [];
    } else {
      var before, last := values[..|values| - 1], values[|values| - 1];
      CountsApart(before, v, w);
      assert values == before + [last];
      CountOneMore(before, last, AtMost(v));
      CountOneMore(before, last, AtLeast(w));
    }
  }

  /** The lower and the upper of the two middle places; they are one place when the number of values is odd. */
  ghost predicate IsLowMiddle(values: seq<real>, v: real) {
    |values| > 0 && HasRank(values, (|values| - 1) / 2, v)
  }

  ghost predicate IsHighMiddle(values: seq<real>, v: real) {
    |values| > 0 && HasRank(values, |values| / 2, v)
  }

  lemma RankIsUnique(values: seq<real>, k: nat, v: real, w: real)
    requires HasRank(values, k, v) && HasRank(values, k, w)
    ensures v == w
  {
    if v < w { CountsApart(values, v, w); }
    if w < v { CountsApart(values, w, v); }
  }

  /** In ascending order, the k-th item and all behind it are at least as large. */
  lemma {:induction false} RankByCountAbove(s: seq<real>, k: nat)
    requires IsAscending(s) && k < |s|
    ensures CountTrue(s, AtLeast(s[k])) >= |s| - k
  {
    hide CountTrue;
    var before, last := s[..|s| - 1], s[|s| - 1];
    CountOneMore(before, last, AtLeast(s[k]));
    assert s == before + [last];
    if k < |before| {
      RankByCountAbove(before, k);
      assert before[k] == s[k];
    }
  }

  lemma SortedHasRank(values: seq<real>, k: nat)
    requires k < |values|
    ensures HasRank(values, k, Sorted(values)[k])
  {
    hide CountTrue, Sorted;
    var s := Sorted(values);
    SortedAscends(values);
    RankByCount(s, k, s[k]);
    RankByCountAbove(s, k);
    CountByContents(s, values, AtMost(s[k]));
    CountByContents(s, values, AtLeast(s[k]));
    SameContents(s, values);
    assert s[k] in s;
  }

  /** The two middle values are one in a list of odd length; the median lies half way between them. */
  lemma MedianIsMiddle(values: seq<real>, low: real, high: real)
    requires IsLowMiddle(values, low) && IsHighMiddle(values, high)
    ensures 2.0 * Median(values) == low + high
    ensures |values| % 2 == 1 ==> low == high == Median(values)
  {
    hide HasRank, Sorted;
    SortedHasRank(values, (|values| - 1) / 2);
    SortedHasRank(values, |values| / 2);
    RankIsUnique(values, (|values| - 1) / 2, low, Sorted(values)[(|values| - 1) / 2]);
    RankIsUnique(values, |values| / 2, high, Sorted(values)[|values| / 2]);
  }

  lemma MiddlesExist(values: seq<real>) returns (low: real, high: real)
    requires |values| > 0
    ensures IsLowMiddle(values, low) && IsHighMiddle(values, high)
  {
    hide HasRank, Sorted;
    low, high := Sorted(values)[(|values| - 1) / 2], Sorted(values)[|values| / 2];
    SortedHasRank(values, (|values| - 1) / 2);
    SortedHasRank(values, |values| / 2);
  }

  /** An odd number of values: the median is one of them, and a majority lies on either side of it, itself included. */
  lemma OddMedian(values: seq<real>)
    requires |values| % 2 == 1
    ensures var m := Median(values);
      m in values && CountTrue(values, AtMost(m)) > |values| / 2 && CountTrue(values, AtLeast(m)) > |values| / 2
  {
    hide CountTrue, Median;
    var low, high := MiddlesExist(values);
    MedianIsMiddle(values, low, high);
  }

  /** An even number of values: the median is half way between two of them, with half of the values on either outer side. */
  lemma EvenMedian(values: seq<real>) returns (low: real, high: real)
    requires |values| > 0 && |values| % 2 == 0
    ensures low in values && high in values && low <= high && 2.0 * Median(values) == low + high
    ensures CountTrue(values, AtMost(low)) >= |values| / 2 && CountTrue(values, AtLeast(low)) > |values| / 2
    ensures CountTrue(values, AtMost(high)) > |values| / 2 && CountTrue(values, AtLeast(high)) >= |values| / 2
  {
    hide CountTrue, Median;
    low, high := MiddlesExist(values);
    MedianIsMiddle(values, low, high);
    if high < low { CountsApart(values, high, low); }
  }
}
