/** Small facts about sets and sequences that several modules share. */
module Collections {

  datatype Option<+T> = None | Some(value: T)

  datatype Result<+T> = Ok(value: T) | Err(error: string)

  /** The elements of s, as a set. */
  function Elements<T>(s: seq<T>): set<T> {
    set x | x in s
  }

  /** The first n natural numbers. */
  function Upto(n: nat): (r: set<nat>)
    ensures forall i: nat :: i in r <==> i < n
    ensures |r| == n
  {
    if n == 0 then {} else Upto(n - 1) + {n - 1}
  }

  ghost predicate Distinct<T>(s: seq<T>) {
    forall i, j | 0 <= i < j < |s| :: s[i] != s[j]
  }

  /** f of every item (Array.prototype.map). */
  function Mapped<T, U>(s: seq<T>, f: T -> U): (r: seq<U>)
    ensures |r| == |s| && forall k | 0 <= k < |s| :: r[k] == f(s[k])
  {
    seq(|s|, k requires 0 <= k < |s| => f(s[k]))
  }

  /** The subsequence of s that satisfies p (Array.prototype.filter). */
  function Filter<T>(s: seq<T>, p: T -> bool): (r: seq<T>)
    ensures forall x | x in s :: p(x) ==> x in r
    ensures forall x | x in r :: x in s && p(x)
    ensures |r| <= |s|
  {
    if |s| == 0 then []
    else
      var last := s[|s| - 1];
      if p(last) then Filter(s[..|s| - 1], p) + [last] else Filter(s[..|s| - 1], p)
  }

  lemma {:induction false} FilterAppend<T>(s: seq<T>, t: seq<T>, p: T -> bool)
    ensures Filter(s + t, p) == Filter(s, p) + Filter(t, p)
  {
    if |t| == 0 {
      assert s + t == s;
    } else {
      assert (s + t)[..|s + t| - 1] == s + t[..|t| - 1];
      FilterAppend(s, t[..|t| - 1], p);
    }
  }

  lemma FilterOneMore<T>(s: seq<T>, x: T, p: T -> bool)
    ensures Filter(s + [x], p) == Filter(s, p) + (if p(x) then [x] else [])
  {
    assert (s + [x])[..|s|] == s;
  }

  lemma {:induction false} FilterDistinct<T>(s: seq<T>, p: T -> bool)
    requires Distinct(s)
    ensures Distinct(Filter(s, p))
  {
    if |s| > 0 {
      FilterDistinct(s[..|s| - 1], p);
      assert s[|s| - 1] !in s[..|s| - 1];
      assert s[|s| - 1] !in Filter(s[..|s| - 1], p);
    }
  }

  /** Strictly ascending. */
  ghost predicate Climbs(s: seq<nat>) {
    forall j, k | 0 <= j < k < |s| :: s[j] < s[k]
  }

  /** picked holds the items at places, in ascending order, and these are the items that pass. */
  ghost predicate Picks<T>(s: seq<T>, p: T -> bool, places: seq<nat>, picked: seq<T>) {
    && Climbs(places) && |places| == |picked|
    && (forall k: nat :: k in places <==> k < |s| && p(s[k]))
    && (forall i | 0 <= i < |places| :: places[i] < |s| && picked[i] == s[places[i]])
  }

  lemma PicksOneMore<T>(s: seq<T>, x: T, p: T -> bool, places: seq<nat>, picked: seq<T>)
    requires Picks(s, p, places, picked)
    ensures Picks(s + [x], p, if p(x) then places + [|s|] else places, if p(x) then picked + [x] else picked)
  {
    forall i | 0 <= i < |places| ensures places[i] < |s| { assert places[i] in places; }
    var after := if p(x) then places + [|s|] else places;
    forall k: nat ensures k in after <==> k < |s + [x]| && p((s + [x])[k]) {
      assert k in after <==> k in places || (p(x) && k == |s|);
      if k < |s| { assert (s + [x])[k] == s[k]; }
    }
  }

  lemma {:induction false} FilterPicks<T>(s: seq<T>, p: T -> bool) returns (places: seq<nat>)
    ensures Picks(s, p, places, Filter(s, p))
  {
    hide Picks, Filter;
    if |s| == 0 {
      places := [];
      assert s == [];
      NothingToPick(p);
    } else {
      var n := |s| - 1;
      var before := FilterPicks(s[..n], p);
      FilterOneMore(s[..n], s[n], p);
      PicksOneMore(s[..n], s[n], p, before, Filter(s[..n], p));
      assert s == s[..n] + [s[n]];
      assert Filter(s[..n], p) + [] == Filter(s[..n], p);
      places := if p(s[n]) then before + [n] else before;
    }
  }

  lemma NothingToPick<T>(p: T -> bool)
    ensures Picks([], p, [], []) && Filter([], p) == []
  {
  }

  /** Keep the members that pass, unless none does. */
  function Prefer<T>(s: seq<T>, p: T -> bool): (r: seq<T>)
    ensures forall x | x in r :: x in s
    ensures (exists x :: x in s && p(x)) ==> forall x | x in s :: x in r <==> p(x)
    ensures !(exists x :: x in s && p(x)) ==> r == s
    ensures |s| > 0 ==> |r| > 0
  {
    var kept := Filter(s, p);
    if |kept| > 0 then assert kept[0] in s && p(kept[0]); kept else s
  }

  /** The same two functions for a test that reads mutable objects. */
  function FilterReading<T>(s: seq<T>, p: T ~> bool): (r: seq<T>)
    requires forall x | x in s :: p.requires(x)
    reads set x, o | x in s && o in p.reads(x) :: o
    ensures forall x | x in s :: p(x) ==> x in r
    ensures forall x | x in r :: x in s && p(x)
    ensures |r| <= |s|
  {
    if |s| == 0 then []
    else
      var last := s[|s| - 1];
      if p(last) then FilterReading(s[..|s| - 1], p) + [last] else FilterReading(s[..|s| - 1], p)
  }

  function PreferReading<T>(s: seq<T>, p: T ~> bool): (r: seq<T>)
    requires forall x | x in s :: p.requires(x)
    reads set x, o | x in s && o in p.reads(x) :: o
    ensures forall x | x in r :: x in s
    ensures (exists x :: x in s && p(x)) ==> forall x | x in s :: x in r <==> p(x)
    ensures !(exists x :: x in s && p(x)) ==> r == s
    ensures |s| > 0 ==> |r| > 0
  {
    var kept := FilterReading(s, p);
    if |kept| > 0 then assert kept[0] in s && p(kept[0]); kept else s
  }

  lemma {:induction false} DistinctCardinality<T>(s: seq<T>)
    requires Distinct(s)
    ensures |Elements(s)| == |s|
  {
    if |s| > 0 {
      var t := s[..|s| - 1];
      DistinctCardinality(t);
      assert s == t + [s[|s| - 1]];
      assert Elements(s) == Elements(t) + {s[|s| - 1]};
    }
  }

  lemma {:induction false} SubsetCardinality<T>(a: set<T>, b: set<T>)
    requires a <= b
    ensures |a| <= |b|
    ensures |a| == |b| ==> a == b
  {
    if a == {} {
    } else {
      var x :| x in a;
      SubsetCardinality(a - {x}, b - {x});
    }
  }

  lemma DisjointCardinality<T>(a: set<T>, b: set<T>, whole: set<T>)
    requires a !! b && a <= whole && b <= whole
    ensures |a| + |b| <= |whole|
  {
    assert |a + b| == |a| + |b|;
    SubsetCardinality(a + b, whole);
  }

  /** Growing a set by at most one new element. */
  lemma GrowByOne<T>(s: set<T>, x: T, t: set<T>, added: bool)
    requires x !in s && forall y :: y in t <==> y in s || (added && y == x)
    ensures t == s + (if added then {x} else {}) && |t| == |s| + (if added then 1 else 0)
  {
    if added {
      assert t == s + {x};
    } else {
      assert t == s;
    }
  }

  /** The first position of x, or |s|. */
  function FirstIndex<T(==)>(s: seq<T>, x: T): (r: nat)
    ensures r <= |s| && (r < |s| ==> s[r] == x)
    ensures forall k | 0 <= k < r :: s[k] != x
  {
    if |s| == 0 || s[0] == x then 0
    else
      assert forall k | 1 <= k < |s| :: s[1..][k - 1] == s[k];
      FirstIndex(s[1..], x) + 1
  }

  lemma NoElements<T>(s: seq<T>)
    ensures Elements(s) == {} <==> s == []
  {
    if s != [] {
      assert s[0] in Elements(s);
    }
  }

  lemma DistinctByMultiset<T>(s: seq<T>)
    ensures Distinct(s) <==> forall x | x in s :: multiset(s)[x] == 1
  {
    if Distinct(s) {
      forall x | x in s ensures multiset(s)[x] == 1 { OccursOnce(s, x); }
    } else {
      var i, j :| 0 <= i < j < |s| && s[i] == s[j];
      assert s == s[..j] + s[j..];
      assert s[i] in s[..j] && s[j] in s[j..];
      assert multiset(s)[s[i]] == multiset(s[..j])[s[i]] + multiset(s[j..])[s[i]];
    }
  }

  lemma {:induction false} OccursOnce<T>(s: seq<T>, x: T)
    requires Distinct(s) && x in s
    ensures multiset(s)[x] == 1
  {
    var n := |s| - 1;
    assert s == s[..n] + [s[n]];
    if x != s[n] {
      OccursOnce(s[..n], x);
    } else {
      assert x !in s[..n];
    }
  }

  lemma SameContents<T>(s: seq<T>, t: seq<T>)
    requires multiset(s) == multiset(t)
    ensures forall x :: x in s <==> x in t
    ensures |s| == |t|
    ensures Distinct(s) <==> Distinct(t)
  {
    assert forall x :: x in s <==> x in multiset(s);
    assert forall x :: x in t <==> x in multiset(t);
    assert |s| == |multiset(s)| && |t| == |multiset(t)|;
    DistinctByMultiset(s);
    DistinctByMultiset(t);
  }

  lemma SameElements<T>(s: seq<T>, t: seq<T>)
    requires Distinct(s) && Distinct(t) && Elements(s) == Elements(t)
    ensures multiset(s) == multiset(t)
  {
    DistinctByMultiset(s);
    DistinctByMultiset(t);
    forall x ensures multiset(s)[x] == multiset(t)[x] {
      assert x in Elements(s) <==> x in Elements(t);
      assert x in multiset(s) <==> x in s;
      assert x in multiset(t) <==> x in t;
    }
  }

  lemma ElementsByContents<T>(s: seq<T>, t: seq<T>)
    requires multiset(s) == multiset(t)
    ensures Elements(s) == Elements(t)
  {
    SameContents(s, t);
  }

  /** All parts, one after the other (Array.prototype.flat). */
  function Flatten<T>(groups: seq<seq<T>>): seq<T> {
    if |groups| == 0 then [] else Flatten(groups[..|groups| - 1]) + groups[|groups| - 1]
  }

  lemma FlattenOneMore<T>(groups: seq<seq<T>>, group: seq<T>)
    ensures Flatten(groups + [group]) == Flatten(groups) + group
  {
    assert (groups + [group])[..|groups|] == groups;
  }

  lemma {:induction false} FlattenFirst<T>(groups: seq<seq<T>>)
    requires |groups| > 0
    ensures Flatten(groups) == groups[0] + Flatten(groups[1..])
  {
    if |groups| > 1 {
      var before := groups[..|groups| - 1];
      FlattenFirst(before);
      assert before[1..] == groups[1..][..|groups[1..]| - 1];
    }
  }

  lemma {:induction false} FlattenMembers<T>(groups: seq<seq<T>>, x: T)
    ensures x in Flatten(groups) <==> exists k :: 0 <= k < |groups| && x in groups[k]
  {
    if |groups| > 0 {
      var before := groups[..|groups| - 1];
      FlattenMembers(before, x);
      if x in Flatten(before) {
        var k :| 0 <= k < |before| && x in before[k];
        assert x in groups[k];
      }
    }
  }

  predicate AllDistinct<T(==)>(s: seq<T>)
    ensures AllDistinct(s) <==> Distinct(s)
  {
    forall i | 0 <= i < |s| :: forall j | i < j < |s| :: s[i] != s[j]
  }

  lemma Quotient(m: nat, n: nat)
    requires n > 0
    ensures (m as real / n as real) * n as real == m as real
    ensures m == n ==> m as real / n as real == 1.0
  {
  }
}
