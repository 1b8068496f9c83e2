/** Array.prototype.sort for comparators that compare integer keys in turn. */
module StableSorting {
  import opened Collections

  /** a comes before b at the first key that differs. */
  predicate KeyLess(a: seq<int>, b: seq<int>) {
    if |a| == 0 then |b| > 0
    else if |b| == 0 then false
    else a[0] < b[0] || (a[0] == b[0] && KeyLess(a[1..], b[1..]))
  }

  lemma {:induction false} KeyLessTotal(a: seq<int>, b: seq<int>)
    ensures KeyLess(a, b) || KeyLess(b, a) || a == b
    ensures !(KeyLess(a, b) && KeyLess(b, a))
  {
    if |a| > 0 && |b| > 0 && a[0] == b[0] {
      KeyLessTotal(a[1..], b[1..]);
      if a[1..] == b[1..] {
        assert a == [a[0]] + a[1..] && b == [b[0]] + b[1..];
      }
    }
  }

  lemma {:induction false} KeyLessTransitive(a: seq<int>, b: seq<int>, c: seq<int>)
    requires !KeyLess(b, a) && !KeyLess(c, b)
    ensures !KeyLess(c, a)
    decreases |a| + |b| + |c|
  {
    if |a| > 0 && |b| > 0 && |c| > 0 && a[0] == b[0] == c[0] {
      KeyLessTransitive(a[1..], b[1..], c[1..]);
    }
  }

  ghost predicate SortedBy<T>(s: seq<T>, key: T -> seq<int>) {
    forall i, j | 0 <= i < j < |s| :: !KeyLess(key(s[j]), key(s[i]))
  }

  /** x goes behind everything that does not come after it. */
  function Insert<T>(s: seq<T>, x: T, key: T -> seq<int>): (r: seq<T>)
    ensures multiset(r) == multiset(s) + multiset{x}
  {
    if |s| == 0 || !KeyLess(key(x), key(s[|s| - 1])) then s + [x]
    else
      assert s == s[..|s| - 1] + [s[|s| - 1]];
      Insert(s[..|s| - 1], x, key) + [s[|s| - 1]]
  }

  function SortBy<T>(s: seq<T>, key: T -> seq<int>): (r: seq<T>)
    ensures multiset(r) == multiset(s)
    ensures |r| == |s|
  {
    if |s| == 0 then []
    else
      assert s == s[..|s| - 1] + [s[|s| - 1]];
      var r := Insert(SortBy(s[..|s| - 1], key), s[|s| - 1], key);
      assert |multiset(r)| == |multiset(s)|;
      r
  }

  lemma {:induction false} InsertSorts<T>(s: seq<T>, x: T, key: T -> seq<int>)
    requires SortedBy(s, key)
    ensures SortedBy(Insert(s, x, key), key)
  {
    if |s| == 0 {
    } else {
      var last := s[|s| - 1];
      if KeyLess(key(x), key(last)) {
        var before := s[..|s| - 1];
        InsertSorts(before, x, key);
        var inner := Insert(before, x, key);
        forall i | 0 <= i < |inner| ensures !KeyLess(key(last), key(inner[i])) {
          assert inner[i] in multiset(inner);
          KeyLessTotal(key(x), key(last));
        }
      } else {
        forall i | 0 <= i < |s| ensures !KeyLess(key(x), key(s[i])) {
          KeyLessTransitive(key(s[i]), key(last), key(x)) by { KeyLessTotal(key(s[i]), key(s[i])); }
        }
      }
    }
  }

  lemma {:induction false} SortBySorts<T>(s: seq<T>, key: T -> seq<int>)
    ensures SortedBy(SortBy(s, key), key)
  {
    if |s| > 0 {
      SortBySorts(s[..|s| - 1], key);
      InsertSorts(SortBy(s[..|s| - 1], key), s[|s| - 1], key);
    }
  }

  lemma SortKeepsMembers<T>(s: seq<T>, key: T -> seq<int>)
    ensures forall x :: x in SortBy(s, key) <==> x in s
  {
    assert forall x :: x in SortBy(s, key) <==> x in multiset(SortBy(s, key));
    assert forall x :: x in s <==> x in multiset(s);
  }

  /** The first of the sorted sequence: nothing comes before it. */
  lemma FirstIsLeast<T>(s: seq<T>, key: T -> seq<int>)
    requires |s| > 0
    ensures SortBy(s, key)[0] in s
    ensures forall x | x in s :: !KeyLess(key(x), key(SortBy(s, key)[0]))
  {
    hide KeyLess;
    SortBySorts(s, key);
    SortKeepsMembers(s, key);
    HeadIsLeast(s, SortBy(s, key), key);
  }

  lemma HeadIsLeast<T>(s: seq<T>, r: seq<T>, key: T -> seq<int>)
    requires |r| > 0 && SortedBy(r, key) && forall x :: x in r <==> x in s
    ensures r[0] in s && forall x | x in s :: !KeyLess(key(x), key(r[0]))
  {
    hide KeyLess;
    assert r[0] in r;
    forall x | x in s ensures !KeyLess(key(x), key(r[0])) {
      KeyLessTotal(key(x), key(x));
      var i :| 0 <= i < |r| && r[i] == x;
    }
  }

  /** x is the first of the items that nothing precedes. */
  ghost predicate Leads<T>(s: seq<T>, key: T -> seq<int>, x: T) {
    exists i :: LeadsAt(s, key, x, i)
  }

  ghost predicate LeadsAt<T>(s: seq<T>, key: T -> seq<int>, x: T, i: int) {
    && 0 <= i < |s| && s[i] == x
    && (forall j | 0 <= j < i :: KeyLess(key(x), key(s[j])))
    && (forall j | i <= j < |s| :: !KeyLess(key(s[j]), key(x)))
  }

  lemma {:induction false} InsertHead<T>(s: seq<T>, x: T, key: T -> seq<int>)
    requires SortedBy(s, key) && |s| > 0
    ensures |Insert(s, x, key)| > 0
    ensures Insert(s, x, key)[0] == if KeyLess(key(x), key(s[0])) then x else s[0]
  {
    var before, last := s[..|s| - 1], s[|s| - 1];
    InsertPlaces(s, x, key);
    hide KeyLess;
    if KeyLess(key(x), key(last)) {
      if |s| > 1 {
        InsertHead(before, x, key);
      }
    } else {
      KeyLessTotal(key(last), key(last));
      KeyLessTransitive(key(s[0]), key(last), key(x));
    }
  }

  lemma LeadsOneMore<T>(s: seq<T>, x: T, key: T -> seq<int>, first: T)
    requires Leads(s, key, first)
    ensures Leads(s + [x], key, if KeyLess(key(x), key(first)) then x else first)
  {
    hide KeyLess;
    var i :| LeadsAt(s, key, first, i);
    if KeyLess(key(x), key(first)) {
      forall j | 0 <= j < |s| ensures KeyLess(key(x), key(s[j])) {
        if !KeyLess(key(x), key(s[j])) {
          KeyLessTotal(key(first), key(s[j]));
          KeyLessTransitive(key(first), key(s[j]), key(x));
          assert false;
        }
      }
      KeyLessTotal(key(x), key(x));
      assert LeadsAt(s + [x], key, x, |s|);
    } else {
      assert LeadsAt(s + [x], key, first, i);
    }
  }

  lemma SortOneMore<T>(s: seq<T>, x: T, key: T -> seq<int>)
    ensures SortBy(s + [x], key) == Insert(SortBy(s, key), x, key)
  {
    assert (s + [x])[..|s|] == s;
  }

  lemma OnlyLeads<T>(x: T, key: T -> seq<int>)
    ensures Leads([x], key, x) && SortBy([x], key) == [x]
  {
    KeyLessTotal(key(x), key(x));
    SortOneMore([], x, key);
    assert [] + [x] == [x];
    assert LeadsAt([x], key, x, 0);
  }

  /** What comes first after sorting. */
  lemma {:induction false} FirstLeads<T>(s: seq<T>, key: T -> seq<int>)
    requires |s| > 0
    ensures Leads(s, key, SortBy(s, key)[0])
  {
    hide SortBy, Insert, KeyLess, Leads;
    var before, last := s[..|s| - 1], s[|s| - 1];
    assert s == before + [last];
    if |before| == 0 {
      OnlyLeads(last, key);
    } else {
      FirstLeads(before, key);
      SortBySorts(before, key);
      InsertHead(SortBy(before, key), last, key);
      LeadsOneMore(before, last, key, SortBy(before, key)[0]);
      SortOneMore(before, last, key);
    }
  }

  lemma LeaderIsUnique<T>(s: seq<T>, key: T -> seq<int>, x: T, y: T)
    requires Leads(s, key, x) && Leads(s, key, y)
    ensures x == y
  {
    hide KeyLess;
    var i :| LeadsAt(s, key, x, i);
    var j :| LeadsAt(s, key, y, j);
  }

  function HasKey<T>(key: T -> seq<int>, k: seq<int>): T -> bool {
    (x: T) => key(x) == k
  }

  lemma InsertPlaces<T>(s: seq<T>, x: T, key: T -> seq<int>)
    ensures Insert(s, x, key) ==
      if |s| > 0 && KeyLess(key(x), key(s[|s| - 1])) then Insert(s[..|s| - 1], x, key) + [s[|s| - 1]] else s + [x]
  {
  }

  lemma {:induction false} InsertIsStable<T>(s: seq<T>, x: T, key: T -> seq<int>, k: seq<int>)
    ensures Filter(Insert(s, x, key), HasKey(key, k)) == Filter(s, HasKey(key, k)) + (if key(x) == k then [x] else [])
  {
    InsertPlaces(s, x, key);
    hide Filter, KeyLess, Insert;
    if |s| > 0 && KeyLess(key(x), key(s[|s| - 1])) {
      var before, last := s[..|s| - 1], s[|s| - 1];
      KeyLessTotal(key(x), key(last));
      InsertIsStable(before, x, key, k);
      FilterOneMore(Insert(before, x, key), last, HasKey(key, k));
      FilterOneMore(before, last, HasKey(key, k));
      assert s == before + [last];
    } else {
      FilterOneMore(s, x, HasKey(key, k));
    }
  }

  /** Sorting is stable: items with equal keys keep their order. */
  lemma {:induction false} SortIsStable<T>(s: seq<T>, key: T -> seq<int>, k: seq<int>)
    ensures Filter(SortBy(s, key), HasKey(key, k)) == Filter(s, HasKey(key, k))
  {
    if |s| > 0 {
      SortIsStable(s[..|s| - 1], key, k);
      InsertIsStable(SortBy(s[..|s| - 1], key), s[|s| - 1], key, k);
    }
  }

  lemma HasOwnKey<T>(s: seq<T>, t: seq<T>, key: T -> seq<int>, x: T)
    requires forall k :: Filter(s, HasKey(key, k)) == Filter(t, HasKey(key, k))
    requires x in s
    ensures x in t
  {
    assert x in Filter(s, HasKey(key, key(x)));
  }

  /** Sorted sequences are equal when they list the items of every key alike. */
  lemma {:induction false} SortedByClasses<T>(s: seq<T>, t: seq<T>, key: T -> seq<int>)
    requires SortedBy(s, key) && SortedBy(t, key)
    requires forall k :: Filter(s, HasKey(key, k)) == Filter(t, HasKey(key, k))
    ensures s == t
  {
    hide KeyLess, Filter;
    if |s| == 0 || |t| == 0 {
      if |s| > 0 { HasOwnKey(s, t, key, s[0]); }
      if |t| > 0 { HasOwnKey(t, s, key, t[0]); }
    } else {
      var before, x, before', y := s[..|s| - 1], s[|s| - 1], t[..|t| - 1], t[|t| - 1];
      assert s == before + [x] && t == before' + [y];
      HasOwnKey(s, t, key, x);
      HasOwnKey(t, s, key, y);
      KeyLessTotal(key(x), key(y));
      KeyLessTotal(key(x), key(x));
      LastIsGreatest(s, key, y);
      LastIsGreatest(t, key, x);
      FilterOneMore(before, x, HasKey(key, key(x)));
      FilterOneMore(before', y, HasKey(key, key(x)));
      SplitLast(Filter(before, HasKey(key, key(x))), x, Filter(before', HasKey(key, key(x))), y);
      forall k ensures Filter(before, HasKey(key, k)) == Filter(before', HasKey(key, k)) {
        FilterOneMore(before, x, HasKey(key, k));
        FilterOneMore(before', y, HasKey(key, k));
        if key(x) != k {
          assert Filter(before, HasKey(key, k)) == Filter(s, HasKey(key, k)) && Filter(before', HasKey(key, k)) == Filter(t, HasKey(key, k));
        }
      }
      SortedByClasses(before, before', key);
    }
  }

  lemma SplitLast<T>(s: seq<T>, x: T, t: seq<T>, y: T)
    requires s + [x] == t + [y]
    ensures s == t && x == y
  {
    assert s == (s + [x])[..|s + [x]| - 1] && t == (t + [y])[..|t + [y]| - 1];
    assert x == (s + [x])[|s|] && y == (t + [y])[|t|];
  }

  lemma LastIsGreatest<T>(s: seq<T>, key: T -> seq<int>, x: T)
    requires SortedBy(s, key) && |s| > 0 && x in s
    ensures !KeyLess(key(s[|s| - 1]), key(x))
  {
    hide KeyLess;
    KeyLessTotal(key(x), key(x));
    var i :| 0 <= i < |s| && s[i] == x;
  }

  // ---------- different keys ----------

  ghost predicate StrictlySorted<T>(s: seq<T>, key: T -> seq<int>) {
    forall i, j | 0 <= i < j < |s| :: KeyLess(key(s[i]), key(s[j]))
  }

  ghost predicate KeysApart<T>(s: seq<T>, key: T -> seq<int>) {
    forall i, j | 0 <= i < j < |s| :: key(s[i]) != key(s[j])
  }

  lemma LastAgrees<T>(x: seq<T>, y: seq<T>, key: T -> seq<int>)
    requires StrictlySorted(x, key) && StrictlySorted(y, key) && Elements(x) == Elements(y) && |x| > 0
    ensures |y| > 0 && x[|x| - 1] == y[|y| - 1]
  {
    hide KeyLess;
    var last := x[|x| - 1];
    assert last in Elements(y);
    var last' := y[|y| - 1];
    assert last' in Elements(x);
    KeyLessTotal(key(last), key(last'));
    var i :| 0 <= i < |y| && y[i] == last;
    var j :| 0 <= j < |x| && x[j] == last';
  }

  lemma WithoutLast<T>(x: seq<T>, key: T -> seq<int>)
    requires StrictlySorted(x, key) && |x| > 0
    ensures StrictlySorted(x[..|x| - 1], key)
    ensures Elements(x[..|x| - 1]) == Elements(x) - {x[|x| - 1]}
  {
    var last := x[|x| - 1];
    KeyLessTotal(key(last), key(last));
    hide KeyLess;
    assert x == x[..|x| - 1] + [last];
    assert last !in x[..|x| - 1];
  }

  /** A set of items has one strictly sorted order. */
  lemma {:induction false} StrictlySortedUnique<T>(x: seq<T>, y: seq<T>, key: T -> seq<int>)
    requires StrictlySorted(x, key) && StrictlySorted(y, key) && Elements(x) == Elements(y)
    ensures x == y
  {
    hide KeyLess;
    NoElements(x);
    NoElements(y);
    if |x| > 0 {
      LastAgrees(x, y, key);
      WithoutLast(x, key);
      WithoutLast(y, key);
      StrictlySortedUnique(x[..|x| - 1], y[..|y| - 1], key);
      assert x == x[..|x| - 1] + [x[|x| - 1]] && y == y[..|y| - 1] + [y[|y| - 1]];
    }
  }

  lemma SortsStrictly<T>(s: seq<T>, key: T -> seq<int>)
    requires KeysApart(s, key)
    ensures StrictlySorted(SortBy(s, key), key)
  {
    SortBySorts(s, key);
    SameContents(SortBy(s, key), s);
    hide KeyLess, SortBy;
    var sorted := SortBy(s, key);
    forall i, j | 0 <= i < j < |sorted| ensures KeyLess(key(sorted[i]), key(sorted[j])) {
      KeyLessTotal(key(sorted[i]), key(sorted[j]));
      SortedApart(s, sorted, key, i, j);
    }
  }

  lemma SortedApart<T>(s: seq<T>, sorted: seq<T>, key: T -> seq<int>, i: nat, j: nat)
    requires KeysApart(s, key) && multiset(sorted) == multiset(s) && i < j < |sorted|
    ensures key(sorted[i]) != key(sorted[j])
  {
    SameContents(sorted, s);
    assert Distinct(s);
    assert sorted[i] in s && sorted[j] in s;
    var k :| 0 <= k < |s| && s[k] == sorted[i];
    var l :| 0 <= l < |s| && s[l] == sorted[j];
  }

  /** When keys differ, sorting forgets the order the items came in. */
  lemma SortForgetsOrder<T>(s: seq<T>, t: seq<T>, key: T -> seq<int>)
    requires multiset(s) == multiset(t) && KeysApart(s, key) && KeysApart(t, key)
    ensures SortBy(s, key) == SortBy(t, key)
  {
    hide SortBy, StrictlySorted, KeysApart;
    SortsStrictly(s, key);
    SortsStrictly(t, key);
    ElementsByContents(SortBy(s, key), SortBy(t, key));
    StrictlySortedUnique(SortBy(s, key), SortBy(t, key), key);
  }
}
