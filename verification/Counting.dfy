/** Counting the items of a sequence that pass a test. */
module Counting {
  import opened Collections

  function CountTrue<T>(s: seq<T>, p: T -> bool): (r: nat)
    ensures r <= |s|
    ensures r == |s| <==> forall x | x in s :: p(x)
  {
    if |s| == 0 then 0
    else
      assert s == s[..|s| - 1] + [s[|s| - 1]];
      CountTrue(s[..|s| - 1], p) + (if p(s[|s| - 1]) then 1 else 0)
  }

  lemma {:induction false} CountAppend<T>(s: seq<T>, t: seq<T>, p: T -> bool)
    ensures CountTrue(s + t, p) == CountTrue(s, p) + CountTrue(t, p)
  {
    if |t| == 0 {
      assert s + t == s;
    } else {
      assert (s + t)[..|s + t| - 1] == s + t[..|t| - 1];
      CountAppend(s, t[..|t| - 1], p);
    }
  }

  lemma CountOneMore<T>(s: seq<T>, x: T, p: T -> bool)
    ensures CountTrue(s + [x], p) == CountTrue(s, p) + (if p(x) then 1 else 0)
  {
    assert (s + [x])[..|s|] == s;
  }

  lemma CountMiddle<T>(before: seq<T>, x: T, after: seq<T>, p: T -> bool)
    ensures CountTrue(before + [x] + after, p) == CountTrue(before + after, p) + (if p(x) then 1 else 0)
    ensures multiset(before + [x] + after) == multiset(before + after) + multiset{x}
  {
    hide CountTrue;
    CountAppend(before + [x], after, p);
    CountAppend(before, after, p);
    CountOneMore(before, x, p);
  }

  lemma Around<T>(t: seq<T>, x: T) returns (before: seq<T>, after: seq<T>)
    requires x in t
    ensures t == before + [x] + after
  {
    var i :| 0 <= i < |t| && t[i] == x;
    before, after := t[..i], t[i + 1..];
  }

  lemma SameRest<T>(a: multiset<T>, b: multiset<T>, x: T)
    requires a + multiset{x} == b + multiset{x}
    ensures a == b
  {
    assert a == a + multiset{x} - multiset{x};
    assert b == b + multiset{x} - multiset{x};
  }

  /** Counting does not depend on the order. */
  lemma {:induction false} CountByContents<T>(s: seq<T>, t: seq<T>, p: T -> bool)
    requires multiset(s) == multiset(t)
    ensures CountTrue(s, p) == CountTrue(t, p)
  {
    hide CountTrue;
    SameContents(s, t);
    if |s| > 0 {
      var x, rest := s[|s| - 1], s[..|s| - 1];
      assert s == rest + [x];
      CountOneMore(rest, x, p);
      var before, after := Around(t, x);
      CountMiddle(before, x, after, p);
      SameRest(multiset(rest), multiset(before + after), x);
      CountByContents(rest, before + after, p);
    } else {
      assert s == t;
    }
  }

  lemma {:induction false} SameCount<T>(s: seq<T>, p: T -> bool, q: T -> bool)
    requires forall x :: p(x) <==> q(x)
    ensures CountTrue(s, p) == CountTrue(s, q)
  {
    if |s| > 0 {
      SameCount(s[..|s| - 1], p, q);
    }
  }

  lemma {:induction false} CountNone<T>(s: seq<T>, p: T -> bool)
    requires forall x | x in s :: !p(x)
    ensures CountTrue(s, p) == 0
  {
    if |s| > 0 {
      CountNone(s[..|s| - 1], p);
      assert s[|s| - 1] in s;
    }
  }
}
