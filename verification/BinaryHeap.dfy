module PriorityHeap {
  import opened Collections

  datatype Rank = Rank(remaining: nat, firstIndex: nat)

  /** The strict order every heap of the sequencer uses: more rows left first, then the earlier source row. */
  predicate Higher(l: Rank, r: Rank) {
    l.remaining > r.remaining || (l.remaining == r.remaining && l.firstIndex < r.firstIndex)
  }

  function Parent(i: nat): nat requires i > 0 { (i - 1) / 2 }

  ghost predicate RankedAll<T>(s: seq<T>, rank: map<T, Rank>) {
    forall i | 0 <= i < |s| :: s[i] in rank
  }

  ghost predicate Settled<T>(s: seq<T>, rank: map<T, Rank>, i: nat)
    requires RankedAll(s, rank)
    requires 0 < i < |s|
  {
    !Higher(rank[s[i]], rank[s[Parent(i)]])
  }

  ghost predicate HeapOrdered<T>(s: seq<T>, rank: map<T, Rank>) {
    RankedAll(s, rank) && forall i | 0 < i < |s| :: Settled(s, rank, i)
  }

  // Everything is in heap order except that s[hole] may be too low in the tree.
  ghost predicate RisingAt<T>(s: seq<T>, rank: map<T, Rank>, hole: nat) {
    && hole < |s|
    && RankedAll(s, rank)
    && (forall i | 0 < i < |s| && i != hole :: Settled(s, rank, i))
    && (hole > 0 ==> forall i | 0 < i < |s| && Parent(i) == hole :: !Higher(rank[s[i]], rank[s[Parent(hole)]]))
  }

  function Swap<T>(s: seq<T>, i: nat, j: nat): seq<T>
    requires i < |s| && j < |s|
  {
    s[i := s[j]][j := s[i]]
  }

  lemma SwapKeepsContents<T>(s: seq<T>, i: nat, j: nat)
    requires i < |s| && j < |s|
    ensures multiset(Swap(s, i, j)) == multiset(s)
  {}

  lemma SwapIs<T>(s: seq<T>, i: nat, j: nat)
    requires i < |s| && j < |s|
    ensures Swap(s, i, j) == s[i := s[j]][j := s[i]]
  {}

  lemma RiseStep<T>(s: seq<T>, rank: map<T, Rank>, hole: nat)
    requires RisingAt(s, rank, hole) && hole > 0 && !Settled(s, rank, hole)
    ensures RisingAt(Swap(s, hole, Parent(hole)), rank, Parent(hole))
  {
    var p := Parent(hole);
    var t := Swap(s, hole, p);
    forall i | 0 < i < |t| && i != p ensures Settled(t, rank, i) {
      if i != hole { assert Settled(s, rank, i); }
    }
    if p > 0 {
      assert Settled(s, rank, p);
      forall i | 0 < i < |t| && Parent(i) == p ensures !Higher(rank[t[i]], rank[t[Parent(p)]]) {
        if i != hole { assert Settled(s, rank, i); }
      }
    }
  }

  // s[hole] may be too high in the tree; everything else is in heap order.
  ghost predicate SinkingAt<T>(s: seq<T>, rank: map<T, Rank>, hole: nat) {
    && hole < |s|
    && RankedAll(s, rank)
    && (forall i | 0 < i < |s| && Parent(i) != hole :: Settled(s, rank, i))
    && (hole > 0 ==> forall i | 0 < i < |s| && Parent(i) == hole :: !Higher(rank[s[i]], rank[s[Parent(hole)]]))
  }

  lemma SinkStart<T>(s: seq<T>, rank: map<T, Rank>)
    requires HeapOrdered(s, rank) && |s| > 1
    ensures SinkingAt(s[..|s| - 1][0 := s[|s| - 1]], rank, 0)
  {
    var t := s[..|s| - 1][0 := s[|s| - 1]];
    forall i | 0 < i < |t| && Parent(i) != 0 ensures Settled(t, rank, i) {
      assert Settled(s, rank, i);
    }
  }

  ghost predicate HighestChild<T>(s: seq<T>, rank: map<T, Rank>, hole: nat, best: nat)
    requires RankedAll(s, rank)
  {
    && hole < |s| && best < |s| && best > 0 && Parent(best) == hole
    && Higher(rank[s[best]], rank[s[hole]])
    && forall i | 0 < i < |s| && Parent(i) == hole :: !Higher(rank[s[i]], rank[s[best]])
  }

  lemma SinkStep<T>(s: seq<T>, rank: map<T, Rank>, hole: nat, best: nat)
    requires SinkingAt(s, rank, hole) && HighestChild(s, rank, hole, best)
    ensures SinkingAt(Swap(s, hole, best), rank, best)
  {
    var t := Swap(s, hole, best);
    forall i | 0 < i < |t| && Parent(i) != best ensures Settled(t, rank, i) {
      if i != hole && Parent(i) != hole { assert Settled(s, rank, i); }
    }
    forall i | 0 < i < |t| && Parent(i) == best ensures !Higher(rank[t[i]], rank[t[Parent(best)]]) {
      assert Settled(s, rank, i);
    }
  }

  lemma SinkDone<T>(s: seq<T>, rank: map<T, Rank>, hole: nat)
    requires SinkingAt(s, rank, hole)
    requires forall i | 0 < i < |s| && Parent(i) == hole :: !Higher(rank[s[i]], rank[s[hole]])
    ensures HeapOrdered(s, rank)
  {
    forall i | 0 < i < |s| ensures Settled(s, rank, i) {}
  }

  lemma RootIsHighest<T>(s: seq<T>, rank: map<T, Rank>)
    requires HeapOrdered(s, rank)
    ensures forall y | y in s :: !Higher(rank[y], rank[s[0]])
  {
    forall i | 0 <= i < |s| ensures !Higher(rank[s[i]], rank[s[0]]) { RootAbove(s, rank, i); }
  }

  lemma {:induction false} RootAbove<T>(s: seq<T>, rank: map<T, Rank>, i: nat)
    requires HeapOrdered(s, rank) && i < |s|
    ensures !Higher(rank[s[i]], rank[s[0]])
  {
    if i > 0 {
      RootAbove(s, rank, Parent(i));
      assert Settled(s, rank, i);
    }
  }

  lemma PopKeepsContents<T>(s: seq<T>)
    requires |s| > 0
    ensures var t := s[..|s| - 1];
      multiset(s) == (if |t| == 0 then multiset(t) else multiset(t[0 := s[|s| - 1]])) + multiset{s[0]}
  {
    assert s == s[..|s| - 1] + [s[|s| - 1]];
  }

  class BinaryHeap<T(==)> {
    var values: seq<T>

    constructor ()
      ensures values == []
    {
      values := [];
    }

    method Push(value: T, higherPriority: (T, T) ~> bool, ghost rank: map<T, Rank>)
      requires value in rank && HeapOrdered(values, rank)
      requires forall x, y :: x in rank && y in rank ==>
        higherPriority.requires(x, y) && higherPriority(x, y) == Higher(rank[x], rank[y])
      modifies this`values
      ensures HeapOrdered(values, rank)
      ensures multiset(values) == multiset(old(values)) + multiset{value}
    {
      PushStart(values, value, rank);
      var raised := RaiseLast(values + [value], higherPriority, rank);
      values := raised;
    }

    method Pop(higherPriority: (T, T) ~> bool, ghost rank: map<T, Rank>) returns (result: Option<T>)
      requires HeapOrdered(values, rank)
      requires forall x, y :: x in rank && y in rank ==>
        higherPriority.requires(x, y) && higherPriority(x, y) == Higher(rank[x], rank[y])
      modifies this`values
      ensures HeapOrdered(values, rank)
      ensures result.None? <==> old(values) == []
      ensures result.None? ==> values == []
      ensures result.Some? ==>
        && multiset(old(values)) == multiset(values) + multiset{result.value}
        && result.value in rank
        && forall y | y in old(values) :: !Higher(rank[y], rank[result.value])
    {
      if |values| == 0 { return None; }
      RootIsHighest(values, rank);
      PopKeepsContents(values);
      var root := values[0];
      var tail := values[|values| - 1];
      if |values| == 1 {
        values := [];
        return Some(root);
      }
      SinkStart(values, rank);
      var sunk := SinkRoot(values[..|values| - 1][0 := tail], higherPriority, rank);
      values := sunk;
      return Some(root);
    }
  }

  lemma PushStart<T>(s: seq<T>, value: T, rank: map<T, Rank>)
    requires HeapOrdered(s, rank) && value in rank
    ensures RisingAt(s + [value], rank, |s|)
    ensures multiset(s + [value]) == multiset(s) + multiset{value}
  {
    forall i | 0 < i < |s| ensures Settled(s + [value], rank, i) {
      assert Settled(s, rank, i);
    }
  }

  lemma RiseDone<T>(s: seq<T>, rank: map<T, Rank>, hole: nat)
    requires RisingAt(s, rank, hole) && (hole > 0 ==> Settled(s, rank, hole))
    ensures HeapOrdered(s, rank)
  {
    hide Settled;
  }

  lemma RisingRanked<T>(s: seq<T>, rank: map<T, Rank>, hole: nat)
    requires RisingAt(s, rank, hole)
    ensures hole < |s| && RankedAll(s, rank) && forall i | 0 <= i < |s| :: s[i] in rank
  {
    hide Settled;
  }

  /** The loop of push: shift smaller ancestors down and drop the value into the hole they leave. */
  method RaiseLast<T(==)>(start: seq<T>, higherPriority: (T, T) ~> bool, ghost rank: map<T, Rank>) returns (values: seq<T>)
    requires |start| > 0 && RisingAt(start, rank, |start| - 1)
    requires forall x, y :: x in rank && y in rank ==>
      higherPriority.requires(x, y) && higherPriority(x, y) == Higher(rank[x], rank[y])
    ensures HeapOrdered(values, rank)
    ensures multiset(values) == multiset(start)
  {
    hide RisingAt, HeapOrdered, RankedAll, Higher, Swap;
    values := start;
    var value := values[|values| - 1];
    var index: nat := |values| - 1;
    ghost var seen := values;  // the heap as it would be with value in the hole
    while index > 0
      invariant index < |values| && seen == values[index := value]
      invariant RisingAt(seen, rank, index)
      invariant multiset(seen) == multiset(start)
    {
      var parent := (index - 1) / 2;
      var parentValue := values[parent];
      assert seen[parent] == parentValue && seen[index] == value;
      RisingRanked(seen, rank, index);
      if !higherPriority(value, parentValue) {
        RiseDone(seen, rank, index);
        values := values[index := value];
        return;
      }
      RiseStep(seen, rank, index);
      SwapKeepsContents(seen, index, parent);
      SwapIs(seen, index, parent);
      seen := Swap(seen, index, parent);
      values := values[index := parentValue];
      index := parent;
    }
    RiseDone(seen, rank, index);
    values := values[index := value];
  }

  /** The loop of pop: swap the root with its better child until neither child is better. */
  method SinkRoot<T(==)>(start: seq<T>, higherPriority: (T, T) ~> bool, ghost rank: map<T, Rank>) returns (values: seq<T>)
    requires SinkingAt(start, rank, 0)
    requires forall x, y :: x in rank && y in rank ==>
      higherPriority.requires(x, y) && higherPriority(x, y) == Higher(rank[x], rank[y])
    ensures HeapOrdered(values, rank)
    ensures multiset(values) == multiset(start)
  {
    values := start;
    var index: nat := 0;
    while true
      invariant SinkingAt(values, rank, index)
      invariant multiset(values) == multiset(start)
      decreases |values| - index
    {
      var best := BestChild(values, index, higherPriority, rank);
      if best == index {
        SinkDone(values, rank, index);
        return;
      }
      SinkStep(values, rank, index, best);
      SwapKeepsContents(values, index, best);
      values := Swap(values, index, best);
      index := best;
    }
  }

  method BestChild<T>(values: seq<T>, index: nat, higherPriority: (T, T) ~> bool, ghost rank: map<T, Rank>)
    returns (best: nat)
    requires index < |values| && RankedAll(values, rank)
    requires forall x, y :: x in rank && y in rank ==>
      higherPriority.requires(x, y) && higherPriority(x, y) == Higher(rank[x], rank[y])
    ensures best == index ==>
      forall i | 0 < i < |values| && Parent(i) == index :: !Higher(rank[values[i]], rank[values[index]])
    ensures best != index ==> HighestChild(values, rank, index, best)
  {
    var left := index * 2 + 1;
    var right := left + 1;
    best := index;
    if left < |values| && higherPriority(values[left], values[best]) {
      best := left;
    }
    if right < |values| && higherPriority(values[right], values[best]) {
      best := right;
    }
  }

  lemma SameHeapOrder<T>(s: seq<T>, rank: map<T, Rank>, rank': map<T, Rank>)
    requires HeapOrdered(s, rank)
    requires forall i | 0 <= i < |s| :: s[i] in rank' && rank'[s[i]] == rank[s[i]]
    ensures HeapOrdered(s, rank')
  {
    forall i | 0 < i < |s| ensures Settled(s, rank', i) {
      assert Settled(s, rank, i);
    }
  }

  // ---------- taking the best few and putting them back ----------

  /** Different items never tie. */
  ghost predicate Strict<T>(rank: map<T, Rank>) {
    forall x, y | x in rank && y in rank && x != y :: rank[x] != rank[y]
  }

  ghost predicate Descending<T>(s: seq<T>, rank: map<T, Rank>)
    requires RankedAll(s, rank)
  {
    forall i, j | 0 <= i < j < |s| :: Higher(rank[s[i]], rank[s[j]])
  }

  ghost predicate Above<T>(s: seq<T>, rest: seq<T>, rank: map<T, Rank>)
    requires RankedAll(s, rank) && RankedAll(rest, rank)
  {
    forall i, j | 0 <= i < |s| && 0 <= j < |rest| :: Higher(rank[s[i]], rank[rest[j]])
  }

  /** popped is the head of whole in rank order and rest is everything else. */
  ghost predicate TakenFromTop<T>(whole: seq<T>, popped: seq<T>, rest: seq<T>, rank: map<T, Rank>) {
    && RankedAll(popped, rank) && RankedAll(rest, rank)
    && multiset(whole) == multiset(rest) + multiset(popped)
    && Descending(popped, rank) && Above(popped, rest, rank)
  }

  lemma NoSecondCopy<T>(whole: seq<T>, popped: seq<T>, after: seq<T>, x: T)
    requires Distinct(whole)
    requires multiset(whole) == multiset(after) + multiset{x} + multiset(popped)
    ensures x !in after
  {
    DistinctByMultiset(whole);
    assert x in multiset(whole);
    assert multiset(whole)[x] == multiset(after)[x] + 1 + multiset(popped)[x];
  }

  lemma TakeOne<T>(whole: seq<T>, popped: seq<T>, before: seq<T>, after: seq<T>, x: T, rank: map<T, Rank>)
    requires Strict(rank) && Distinct(whole)
    requires TakenFromTop(whole, popped, before, rank)
    requires RankedAll(after, rank) && x in rank
    requires multiset(before) == multiset(after) + multiset{x}
    requires forall y | y in before :: !Higher(rank[y], rank[x])
    ensures TakenFromTop(whole, popped + [x], after, rank)
  {
    NoSecondCopy(whole, popped, after, x);
    forall y | y in after ensures Higher(rank[x], rank[y]) {
      assert y in multiset(before);
    }
    assert x in multiset(before);
    assert multiset(popped + [x]) == multiset(popped) + multiset{x};
  }

  /** What is popped depends on the contents alone: pop, push back and pop again, and the same items come in the same order. */
  lemma {:induction false} SameTop<T>(whole: seq<T>, popped: seq<T>, rest: seq<T>, whole': seq<T>, popped': seq<T>, rest': seq<T>,
                                      rank: map<T, Rank>, k: nat)
    requires TakenFromTop(whole, popped, rest, rank) && TakenFromTop(whole', popped', rest', rank)
    requires multiset(whole) == multiset(whole')
    requires k <= |popped| && k <= |popped'|
    ensures popped[..k] == popped'[..k]
  {
    if k > 0 {
      SameTop(whole, popped, rest, whole', popped', rest', rank, k - 1);
      var x, y := popped[k - 1], popped'[k - 1];
      assert popped[..k - 1] == popped'[..k - 1];
      NotBelow(whole, popped, rest, popped', k - 1, y, rank);
      NotBelow(whole', popped', rest', popped, k - 1, x, rank) by {
        assert y in multiset(whole') && x in multiset(whole);
      }
    }
  }

  /** The k-th popped item is at least as high as anything not popped before it. */
  lemma NotBelow<T>(whole: seq<T>, popped: seq<T>, rest: seq<T>, popped': seq<T>, k: nat, y: T, rank: map<T, Rank>)
    requires TakenFromTop(whole, popped, rest, rank)
    requires k < |popped| && k < |popped'| && popped[..k] == popped'[..k]
    requires RankedAll(popped', rank) && Descending(popped', rank) && y == popped'[k]
    requires y in multiset(whole)
    ensures popped[k] == y || Higher(rank[popped[k]], rank[y])
  {
    assert forall i | 0 <= i < k :: popped[i] == popped[..k][i] == popped'[..k][i] == popped'[i];
    if y in popped {
      var i :| 0 <= i < |popped| && popped[i] == y;
      assert i >= k;
    } else {
      assert y in multiset(popped) || y in multiset(rest);
    }
  }

  method PopNext<T(==)>(heap: BinaryHeap<T>, higherPriority: (T, T) ~> bool, ghost whole: seq<T>, ghost popped: seq<T>,
                        ghost rank: map<T, Rank>)
    returns (item: T)
    requires Strict(rank) && Distinct(whole) && HeapOrdered(heap.values, rank)
    requires TakenFromTop(whole, popped, heap.values, rank) && |heap.values| > 0
    requires forall x, y :: x in rank && y in rank ==>
      higherPriority.requires(x, y) && higherPriority(x, y) == Higher(rank[x], rank[y])
    modifies heap`values
    ensures HeapOrdered(heap.values, rank)
    ensures TakenFromTop(whole, popped + [item], heap.values, rank)
    ensures forall y | y in old(heap.values) :: y == item || y in heap.values
    ensures |heap.values| == |old(heap.values)| - 1
  {
    ghost var before := heap.values;
    var top := heap.Pop(higherPriority, rank);
    item := top.value;
    TakeOne(whole, popped, before, heap.values, item, rank);
    SameContents(before, heap.values + [item]);
  }

  /** Pop at most limit items: the sequencer's bounded lookahead. */
  method PopUpTo<T(==)>(heap: BinaryHeap<T>, limit: nat, higherPriority: (T, T) ~> bool, ghost rank: map<T, Rank>)
    returns (popped: seq<T>)
    requires Strict(rank) && Distinct(heap.values) && HeapOrdered(heap.values, rank)
    requires forall x, y :: x in rank && y in rank ==>
      higherPriority.requires(x, y) && heap !in higherPriority.reads(x, y)
      && higherPriority(x, y) == Higher(rank[x], rank[y])
    modifies heap`values
    ensures HeapOrdered(heap.values, rank)
    ensures TakenFromTop(old(heap.values), popped, heap.values, rank)
    ensures |popped| <= limit
    ensures |popped| == limit || heap.values == []
  {
    popped := [];
    while |heap.values| > 0 && |popped| < limit
      invariant |popped| <= limit
      invariant HeapOrdered(heap.values, rank)
      invariant TakenFromTop(old(heap.values), popped, heap.values, rank)
      invariant forall x, y :: x in rank && y in rank ==>
        higherPriority.requires(x, y) && higherPriority(x, y) == Higher(rank[x], rank[y])
      decreases limit - |popped|
    {
      var item := PopNext(heap, higherPriority, old(heap.values), popped, rank);
      popped := popped + [item];
    }
  }

  method PushAll<T(==)>(heap: BinaryHeap<T>, items: seq<T>, higherPriority: (T, T) ~> bool, ghost rank: map<T, Rank>)
    requires HeapOrdered(heap.values, rank) && RankedAll(items, rank)
    requires forall x, y :: x in rank && y in rank ==>
      higherPriority.requires(x, y) && heap !in higherPriority.reads(x, y)
      && higherPriority(x, y) == Higher(rank[x], rank[y])
    modifies heap`values
    ensures HeapOrdered(heap.values, rank)
    ensures multiset(heap.values) == multiset(old(heap.values)) + multiset(items)
  {
    for i := 0 to |items|
      invariant HeapOrdered(heap.values, rank)
      invariant multiset(heap.values) == multiset(old(heap.values)) + multiset(items[..i])
      invariant forall x, y :: x in rank && y in rank ==>
        higherPriority.requires(x, y) && higherPriority(x, y) == Higher(rank[x], rank[y])
    {
      heap.Push(items[i], higherPriority, rank);
      assert items[..i + 1] == items[..i] + [items[i]];
    }
    assert items[..|items|] == items;
  }
}
