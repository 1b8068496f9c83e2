/** The lazy-deletion heap of album counts: entries go stale when a count changes and are dropped when they surface. */
module AlbumCountIndex {
  import opened Collections
  import opened PriorityHeap
  import opened PlaylistGroups
  import opened SequencingPolicy
  import opened SequencerState

  ghost function EntryRanks(entries: seq<CountEntry>): map<CountEntry, Rank> {
    map e | e in entries :: Rank(e.remaining, e.state.firstIndex)
  }

  /** counts holds the true number of live rows of every album key of the playlist. */
  ghost predicate CountsOk(counts: map<Key, CountState>, rows: seq<Row>, live: set<nat>)
    reads counts.Values
  {
    && (forall b | b in counts ::
          && counts[b].key == b && counts[b].firstIndex == First(rows, OfAlbum(b)) && counts[b].firstIndex < |rows|
          && counts[b].remaining == Count(rows, live, OfAlbum(b)))
    && (forall i: nat | i < |rows| :: rows[i].album in counts)
  }

  ghost function EntryObjects(entries: seq<CountEntry>): set<object> {
    set e | e in entries :: e.state as object
  }

  lemma HeapIsNoState<T>(heap: BinaryHeap<T>, entries: seq<CountEntry>, counts: map<Key, CountState>)
    ensures heap !in EntryObjects(entries)
    ensures heap as object !in set s | s in counts.Values :: s as object
  {
  }

  predicate Current(e: CountEntry)
    reads e.state
  {
    e.revision == e.state.revision && e.remaining == e.state.remaining && e.state.remaining > 0
  }

  /** Every entry was current once: since then each decrement of the count raised the revision by one. */
  ghost predicate EntryOk(e: CountEntry, counts: map<Key, CountState>)
    reads e.state
  {
    && e.state.key in counts && counts[e.state.key] == e.state
    && e.revision <= e.state.revision
    && e.remaining + e.revision == e.state.remaining + e.state.revision
  }

  /** Stale entries may linger, but no current entry is missing. */
  ghost predicate IndexOk(entries: seq<CountEntry>, counts: map<Key, CountState>)
    reads counts.Values, EntryObjects(entries)
  {
    && Distinct(entries)
    && (forall e | e in entries :: EntryOk(e, counts))
    && (forall b | b in counts && counts[b].remaining > 0 ::
          CountEntry(counts[b], counts[b].remaining, counts[b].revision) in entries)
    && HeapOrdered(entries, EntryRanks(entries))
  }

  lemma EntriesStrict(entries: seq<CountEntry>, counts: map<Key, CountState>, rows: seq<Row>, live: set<nat>)
    requires CountsOk(counts, rows, live) && IndexOk(entries, counts)
    ensures Strict(EntryRanks(entries))
  {
    hide Count;
    forall d, e | d in entries && e in entries && d != e
      ensures EntryRanks(entries)[d] != EntryRanks(entries)[e]
    {
      assert EntryOk(d, counts) && EntryOk(e, counts);
      FirstBelongs(rows, OfAlbum(d.state.key));
      FirstBelongs(rows, OfAlbum(e.state.key));
    }
  }

  lemma FirstBelongs(rows: seq<Row>, g: Group)
    requires First(rows, g) < |rows|
    ensures Belongs(rows[First(rows, g)], g)
  {
    assert |Positions(rows, g)| > 0;
    assert Positions(rows, g)[0] in Positions(rows, g);
  }

  /** Of the best entries, entries are the current ones and rest is what stays behind in the heap. */
  ghost predicate Skimmed(whole: seq<CountEntry>, entries: seq<CountEntry>, rest: seq<CountEntry>)
    reads EntryObjects(whole)
  {
    var rank := EntryRanks(whole);
    && HeapOrdered(rest, rank) && RankedAll(entries, rank)
    && Distinct(rest) && Descending(entries, rank) && Above(entries, rest, rank)
    && (forall e | e in entries :: e in whole && Current(e))
    && (forall e | e in rest :: e in whole)
    && (forall e | e in whole && Current(e) :: e in entries || e in rest)
  }

  lemma SkimOne(whole: seq<CountEntry>, entries: seq<CountEntry>, before: seq<CountEntry>, after: seq<CountEntry>, x: CountEntry)
    requires Strict(EntryRanks(whole))
    requires Skimmed(whole, entries, before)
    requires multiset(before) == multiset(after) + multiset{x}
    requires HeapOrdered(after, EntryRanks(whole)) && x in whole
    requires forall y | y in before :: !Higher(EntryRanks(whole)[y], EntryRanks(whole)[x])
    ensures Current(x) ==> Skimmed(whole, entries + [x], after)
    ensures !Current(x) ==> Skimmed(whole, entries, after)
  {
    assert forall y :: y in before <==> y in multiset(before);
    assert forall y :: y in after <==> y in multiset(after);
    NoSecondCopy(before, [], after, x);
    RestDistinct(before, after, x);
    assert x in before;
  }

  lemma RestDistinct(before: seq<CountEntry>, after: seq<CountEntry>, x: CountEntry)
    requires Distinct(before) && multiset(before) == multiset(after) + multiset{x}
    ensures Distinct(after)
  {
    DistinctByMultiset(before);
    forall y | y in after ensures multiset(after)[y] == 1 {
      assert y in multiset(before);
    }
    DistinctByMultiset(after);
  }

  function StateKeys(states: seq<CountState>): (r: seq<Key>)
    ensures |r| == |states| && forall k | 0 <= k < |states| :: r[k] == states[k].key
  {
    seq(|states|, k requires 0 <= k < |states| => states[k].key)
  }

  function EntryStates(entries: seq<CountEntry>): (r: seq<CountState>)
    ensures |r| == |entries| && forall k | 0 <= k < |entries| :: r[k] == entries[k].state
  {
    seq(|entries|, k requires 0 <= k < |entries| => entries[k].state)
  }

  lemma SkimStarts(whole: seq<CountEntry>, counts: map<Key, CountState>)
    requires IndexOk(whole, counts)
    ensures Skimmed(whole, [], whole)
  {
  }

  /** Skimming and pushing back loses no current entry. */
  lemma SkimKeepsIndex(whole: seq<CountEntry>, entries: seq<CountEntry>, rest: seq<CountEntry>, after: seq<CountEntry>,
                       counts: map<Key, CountState>)
    requires IndexOk(whole, counts)
    requires Skimmed(whole, entries, rest)
    requires HeapOrdered(after, EntryRanks(whole))
    requires multiset(after) == multiset(rest) + multiset(entries)
    ensures IndexOk(after, counts)
  {
    assert forall e :: e in after <==> e in multiset(after);
    assert forall e :: e in rest <==> e in multiset(rest);
    assert forall e :: e in entries <==> e in multiset(entries);
    SameHeapOrder(after, EntryRanks(whole), EntryRanks(after));
    forall i, j | 0 <= i < |entries| && 0 <= j < |rest| ensures entries[i] != rest[j] {
      assert Higher(EntryRanks(whole)[entries[i]], EntryRanks(whole)[rest[j]]);
    }
    JoinDistinct(rest, entries, after);
    forall b | b in counts && counts[b].remaining > 0
      ensures CountEntry(counts[b], counts[b].remaining, counts[b].revision) in after
    {
      assert Current(CountEntry(counts[b], counts[b].remaining, counts[b].revision));
    }
  }

  lemma JoinDistinct<T>(a: seq<T>, b: seq<T>, after: seq<T>)
    requires Distinct(a) && Distinct(b) && forall x | x in b :: x !in a
    requires multiset(after) == multiset(a) + multiset(b)
    ensures Distinct(after)
  {
    DistinctByMultiset(a);
    DistinctByMultiset(b);
    forall x | x in after ensures multiset(after)[x] == 1 {
      assert x in multiset(after);
      if x in a { assert x !in multiset(b); } else { assert x !in multiset(a); }
    }
    DistinctByMultiset(after);
  }

  lemma SkimmedEntry(whole: seq<CountEntry>, e: CountEntry, counts: map<Key, CountState>, rows: seq<Row>, live: set<nat>)
    requires CountsOk(counts, rows, live) && IndexOk(whole, counts)
    requires e in whole && Current(e)
    ensures e.state.key in counts && counts[e.state.key] == e.state
    ensures EntryRanks(whole)[e] == GroupRank(rows, live, OfAlbum(e.state.key))
    ensures Count(rows, live, OfAlbum(e.state.key)) > 0
  {
    hide Count, HeapOrdered;
    assert EntryOk(e, counts);
  }

  lemma LiveAlbumIndexed(whole: seq<CountEntry>, counts: map<Key, CountState>, rows: seq<Row>, live: set<nat>, b: Key)
    returns (e: CountEntry)
    requires CountsOk(counts, rows, live) && IndexOk(whole, counts)
    requires Count(rows, live, OfAlbum(b)) > 0
    ensures e in whole && Current(e) && e.state.key == b
    ensures EntryRanks(whole)[e] == GroupRank(rows, live, OfAlbum(b))
  {
    CountPositive(rows, live, OfAlbum(b));
    hide Count, HeapOrdered;
    assert b in counts;
    e := CountEntry(counts[b], counts[b].remaining, counts[b].revision);
  }

  /** What skimming leaves out ranks below everything skimmed, so the skimmed albums lead. */
  lemma SkimIsTop(whole: seq<CountEntry>, entries: seq<CountEntry>, rest: seq<CountEntry>, maximum: nat,
                  counts: map<Key, CountState>, rows: seq<Row>, live: set<nat>)
    requires CountsOk(counts, rows, live) && IndexOk(whole, counts)
    requires Skimmed(whole, entries, rest)
    requires |entries| <= maximum && (|entries| == maximum || rest == [])
    ensures Leading(rows, live, ALBUMS, StateKeys(EntryStates(entries)), maximum)
    ensures forall s | s in EntryStates(entries) :: s.key in counts && counts[s.key] == s
  {
    hide Count, First, CountsOk, IndexOk, EntryRanks, HeapOrdered;
    var keys := StateKeys(EntryStates(entries));
    assert forall k :: GroupFor(ALBUMS, k) == OfAlbum(k);
    forall i | 0 <= i < |entries|
      ensures keys[i] in counts && counts[keys[i]] == entries[i].state
      ensures EntryRanks(whole)[entries[i]] == GroupRank(rows, live, OfAlbum(keys[i]))
      ensures Count(rows, live, OfAlbum(keys[i])) > 0
    {
      assert entries[i] in entries;
      SkimmedEntry(whole, entries[i], counts, rows, live);
    }
    forall b | Count(rows, live, OfAlbum(b)) > 0 && b !in keys
      ensures |keys| == maximum
      ensures forall i | 0 <= i < |keys| :: Higher(GroupRank(rows, live, OfAlbum(keys[i])), GroupRank(rows, live, OfAlbum(b)))
    {
      var e := LiveAlbumIndexed(whole, counts, rows, live, b);
      assert forall i | 0 <= i < |entries| :: keys[i] in keys && entries[i].state.key == keys[i];
      var j :| 0 <= j < |rest| && rest[j] == e;
    }
  }

  method SkimNext(heap: BinaryHeap<CountEntry>, ghost whole: seq<CountEntry>, ghost entries: seq<CountEntry>)
    returns (entry: CountEntry)
    requires Strict(EntryRanks(whole)) && Skimmed(whole, entries, heap.values) && |heap.values| > 0
    modifies heap`values
    ensures Skimmed(whole, if Current(entry) then entries + [entry] else entries, heap.values)
    ensures |heap.values| < |old(heap.values)|
  {
    ghost var before := heap.values;
    var popped := heap.Pop(CountEntryHigherPriority, EntryRanks(whole));
    entry := popped.value;
    SameContents(before, heap.values + [entry]);
    assert entry in before;
    SkimOne(whole, entries, before, heap.values, entry);
  }

  method PushEntries(heap: BinaryHeap<CountEntry>, entries: seq<CountEntry>, ghost whole: seq<CountEntry>, ghost counts: map<Key, CountState>)
    requires IndexOk(whole, counts) && Skimmed(whole, entries, heap.values)
    modifies heap`values
    ensures IndexOk(heap.values, counts)
  {
    ghost var rest := heap.values;
    PushAll(heap, entries, CountEntryHigherPriority, EntryRanks(whole));
    SkimKeepsIndex(whole, entries, rest, heap.values, counts);
  }

  /** Pop until maximum current entries have surfaced; stale ones are dropped for good. */
  method TopValidCountStates(heap: BinaryHeap<CountEntry>, maximum: nat,
                             ghost counts: map<Key, CountState>, ghost rows: seq<Row>, ghost live: set<nat>)
    returns (states: seq<CountState>)
    requires CountsOk(counts, rows, live) && IndexOk(heap.values, counts)
    modifies heap`values
    ensures IndexOk(heap.values, counts)
    ensures Leading(rows, live, ALBUMS, StateKeys(states), maximum)
    ensures forall s | s in states :: s.key in counts && counts[s.key] == s
  {
    hide Skimmed, IndexOk, CountsOk, Leading, EntryRanks;
    ghost var whole := heap.values;
    EntriesStrict(whole, counts, rows, live);
    SkimStarts(whole, counts);
    HeapIsNoState(heap, whole, counts);
    var entries: seq<CountEntry> := [];
    while |heap.values| > 0 && |entries| < maximum
      invariant IndexOk(whole, counts) && Skimmed(whole, entries, heap.values)
      invariant |entries| <= maximum
      decreases |heap.values|
    {
      var entry := SkimNext(heap, whole, entries);
      if !Current(entry) { continue; }
      entries := entries + [entry];
    }
    SkimIsTop(whole, entries, heap.values, maximum, counts, rows, live);
    states := EntryStates(entries);
    PushEntries(heap, entries, whole, counts);
  }

  lemma LoweredCounts(counts: map<Key, CountState>, rows: seq<Row>, live: set<nat>, c: nat)
    requires CountsOk(counts, rows, live) && c in live && c < |rows|
    ensures forall b | b in counts :: Count(rows, live - {c}, OfAlbum(b)) == counts[b].remaining - (if b == rows[c].album then 1 else 0)
    ensures rows[c].album in counts && counts[rows[c].album].remaining > 0
    ensures forall b, d | b in counts && d in counts && b != d :: counts[b] != counts[d]
  {
    forall b | b in counts
      ensures Count(rows, live - {c}, OfAlbum(b)) == counts[b].remaining - (if b == rows[c].album then 1 else 0)
    {
      CountAfter(rows, live, OfAlbum(b), c);
    }
    CountPositive(rows, live, OfAlbum(rows[c].album));
  }

  /** Everything about the entries except that the lowered state's current entry is still missing. */
  ghost predicate IndexOkBut(entries: seq<CountEntry>, counts: map<Key, CountState>, missing: Key)
    reads counts.Values, EntryObjects(entries)
  {
    && Distinct(entries)
    && (forall e | e in entries :: EntryOk(e, counts) && (e.state.key == missing ==> e.revision < e.state.revision))
    && (forall b | b in counts && counts[b].remaining > 0 && b != missing ::
          CountEntry(counts[b], counts[b].remaining, counts[b].revision) in entries)
    && HeapOrdered(entries, EntryRanks(entries))
  }

  lemma CompleteIndex(before: seq<CountEntry>, e: CountEntry, after: seq<CountEntry>, counts: map<Key, CountState>, key: Key)
    requires IndexOkBut(before, counts, key) && key in counts && counts[key].key == key
    requires e == CountEntry(counts[key], counts[key].remaining, counts[key].revision)
    requires HeapOrdered(after, EntryRanks(before + [e])) && multiset(after) == multiset(before + [e])
    ensures IndexOk(after, counts)
  {
    SameContents(after, before + [e]);
    SameHeapOrder(after, EntryRanks(before + [e]), EntryRanks(after));
  }

  lemma ExtendRanks(before: seq<CountEntry>, e: CountEntry, counts: map<Key, CountState>, missing: Key)
    requires IndexOkBut(before, counts, missing)
    ensures HeapOrdered(before, EntryRanks(before + [e])) && e in EntryRanks(before + [e])
  {
    SameHeapOrder(before, EntryRanks(before), EntryRanks(before + [e]));
  }

  /** Lower one count: its entries all go stale, every other entry keeps its standing. */
  method LowerState(state: CountState, ghost entries: seq<CountEntry>, ghost counts: map<Key, CountState>,
                    ghost rows: seq<Row>, ghost live: set<nat>, ghost c: nat)
    requires CountsOk(counts, rows, live) && IndexOk(entries, counts)
    requires c in live && c < |rows| && rows[c].album in counts && counts[rows[c].album] == state
    modifies state
    ensures CountsOk(counts, rows, live - {c}) && IndexOkBut(entries, counts, rows[c].album)
  {
    hide Count, First, HeapOrdered, EntryRanks, Distinct;
    LoweredCounts(counts, rows, live, c);
    state.remaining := state.remaining - 1;
    state.revision := state.revision + 1;
  }

  method PushCurrent(heap: BinaryHeap<CountEntry>, state: CountState, ghost counts: map<Key, CountState>)
    requires state.key in counts && counts[state.key] == state && IndexOkBut(heap.values, counts, state.key)
    modifies heap`values
    ensures IndexOk(heap.values, counts)
  {
    hide IndexOkBut, IndexOk, HeapOrdered;
    ghost var before := heap.values;
    var entry := CountEntry(state, state.remaining, state.revision);
    ExtendRanks(before, entry, counts, state.key);
    HeapIsNoState(heap, before, counts);
    heap.Push(entry, CountEntryHigherPriority, EntryRanks(before + [entry]));
    CompleteIndex(before, entry, heap.values, counts, state.key);
  }

  /** Lower the count of a placed row's album and index the new count; its old entry goes stale. */
  method LowerAlbumCount(heap: BinaryHeap<CountEntry>, counts: map<Key, CountState>, key: Key,
                         ghost rows: seq<Row>, ghost live: set<nat>, ghost c: nat)
    requires CountsOk(counts, rows, live) && IndexOk(heap.values, counts)
    requires c in live && c < |rows| && rows[c].album == key
    modifies heap`values, counts.Values
    ensures CountsOk(counts, rows, live - {c}) && IndexOk(heap.values, counts)
  {
    hide Count, First, IndexOk, HeapOrdered;
    LoweredCounts(counts, rows, live, c);
    if key !in counts {
      assert false;  // "selected album count is unavailable"
    }
    var state := counts[key];
    LowerState(state, heap.values, counts, rows, live, c);
    if state.remaining > 0 {
      HeapIsNoState(heap, heap.values, counts);
      PushCurrent(heap, state, counts);
    } else {
      NothingMissing(heap.values, counts, key);
    }
  }

  lemma NothingMissing(entries: seq<CountEntry>, counts: map<Key, CountState>, key: Key)
    requires IndexOkBut(entries, counts, key) && key in counts && counts[key].remaining == 0
    ensures IndexOk(entries, counts)
  {
  }
}
