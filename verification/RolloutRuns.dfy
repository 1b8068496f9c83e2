/** Every run of rollout attempts: commits, refusals, interruptions and retries, from the empty database. */
module RolloutRuns {
  import opened Collections
  import opened RolloutAuthority
  import opened RolloutDocuments

  /** Someone presents an evidence with a warrant; a transaction is interrupted and rolled back; or the database becomes ready
      for rollouts, or stops being so. */
  datatype Attempt = Present(evidenceHash: Hash, warrantHash: Hash) | Interrupted | Readiness(ready: bool)

  /** The transition that an attempt newly applies, if any. */
  function NewlyApplied(documents: Documents, s: State, a: Attempt): Option<Transition> {
    match a
    case Interrupted => None
    case Readiness(_) => None
    case Present(evidenceHash, warrantHash) =>
      match MakeTransition(documents, evidenceHash, warrantHash)
      case Err(_) => None
      case Ok(t) => if s.ready && Succeeds(s, t) then Some(t) else None
  }

  predicate Repeated(documents: Documents, s: State, a: Attempt) {
    a.Present? && s.ready
    && var made := MakeTransition(documents, a.evidenceHash, a.warrantHash);
       made.Ok? && Repeats(s, made.value)
  }

  function Next(documents: Documents, s: State, a: Attempt): State {
    if a.Readiness? then s.(ready := a.ready)
    else if NewlyApplied(documents, s, a).Some? then Written(s, NewlyApplied(documents, s, a).value)
    else if Repeated(documents, s, a) then Written(s, MakeTransition(documents, a.evidenceHash, a.warrantHash).value)
    else s
  }

  /** One event at the database; presenting documents is what the command does. */
  method PresentDocuments(documents: Documents, database: RolloutDatabase, a: Attempt) returns (r: Result<Outcome>)
    modifies database
    ensures database.Now() == Next(documents, old(database.Now()), a)
    ensures r.Ok? && r.value.applied <==> NewlyApplied(documents, old(database.Now()), a).Some?
    ensures r.Ok? && !r.value.applied <==> Repeated(documents, old(database.Now()), a)
    ensures r.Ok? ==>
      && a.Present? && Agree(documents, a.evidenceHash, a.warrantHash)
      && database.head.Some? && database.head.value.evidenceHash == a.evidenceHash
      && database.head.value.rollbackWarrantHash == a.warrantHash && Carries(documents, database.head.value)
      && ObservedPercent(database.Now(), documents.evidence(a.evidenceHash).intentGroup) == documents.evidence(a.evidenceHash).toPercent
  {
    hide Succeeds, Repeats, Written, Agree, Carries;
    match a
    case Interrupted => return Err("interrupted");
    case Readiness(ready) =>
      database.ready := ready;
      return Err("nothing presented");
    case Present(evidenceHash, warrantHash) =>
      var made := MakeTransition(documents, evidenceHash, warrantHash);
      if made.Err? { return Err(made.error); }
      ExclusiveCases(database.Now(), made.value);
      MadeExactlyWhenTheyAgree(documents, evidenceHash, warrantHash);
      ghost var before := database.Now();
      r := database.Apply(made.value);
      WrittenHead(before, made.value);
  }

  lemma WrittenHead(s: State, t: Transition)
    ensures Written(s, t).head == Some(t) && ObservedPercent(Written(s, t), t.intentGroup) == t.toPercent
  {
  }

  ghost function Run(documents: Documents, ready: bool, attempts: seq<Attempt>): State {
    if |attempts| == 0 then Empty(ready)
    else Next(documents, Run(documents, ready, attempts[..|attempts| - 1]), attempts[|attempts| - 1])
  }

  /** Whether the database is ready after a run. */
  function ReadyAfter(ready: bool, attempts: seq<Attempt>): bool {
    if |attempts| == 0 then ready
    else if attempts[|attempts| - 1].Readiness? then attempts[|attempts| - 1].ready
    else ReadyAfter(ready, attempts[..|attempts| - 1])
  }

  /** The transitions that a run newly applied, in order. */
  ghost function History(documents: Documents, ready: bool, attempts: seq<Attempt>): seq<Transition> {
    if |attempts| == 0 then []
    else
      var before := attempts[..|attempts| - 1];
      var applied := NewlyApplied(documents, Run(documents, ready, before), attempts[|attempts| - 1]);
      History(documents, ready, before) + (if applied.Some? then [applied.value] else [])
  }

  // ---------- what a history allows ----------

  function Latest(h: seq<Transition>, g: IntentGroup): (r: Option<Transition>)
    ensures r.Some? ==> r.value in h && r.value.intentGroup == g
    ensures r.None? ==> forall t | t in h :: t.intentGroup != g
  {
    if |h| == 0 then None
    else if h[|h| - 1].intentGroup == g then Some(h[|h| - 1])
    else assert h == h[..|h| - 1] + [h[|h| - 1]]; Latest(h[..|h| - 1], g)
  }

  function PercentAfter(h: seq<Transition>, g: IntentGroup): string {
    match Latest(h, g)
    case None => "0"
    case Some(t) => t.toPercent
  }

  ghost predicate Made(documents: Documents, t: Transition) {
    MakeTransition(documents, t.evidenceHash, t.rollbackWarrantHash) == Ok(t)
  }

  /** t continues the chain h: it names the last evidence, the percentages h leads to, and the warrant of what it undoes. */
  ghost predicate Continues(h: seq<Transition>, t: Transition) {
    && t.previous == (if |h| == 0 then None else Some(h[|h| - 1].evidenceHash))
    && (forall g :: g in t.currentPercentages && t.currentPercentages[g] == PercentAfter(h, g))
    && t.fromPercent == PercentAfter(h, t.intentGroup)
    && (t.operation.RollbackToZero? ==>
          && |h| > 0 && h[|h| - 1].rollbackWarrantHash == t.rollbackWarrantHash && h[|h| - 1].intentCanaryHash == t.intentCanaryHash
          && Latest(h, t.intentGroup).Some?
          && Latest(h, t.intentGroup).value.rollbackWarrantHash == t.rollbackWarrantHash
          && Latest(h, t.intentGroup).value.intentCanaryHash == t.intentCanaryHash)
  }

  ghost predicate IsChain(documents: Documents, h: seq<Transition>) {
    forall k | 0 <= k < |h| :: Made(documents, h[k]) && Continues(h[..k], h[k])
  }

  ghost predicate RecordsIntents(intents: map<IntentGroup, Transition>, h: seq<Transition>) {
    forall g :: (if g in intents then Some(intents[g]) else None) == Latest(h, g)
  }

  ghost predicate RecordsSwitches(killSwitches: map<IntentGroup, bool>, h: seq<Transition>) {
    forall g :: (g in killSwitches <==> Latest(h, g).Some?)
      && (g in killSwitches ==> killSwitches[g] == Latest(h, g).value.operation.RollbackToZero?)
  }

  ghost predicate RecordsAuthorities(authorities: map<Hash, Transition>, h: seq<Transition>) {
    && (forall e | e in authorities :: authorities[e].evidenceHash == e && authorities[e] in h)
    && (forall t | t in h :: t.evidenceHash in authorities)
  }

  ghost predicate RecordsWarrants(warrants: map<Hash, WarrantRecord>, h: seq<Transition>) {
    && (forall w | w in warrants :: IsRecordOf(warrants[w], w, h))
    && (forall t | t in h :: t.rollbackWarrantHash in warrants)
  }

  ghost predicate IsRecordOf(r: WarrantRecord, w: Hash, h: seq<Transition>) {
    exists t :: t in h && t.rollbackWarrantHash == w && r == RecordOf(t)
  }

  /** The database holds exactly what the history wrote. */
  ghost predicate Records(s: State, h: seq<Transition>) {
    && s.head == (if |h| == 0 then None else Some(h[|h| - 1]))
    && RecordsIntents(s.intents, h)
    && RecordsSwitches(s.killSwitches, h)
    && RecordsAuthorities(s.authorities, h)
    && RecordsWarrants(s.warrants, h)
  }

  // ---------- chains ----------

  lemma ChainPrefix(documents: Documents, h: seq<Transition>, t: Transition)
    requires IsChain(documents, h) && Made(documents, t) && Continues(h, t)
    ensures IsChain(documents, h + [t])
  {
    hide Made, Continues;
    forall k | 0 <= k < |h + [t]| ensures Made(documents, (h + [t])[k]) && Continues((h + [t])[..k], (h + [t])[k]) {
      assert (h + [t])[..k] == h[..k];
      if k == |h| { assert h[..k] == h; }
    }
  }

  lemma ChainLink(documents: Documents, h: seq<Transition>, k: nat)
    requires IsChain(documents, h) && k < |h|
    ensures h[k].previous == (if k == 0 then None else Some(h[k - 1].evidenceHash))
    ensures h[k].previous == documents.evidence(h[k].evidenceHash).previous
    ensures Made(documents, h[k]) && Continues(h[..k], h[k])
  {
    hide Latest;
  }

  /** No evidence occurs twice: equal hashes would have equal predecessors, down to the empty state. */
  lemma {:induction false} EvidenceOccursOnce(documents: Documents, h: seq<Transition>, i: nat, j: nat)
    requires IsChain(documents, h) && i <= j < |h| && h[i].evidenceHash == h[j].evidenceHash
    ensures i == j
  {
    hide IsChain, Made, Continues;
    ChainLink(documents, h, i);
    ChainLink(documents, h, j);
    if i > 0 {
      EvidenceOccursOnce(documents, h, i - 1, j - 1);
    }
  }

  lemma WarrantNamesAdvance(documents: Documents, t: Transition)
    requires Made(documents, t)
    ensures AdvanceOf(t) == Some(documents.warrant(t.rollbackWarrantHash).advance.evidenceHash)
  {
  }

  /** A warrant belongs to one advance, so its records agree. */
  lemma SameWarrant(documents: Documents, t: Transition, u: Transition)
    requires Made(documents, t) && Made(documents, u) && t.rollbackWarrantHash == u.rollbackWarrantHash
    ensures AdvanceOf(t) == AdvanceOf(u)
  {
    WarrantNamesAdvance(documents, t);
    WarrantNamesAdvance(documents, u);
  }

  /** What a rollback continues: its warrant is the head's and that of the latest operation of its intent. */
  lemma UndoneAdvance(documents: Documents, h: seq<Transition>, k: nat) returns (m: nat)
    requires IsChain(documents, h) && k < |h| && h[k].operation.RollbackToZero?
    ensures m < k && h[m].intentGroup == h[k].intentGroup && h[m].rollbackWarrantHash == h[k].rollbackWarrantHash
    ensures h[m].toPercent == h[k].fromPercent
    ensures h[k - 1].rollbackWarrantHash == h[k].rollbackWarrantHash && h[k - 1].intentCanaryHash == h[k].intentCanaryHash
  {
    hide IsChain, Made, Latest;
    ChainLink(documents, h, k);
    var u := Latest(h[..k], h[k].intentGroup).value;
    m :| 0 <= m < k && h[m] == u;
  }

  /** An accepted rollback directly follows the advance of the same intent that its warrant was issued for. */
  lemma RollbackFollowsItsAdvance(documents: Documents, h: seq<Transition>, k: nat)
    requires IsChain(documents, h) && k < |h| && h[k].operation.RollbackToZero?
    ensures k > 0 && h[k - 1].operation.Advance? && h[k - 1].intentGroup == h[k].intentGroup
    ensures h[k - 1].rollbackWarrantHash == h[k].rollbackWarrantHash && h[k - 1].intentCanaryHash == h[k].intentCanaryHash
    ensures h[k - 1].toPercent == h[k].fromPercent
  {
    hide IsChain, Made, Continues, Latest;
    var m := UndoneAdvance(documents, h, k);
    var u := h[m];
    ChainLink(documents, h, k);
    ChainLink(documents, h, m);
    SameWarrant(documents, h[k], u);
    if u.operation.Advance? {
      EvidenceOccursOnce(documents, h, m, k - 1);
    } else {
      EvidenceOccursOnce(documents, h, m - 1, k - 1);
      assert false;
    }
  }

  // ---------- percentages ----------

  /** The advances of an intent since its last rollback. */
  function AdvancesSinceRollback(h: seq<Transition>, g: IntentGroup): nat {
    if |h| == 0 then 0
    else if h[|h| - 1].intentGroup != g then AdvancesSinceRollback(h[..|h| - 1], g)
    else if h[|h| - 1].operation.Advance? then AdvancesSinceRollback(h[..|h| - 1], g) + 1
    else 0
  }

  lemma RungAbove(fromPercent: string, toPercent: string, rung: nat)
    requires rung < |PERCENTAGES| && fromPercent == PERCENTAGES[rung]
    requires AdjacentOrZero(Advance, fromPercent, toPercent)
    ensures rung + 1 < |PERCENTAGES| && toPercent == PERCENTAGES[rung + 1]
  {
    assert fromPercent in PERCENTAGES;
    assert IndexOf(PERCENTAGES, fromPercent) == rung;
  }

  lemma MadeSteps(documents: Documents, t: Transition)
    requires Made(documents, t)
    ensures AdjacentOrZero(t.operation, t.fromPercent, t.toPercent)
    ensures t.operation.RollbackToZero? ==> t.toPercent == PERCENTAGES[0]
  {
  }

  /** Each intent stands on the rung that its advances since its last rollback have reached. */
  lemma {:induction false} PercentageIsRung(documents: Documents, h: seq<Transition>, g: IntentGroup)
    requires IsChain(documents, h)
    ensures AdvancesSinceRollback(h, g) < |PERCENTAGES|
    ensures PercentAfter(h, g) == PERCENTAGES[AdvancesSinceRollback(h, g)]
  {
    hide IsChain, Made, AdjacentOrZero;
    if |h| > 0 {
      var before := h[..|h| - 1];
      var last := h[|h| - 1];
      ShorterChain(documents, h);
      PercentageIsRung(documents, before, g);
      ChainLink(documents, h, |h| - 1);
      MadeSteps(documents, last);
      if last.intentGroup == g && last.operation.Advance? {
        RungAbove(last.fromPercent, last.toPercent, AdvancesSinceRollback(before, g));
      }
    }
  }

  lemma ShorterChain(documents: Documents, h: seq<Transition>)
    requires IsChain(documents, h) && |h| > 0
    ensures IsChain(documents, h[..|h| - 1])
  {
    hide Made, Continues;
    var before := h[..|h| - 1];
    forall k | 0 <= k < |before| ensures Made(documents, before[k]) && Continues(before[..k], before[k]) {
      assert before[..k] == h[..k];
    }
  }

  // ---------- one attempt on a recorded history ----------

  lemma GroupAgrees(s: State, h: seq<Transition>, g: IntentGroup)
    requires Records(s, h)
    ensures ObservedPercent(s, g) == PercentAfter(h, g)
    ensures (if g in s.intents then Some(s.intents[g]) else None) == Latest(h, g)
  {
    hide Latest, RecordsSwitches, RecordsAuthorities, RecordsWarrants;
  }

  lemma ChainsNeverRepeat(documents: Documents, h: seq<Transition>, t: Transition)
    requires IsChain(documents, h) && Made(documents, t) && Continues(h, t) && |h| > 0
    ensures h[|h| - 1].evidenceHash != t.evidenceHash
  {
    hide Made, IsChain, Continues;
    if h[|h| - 1].evidenceHash == t.evidenceHash {
      ChainPrefix(documents, h, t);
      EvidenceOccursOnce(documents, h + [t], |h| - 1, |h|);
      assert false;
    }
  }

  /** The database accepts a transition exactly when it continues the recorded chain. */
  lemma AcceptedMeansContinues(documents: Documents, s: State, h: seq<Transition>, t: Transition)
    requires Records(s, h) && IsChain(documents, h) && Made(documents, t)
    ensures Succeeds(s, t) <==> Continues(h, t)
  {
    hide Made, IsChain, Latest, PercentAfter, ObservedPercent, Records;
    forall g ensures ObservedPercent(s, g) == PercentAfter(h, g) {
      GroupAgrees(s, h, g);
    }
    GroupAgrees(s, h, t.intentGroup);
    HeadAgrees(s, h);
    if Continues(h, t) && |h| > 0 {
      ChainsNeverRepeat(documents, h, t);
    }
  }

  lemma HeadAgrees(s: State, h: seq<Transition>)
    requires Records(s, h)
    ensures s.head == (if |h| == 0 then None else Some(h[|h| - 1]))
  {
  }

  lemma {:induction false} LatestGrows(h: seq<Transition>, t: Transition, g: IntentGroup)
    ensures Latest(h + [t], g) == if t.intentGroup == g then Some(t) else Latest(h, g)
  {
    assert (h + [t])[..|h|] == h;
  }

  lemma HistoryGrows(h: seq<Transition>, t: Transition)
    ensures forall g :: Latest(h + [t], g) == if t.intentGroup == g then Some(t) else Latest(h, g)
    ensures forall u :: u in h + [t] <==> u in h || u == t
    ensures (h + [t])[|h|] == t
  {
    forall g ensures Latest(h + [t], g) == if t.intentGroup == g then Some(t) else Latest(h, g) {
      LatestGrows(h, t, g);
    }
  }

  lemma WarrantsGrow(warrants: map<Hash, WarrantRecord>, h: seq<Transition>, t: Transition)
    requires RecordsWarrants(warrants, h)
    ensures RecordsWarrants(Kept(warrants, t.rollbackWarrantHash, RecordOf(t)), h + [t])
  {
    hide RecordOf;
    var after := Kept(warrants, t.rollbackWarrantHash, RecordOf(t));
    forall w | w in after ensures IsRecordOf(after[w], w, h + [t]) {
      if w in warrants {
        var u :| u in h && u.rollbackWarrantHash == w && warrants[w] == RecordOf(u);
        assert u in h + [t];
      } else {
        assert t in h + [t];
      }
    }
  }

  lemma AuthoritiesGrow(authorities: map<Hash, Transition>, h: seq<Transition>, t: Transition)
    requires RecordsAuthorities(authorities, h)
    ensures RecordsAuthorities(Kept(authorities, t.evidenceHash, t), h + [t])
  {
  }

  lemma RecordsGrow(s: State, h: seq<Transition>, t: Transition)
    requires Records(s, h)
    ensures Records(Written(s, t), h + [t])
  {
    hide RecordOf, Kept, RecordsWarrants, RecordsAuthorities, RecordsIntents, RecordsSwitches;
    IntentsGrow(s.intents, s.killSwitches, h, t);
    WarrantsGrow(s.warrants, h, t);
    AuthoritiesGrow(s.authorities, h, t);
  }

  lemma IntentsGrow(intents: map<IntentGroup, Transition>, killSwitches: map<IntentGroup, bool>, h: seq<Transition>, t: Transition)
    requires RecordsIntents(intents, h) && RecordsSwitches(killSwitches, h)
    ensures RecordsIntents(intents[t.intentGroup := t], h + [t])
    ensures RecordsSwitches(killSwitches[t.intentGroup := t.operation.RollbackToZero?], h + [t])
  {
    hide Latest;
    HistoryGrows(h, t);
  }

  lemma SameDocuments(documents: Documents, t: Transition, u: Transition)
    requires Made(documents, t) && Made(documents, u)
    requires t.evidenceHash == u.evidenceHash && t.rollbackWarrantHash == u.rollbackWarrantHash
    ensures t == u
  {
    hide MakeTransition;
  }

  lemma HeadIsRecorded(documents: Documents, s: State, h: seq<Transition>, t: Transition)
    requires Records(s, h) && IsChain(documents, h) && Made(documents, t) && IsHead(s, t)
    requires s.head.value.rollbackWarrantHash == t.rollbackWarrantHash
    ensures s.head == Some(t) && t in h && Latest(h, t.intentGroup) == Some(t)
  {
    hide IsChain, Records, Made, Continues;
    HeadAgrees(s, h);
    ChainLink(documents, h, |h| - 1);
    SameDocuments(documents, h[|h| - 1], t);
  }

  /** Presenting the head again, with the warrant it was applied with, changes nothing. */
  lemma RepeatChangesNothing(documents: Documents, s: State, h: seq<Transition>, t: Transition)
    requires Records(s, h) && IsChain(documents, h) && Made(documents, t) && IsHead(s, t)
    ensures Repeats(s, t) <==> s.head.value.rollbackWarrantHash == t.rollbackWarrantHash
    ensures Repeats(s, t) ==> Written(s, t) == s
  {
    hide IsChain, Made, Latest, RecordsWarrants, RecordsAuthorities, RecordOf;
    if s.head.value.rollbackWarrantHash == t.rollbackWarrantHash {
      HeadIsRecorded(documents, s, h, t);
      AlreadyKept(s, h, t);
      assert s.intents[t.intentGroup] == t;
      assert s.intents[t.intentGroup := t] == s.intents;
      assert s.killSwitches[t.intentGroup := t.operation.RollbackToZero?] == s.killSwitches;
    }
  }

  lemma AlreadyKept(s: State, h: seq<Transition>, t: Transition)
    requires Records(s, h) && t in h
    ensures Kept(s.authorities, t.evidenceHash, t) == s.authorities
    ensures Kept(s.warrants, t.rollbackWarrantHash, RecordOf(t)) == s.warrants
  {
    hide RecordsIntents, RecordsSwitches, IsRecordOf, RecordOf;
  }

  // ---------- every run ----------

  /** After any run the database records the run's history, and that history is one chain. */
  lemma {:induction false} RunIsRecorded(documents: Documents, ready: bool, attempts: seq<Attempt>)
    ensures IsChain(documents, History(documents, ready, attempts))
    ensures Records(Run(documents, ready, attempts), History(documents, ready, attempts))
    ensures Run(documents, ready, attempts).ready == ReadyAfter(ready, attempts)
  {
    hide IsChain, Records, Succeeds, Repeats, MakeTransition, Written;
    if |attempts| == 0 {
      NothingRecorded(documents, ready);
    } else {
      var before := attempts[..|attempts| - 1];
      RunIsRecorded(documents, ready, before);
      NextIsRecorded(documents, Run(documents, ready, before), History(documents, ready, before), attempts[|attempts| - 1]);
    }
  }

  lemma NothingRecorded(documents: Documents, ready: bool)
    ensures IsChain(documents, []) && Records(Empty(ready), [])
  {
  }

  lemma PresentedIsMade(documents: Documents, evidenceHash: Hash, warrantHash: Hash)
    ensures var made := MakeTransition(documents, evidenceHash, warrantHash);
      made.Ok? ==> Made(documents, made.value) && made.value.evidenceHash == evidenceHash && made.value.rollbackWarrantHash == warrantHash
  {
  }

  lemma NextIsRecorded(documents: Documents, s: State, h: seq<Transition>, a: Attempt)
    requires IsChain(documents, h) && Records(s, h)
    ensures var applied := NewlyApplied(documents, s, a);
      var after := h + (if applied.Some? then [applied.value] else []);
      IsChain(documents, after) && Records(Next(documents, s, a), after)
    ensures Next(documents, s, a).ready == if a.Readiness? then a.ready else s.ready
    ensures NewlyApplied(documents, s, a).None? ==> Next(documents, s, a) == if a.Readiness? then s.(ready := a.ready) else s
  {
    hide IsChain, Records, Succeeds, Repeats, MakeTransition, Made, Written;
    if a.Readiness? {
      assert h + [] == h;
      ReadinessIsNotRecorded(s, h, a.ready);
    } else if a.Present? {
      var made := MakeTransition(documents, a.evidenceHash, a.warrantHash);
      if made.Ok? {
        var t := made.value;
        PresentedIsMade(documents, a.evidenceHash, a.warrantHash);
        ReadinessKept(s, t);
        AcceptedMeansContinues(documents, s, h, t);
        if NewlyApplied(documents, s, a).Some? {
          ChainPrefix(documents, h, t);
          RecordsGrow(s, h, t);
        } else {
          assert h + [] == h;
          ExclusiveCases(s, t);
          if Repeats(s, t) { RepeatChangesNothing(documents, s, h, t); }
        }
      } else {
        assert h + [] == h;
      }
    } else {
      assert h + [] == h;
    }
  }

  lemma ReadinessIsNotRecorded(s: State, h: seq<Transition>, ready: bool)
    requires Records(s, h)
    ensures Records(s.(ready := ready), h)
  {
    hide RecordsIntents, RecordsSwitches, RecordsAuthorities, RecordsWarrants;
  }

  lemma ReadinessKept(s: State, t: Transition)
    ensures Written(s, t).ready == s.ready
  {
  }

  /** Each evidence names the one before it, the first names none, and none occurs twice. */
  ghost predicate IsLinear(h: seq<Transition>) {
    && (|h| > 0 ==> h[0].previous == None)
    && (forall k | 0 < k < |h| :: h[k].previous == Some(h[k - 1].evidenceHash))
    && (forall i, j | 0 <= i < j < |h| :: h[i].evidenceHash != h[j].evidenceHash)
  }

  lemma ChainIsLinear(documents: Documents, h: seq<Transition>)
    requires IsChain(documents, h)
    ensures IsLinear(h)
  {
    hide IsChain, Made, Continues;
    if |h| > 0 { ChainLink(documents, h, 0); }
    forall k | 0 < k < |h| ensures h[k].previous == Some(h[k - 1].evidenceHash) {
      ChainLink(documents, h, k);
    }
    forall i, j | 0 <= i < j < |h| ensures h[i].evidenceHash != h[j].evidenceHash {
      if h[i].evidenceHash == h[j].evidenceHash { EvidenceOccursOnce(documents, h, i, j); }
    }
  }

  /** Over every run, applied evidence forms one linear chain from the empty state and none is applied twice. */
  lemma EvidenceFormsOneChain(documents: Documents, ready: bool, attempts: seq<Attempt>)
    ensures var h := History(documents, ready, attempts);
      IsLinear(h) && Run(documents, ready, attempts).head == if |h| == 0 then None else Some(h[|h| - 1])
  {
    hide IsChain, Records, History, Run, IsLinear;
    var h := History(documents, ready, attempts);
    RunIsRecorded(documents, ready, attempts);
    HeadAgrees(Run(documents, ready, attempts), h);
    ChainIsLinear(documents, h);
  }

  /** After every run, an intent's percentage is the rung its advances since its last rollback reached, and its switch is
      disabled exactly when its last operation was a rollback. */
  lemma PercentagesAndSwitches(documents: Documents, ready: bool, attempts: seq<Attempt>, g: IntentGroup)
    ensures var s, h := Run(documents, ready, attempts), History(documents, ready, attempts);
      && AdvancesSinceRollback(h, g) < |PERCENTAGES|
      && ObservedPercent(s, g) == PERCENTAGES[AdvancesSinceRollback(h, g)]
      && (g in s.killSwitches <==> Latest(h, g).Some?)
      && (g in s.killSwitches ==> (s.killSwitches[g] <==> Latest(h, g).value.operation.RollbackToZero?))
  {
    var s, h := Run(documents, ready, attempts), History(documents, ready, attempts);
    hide IsChain, History, Run, Latest, Records, ObservedPercent, PercentAfter;
    RunIsRecorded(documents, ready, attempts);
    GroupAgrees(s, h, g);
    SwitchAgrees(s, h, g);
    PercentageIsRung(documents, h, g);
  }

  lemma SwitchAgrees(s: State, h: seq<Transition>, g: IntentGroup)
    requires Records(s, h)
    ensures g in s.killSwitches <==> Latest(h, g).Some?
    ensures g in s.killSwitches ==> (s.killSwitches[g] <==> Latest(h, g).value.operation.RollbackToZero?)
  {
    hide Latest, RecordsIntents, RecordsWarrants, RecordsAuthorities;
  }

  /** In every run, an accepted rollback undoes the operation right before it: the same intent's advance, under the same warrant. */
  lemma RollbacksUndoTheLastAdvance(documents: Documents, ready: bool, attempts: seq<Attempt>, k: nat)
    requires k < |History(documents, ready, attempts)| && History(documents, ready, attempts)[k].operation.RollbackToZero?
    ensures var h := History(documents, ready, attempts);
      && k > 0 && h[k - 1].operation.Advance? && h[k - 1].intentGroup == h[k].intentGroup
      && h[k - 1].rollbackWarrantHash == h[k].rollbackWarrantHash && h[k - 1].toPercent == h[k].fromPercent
      && h[k].toPercent == "0"
  {
    RunIsRecorded(documents, ready, attempts);
    hide IsChain;
    RollbackFollowsItsAdvance(documents, History(documents, ready, attempts), k);
    ChainLink(documents, History(documents, ready, attempts), k);
    MadeSteps(documents, History(documents, ready, attempts)[k]);
  }

  /** A retry of the last applied evidence changes nothing; it is confirmed, not applied, when its warrant is the recorded one. */
  lemma RetryOfHead(documents: Documents, ready: bool, attempts: seq<Attempt>, a: Attempt)
    requires var h := History(documents, ready, attempts); a.Present? && |h| > 0 && h[|h| - 1].evidenceHash == a.evidenceHash
    ensures var s, h := Run(documents, ready, attempts), History(documents, ready, attempts);
      && NewlyApplied(documents, s, a).None?
      && Next(documents, s, a) == s
      && (Repeated(documents, s, a) <==> s.ready && a.warrantHash == h[|h| - 1].rollbackWarrantHash)
  {
    var s, h := Run(documents, ready, attempts), History(documents, ready, attempts);
    hide IsChain, History, Run, Records, Continues, MakeTransition, Repeats, Succeeds, Written, Next;
    RunIsRecorded(documents, ready, attempts);
    NextIsRecorded(documents, s, h, a);
    HeadAgrees(s, h);
    ChainLink(documents, h, |h| - 1);
    PresentedIsMade(documents, a.evidenceHash, a.warrantHash);
    var made := MakeTransition(documents, a.evidenceHash, a.warrantHash);
    assert a.warrantHash == h[|h| - 1].rollbackWarrantHash ==> made.Ok?;
    if made.Ok? {
      ExclusiveCases(s, made.value);
      RepeatChangesNothing(documents, s, h, made.value);
    }
  }

  /** Evidence that a later one has superseded is refused, whatever warrant comes with it. */
  lemma SupersededIsRefused(documents: Documents, ready: bool, attempts: seq<Attempt>, a: Attempt, j: nat)
    requires var h := History(documents, ready, attempts); a.Present? && j < |h| - 1 && h[j].evidenceHash == a.evidenceHash
    ensures var s := Run(documents, ready, attempts);
      NewlyApplied(documents, s, a).None? && !Repeated(documents, s, a) && Next(documents, s, a) == s
  {
    var s, h := Run(documents, ready, attempts), History(documents, ready, attempts);
    hide IsChain, History, Run, Records, MakeTransition, Made, Repeats, Succeeds, Continues, Written;
    RunIsRecorded(documents, ready, attempts);
    HeadAgrees(s, h);
    EvidenceNotLast(documents, h, j);
    PresentedIsMade(documents, a.evidenceHash, a.warrantHash);
    var made := MakeTransition(documents, a.evidenceHash, a.warrantHash);
    if made.Ok? {
      ExclusiveCases(s, made.value);
      AcceptedMeansContinues(documents, s, h, made.value);
      if Continues(h, made.value) {
        ChainPrefix(documents, h, made.value);
        assert (h + [made.value])[j] == h[j];
        EvidenceOccursOnce(documents, h + [made.value], j, |h|);
        assert false;
      }
    }
  }

  lemma EvidenceNotLast(documents: Documents, h: seq<Transition>, j: nat)
    requires IsChain(documents, h) && j < |h| - 1
    ensures h[j].evidenceHash != h[|h| - 1].evidenceHash
  {
    hide IsChain;
    if h[j].evidenceHash == h[|h| - 1].evidenceHash { EvidenceOccursOnce(documents, h, j, |h| - 1); }
  }

  /** Fresh evidence is applied exactly when it continues the chain; a refusal leaves the state alone. */
  lemma AppliedExactlyWhenItContinues(documents: Documents, ready: bool, attempts: seq<Attempt>, a: Attempt)
    ensures var s, h := Run(documents, ready, attempts), History(documents, ready, attempts);
      && (NewlyApplied(documents, s, a).Some? <==>
            a.Present? && s.ready && MakeTransition(documents, a.evidenceHash, a.warrantHash).Ok?
            && Continues(h, MakeTransition(documents, a.evidenceHash, a.warrantHash).value))
      && (NewlyApplied(documents, s, a).None? ==> Next(documents, s, a) == if a.Readiness? then s.(ready := a.ready) else s)
  {
    var s, h := Run(documents, ready, attempts), History(documents, ready, attempts);
    hide IsChain, History, Run, Records, MakeTransition, Made, Repeats, Succeeds, Continues, Next, Written;
    RunIsRecorded(documents, ready, attempts);
    NextIsRecorded(documents, s, h, a);
    if a.Present? && MakeTransition(documents, a.evidenceHash, a.warrantHash).Ok? {
      PresentedIsMade(documents, a.evidenceHash, a.warrantHash);
      AcceptedMeansContinues(documents, s, h, MakeTransition(documents, a.evidenceHash, a.warrantHash).value);
    }
  }

  /** Authority and warrant records are append-only. */
  lemma RecordsAreAppendOnly(documents: Documents, s: State, a: Attempt)
    ensures forall e | e in s.authorities :: e in Next(documents, s, a).authorities && Next(documents, s, a).authorities[e] == s.authorities[e]
    ensures forall w | w in s.warrants :: w in Next(documents, s, a).warrants && Next(documents, s, a).warrants[w] == s.warrants[w]
  {
    hide Succeeds, Repeats, MakeTransition, RecordOf;
  }
}
