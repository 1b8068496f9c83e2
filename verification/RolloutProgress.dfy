/** What signed documents let a run do: nothing else is ever applied, and whatever agrees and carries on is applied. */
module RolloutProgress {
  import opened Collections
  import opened RolloutAuthority
  import opened RolloutDocuments
  import opened RolloutRuns

  /** Every transition that a run applies has agreeing documents and carries their fields. */
  lemma HistoryAgrees(documents: Documents, ready: bool, attempts: seq<Attempt>, t: Transition)
    requires t in History(documents, ready, attempts)
    ensures Agree(documents, t.evidenceHash, t.rollbackWarrantHash) && Carries(documents, t)
  {
    hide IsChain, History, Run, Records, MakeTransition, Agree, Carries;
    var h := History(documents, ready, attempts);
    RunIsRecorded(documents, ready, attempts);
    var k :| 0 <= k < |h| && h[k] == t;
    ChainLink(documents, h, k);
    MadeExactlyWhenTheyAgree(documents, t.evidenceHash, t.rollbackWarrantHash);
  }

  /** After every run, each stored warrant belongs to a transition of the history: to its advance, group and canary. */
  lemma WarrantRecordsCarry(documents: Documents, ready: bool, attempts: seq<Attempt>, warrantHash: Hash) returns (t: Transition)
    requires warrantHash in Run(documents, ready, attempts).warrants
    ensures t in History(documents, ready, attempts) && t.rollbackWarrantHash == warrantHash
    ensures var r := Run(documents, ready, attempts).warrants[warrantHash];
      && r.rollbackWarrantHash == warrantHash && r.intentGroup == t.intentGroup && r.intentCanaryHash == t.intentCanaryHash
      && r.advanceEvidenceHash == (if t.operation == Advance then Some(t.evidenceHash) else t.previous)
  {
    hide IsChain, History, Run, RecordsIntents, RecordsSwitches, RecordsAuthorities;
    RunIsRecorded(documents, ready, attempts);
    var h, r := History(documents, ready, attempts), Run(documents, ready, attempts).warrants[warrantHash];
    assert IsRecordOf(r, warrantHash, h);
    t :| t in h && t.rollbackWarrantHash == warrantHash && r == RecordOf(t);
  }

  // ---------- progress ----------

  /** The last operation of the intent led to this percentage; without one it is zero. */
  ghost predicate StandsAt(h: seq<Transition>, g: IntentGroup, percent: string) {
    || (percent == "0" && forall t | t in h :: t.intentGroup != g)
    || exists k :: 0 <= k < |h| && h[k].intentGroup == g && h[k].toPercent == percent
         && forall j | k < j < |h| :: h[j].intentGroup != g
  }

  lemma {:induction false} StandsAtIsPercent(h: seq<Transition>, g: IntentGroup, percent: string)
    ensures StandsAt(h, g, percent) <==> percent == PercentAfter(h, g)
  {
    if |h| > 0 {
      var before, last := h[..|h| - 1], h[|h| - 1];
      assert h == before + [last];
      if last.intentGroup == g {
        assert PercentAfter(h, g) == last.toPercent;
        if percent == last.toPercent { assert h[|h| - 1].toPercent == percent; }
        assert last in h;
      } else {
        StandsAtIsPercent(before, g, percent);
        assert PercentAfter(h, g) == PercentAfter(before, g);
        StandsAtEarlier(before, last, g, percent);
      }
    }
  }

  lemma StandsAtEarlier(before: seq<Transition>, last: Transition, g: IntentGroup, percent: string)
    requires last.intentGroup != g
    ensures StandsAt(before + [last], g, percent) <==> StandsAt(before, g, percent)
  {
    var h := before + [last];
    if k :| 0 <= k < |before| && before[k].intentGroup == g && before[k].toPercent == percent
           && forall j | k < j < |before| :: before[j].intentGroup != g {
      assert h[k] == before[k];
    }
    if k :| 0 <= k < |h| && h[k].intentGroup == g && h[k].toPercent == percent
           && forall j | k < j < |h| :: h[j].intentGroup != g {
      assert before[k] == h[k];
      assert forall j | k < j < |before| :: h[j] == before[j];
    }
    assert forall t | t in before :: t in h;
  }

  /** The evidence names the one applied last and the percentages as they stand; a rollback comes right after the operation of its
      own intent that was applied under the same warrant, with the same canary. */
  ghost predicate CarriesOn(documents: Documents, h: seq<Transition>, evidenceHash: Hash, warrantHash: Hash) {
    var e := documents.evidence(evidenceHash);
    && e.previous == (if |h| == 0 then None else Some(h[|h| - 1].evidenceHash))
    && (forall g :: g in e.currentPercentages && StandsAt(h, g, e.currentPercentages[g]))
    && StandsAt(h, e.intentGroup, e.fromPercent)
    && (e.operation.RollbackToZero? ==>
          && |h| > 0 && h[|h| - 1].intentGroup == e.intentGroup
          && h[|h| - 1].rollbackWarrantHash == warrantHash && h[|h| - 1].intentCanaryHash == e.intentCanaryHash)
  }

  lemma ContinuesExactly(documents: Documents, h: seq<Transition>, t: Transition)
    requires IsChain(documents, h) && Made(documents, t)
    ensures Continues(h, t) <==> CarriesOn(documents, h, t.evidenceHash, t.rollbackWarrantHash)
  {
    hide IsChain, Made, Latest, StandsAt, MakeTransition, Agree;
    MadeCarries(documents, t);
    forall g, percent ensures StandsAt(h, g, percent) <==> percent == PercentAfter(h, g) {
      StandsAtIsPercent(h, g, percent);
    }
    if t.operation.RollbackToZero? && Continues(h, t) {
      ChainPrefix(documents, h, t);
      assert (h + [t])[|h|] == t && (h + [t])[|h| - 1] == h[|h| - 1];
      RollbackFollowsItsAdvance(documents, h + [t], |h|);
    }
    if |h| > 0 { LatestIsLast(h); }
  }

  lemma MadeCarries(documents: Documents, t: Transition)
    requires Made(documents, t)
    ensures Carries(documents, t) && Agree(documents, t.evidenceHash, t.rollbackWarrantHash)
  {
    hide MakeTransition, Agree, Carries;
    MadeExactlyWhenTheyAgree(documents, t.evidenceHash, t.rollbackWarrantHash);
  }

  lemma LatestIsLast(h: seq<Transition>)
    requires |h| > 0
    ensures Latest(h, h[|h| - 1].intentGroup) == Some(h[|h| - 1])
  {
  }

  /** Safety and progress in one: after any run, documents are newly applied exactly when the database is ready, they agree and they
      carry on; the history then grows by a transition with their fields, and otherwise stays as it was. */
  lemma AppliedExactlyWhenTheyAgree(documents: Documents, ready: bool, attempts: seq<Attempt>, evidenceHash: Hash, warrantHash: Hash)
    ensures var h := History(documents, ready, attempts);
      var after := History(documents, ready, attempts + [Present(evidenceHash, warrantHash)]);
      if ReadyAfter(ready, attempts) && Agree(documents, evidenceHash, warrantHash) && CarriesOn(documents, h, evidenceHash, warrantHash)
      then |after| == |h| + 1 && after[..|h|] == h && after[|h|].evidenceHash == evidenceHash
        && after[|h|].rollbackWarrantHash == warrantHash && Carries(documents, after[|h|])
      else after == h
  {
    hide IsChain, Run, Records, MakeTransition, Made, Continues, CarriesOn, Agree, Carries, NewlyApplied;
    var a := Present(evidenceHash, warrantHash);
    var s, h := Run(documents, ready, attempts), History(documents, ready, attempts);
    assert (attempts + [a])[..|attempts|] == attempts;
    RunIsRecorded(documents, ready, attempts);
    AppliedExactlyWhenItContinues(documents, ready, attempts, a);
    MadeExactlyWhenTheyAgree(documents, evidenceHash, warrantHash);
    PresentedIsMade(documents, evidenceHash, warrantHash);
    if NewlyApplied(documents, s, a).Some? { AppliedIsMade(documents, s, a); }
    var made := MakeTransition(documents, evidenceHash, warrantHash);
    if made.Ok? {
      ContinuesExactly(documents, h, made.value);
    }
  }

  lemma AppliedIsMade(documents: Documents, s: State, a: Attempt)
    requires a.Present? && NewlyApplied(documents, s, a).Some?
    ensures MakeTransition(documents, a.evidenceHash, a.warrantHash) == Ok(NewlyApplied(documents, s, a).value)
  {
    hide MakeTransition, Succeeds;
  }

  // ---------- all the way up, and back ----------

  const LADDER: seq<string> := ["0", "1", "10", "50", "100"]

  function Presentations(evidence: seq<Hash>, warrants: seq<Hash>): (r: seq<Attempt>)
    requires |evidence| == |warrants|
    ensures |r| == |evidence| && forall i | 0 <= i < |r| :: r[i] == Present(evidence[i], warrants[i])
  {
    seq(|evidence|, i requires 0 <= i < |evidence| => Present(evidence[i], warrants[i]))
  }

  function OnlyOf(g: IntentGroup, o: IntentGroup, percent: string): string {
    if o == g then percent else "0"
  }

  function Before(evidence: seq<Hash>, i: nat): Option<Hash>
    requires i < |evidence|
  {
    if i == 0 then None else Some(evidence[i - 1])
  }

  /** Advances of one intent, from zero and one rung at a time, each naming the one before it; all other intents stand at zero. */
  ghost predicate IsClimb(documents: Documents, g: IntentGroup, evidence: seq<Hash>, warrants: seq<Hash>) {
    && |evidence| == |warrants| <= 4
    && forall i | 0 <= i < |evidence| ::
         var e := documents.evidence(evidence[i]);
         && Agree(documents, evidence[i], warrants[i]) && e.operation.Advance? && e.intentGroup == g
         && e.fromPercent == LADDER[i] && e.previous == Before(evidence, i)
         && forall o :: o in e.currentPercentages && e.currentPercentages[o] == OnlyOf(g, o, LADDER[i])
  }

  /** What a climb leaves behind after k steps. */
  ghost predicate Climbed(documents: Documents, g: IntentGroup, evidence: seq<Hash>, warrants: seq<Hash>, h: seq<Transition>)
    requires |h| <= |evidence| == |warrants| <= 4
  {
    forall i | 0 <= i < |h| ::
      && h[i].evidenceHash == evidence[i] && h[i].rollbackWarrantHash == warrants[i] && h[i].intentGroup == g
      && ClimbsOneRung(LADDER[i], h[i].toPercent) && h[i].intentCanaryHash == documents.evidence(evidence[i]).intentCanaryHash
  }

  lemma {:induction false} ReadyWhilePresenting(ready: bool, attempts: seq<Attempt>)
    requires forall a | a in attempts :: a.Present?
    ensures ReadyAfter(ready, attempts) == ready
  {
    if |attempts| > 0 {
      assert attempts[|attempts| - 1] in attempts;
      ReadyWhilePresenting(ready, attempts[..|attempts| - 1]);
    }
  }

  lemma ClimbCarriesOn(documents: Documents, g: IntentGroup, evidence: seq<Hash>, warrants: seq<Hash>, h: seq<Transition>)
    requires IsClimb(documents, g, evidence, warrants) && |h| < |evidence| && Climbed(documents, g, evidence, warrants, h)
    ensures Agree(documents, evidence[|h|], warrants[|h|]) && CarriesOn(documents, h, evidence[|h|], warrants[|h|])
  {
    hide Agree;
    var e := documents.evidence(evidence[|h|]);
    forall o ensures StandsAt(h, o, OnlyOf(g, o, LADDER[|h|])) {
      if o == g && |h| > 0 { assert ClimbsOneRung(LADDER[|h| - 1], h[|h| - 1].toPercent); }
      assert forall t | t in h :: t.intentGroup == g;
    }
  }

  lemma {:induction false} ClimbIsApplied(documents: Documents, g: IntentGroup, evidence: seq<Hash>, warrants: seq<Hash>, k: nat)
    requires IsClimb(documents, g, evidence, warrants) && k <= |evidence|
    ensures var h := History(documents, true, Presentations(evidence, warrants)[..k]);
      |h| == k && Climbed(documents, g, evidence, warrants, h)
  {
    hide Agree, CarriesOn, StandsAt, History, IsClimb, Climbed, Carries;
    ClimbLength(documents, g, evidence, warrants);
    var attempts := Presentations(evidence, warrants);
    if k == 0 {
      assert attempts[..0] == [];
      NothingApplied(documents, true);
      assert Climbed(documents, g, evidence, warrants, []) by { NothingClimbed(documents, g, evidence, warrants); }
    } else {
      var before := History(documents, true, attempts[..k - 1]);
      ClimbIsApplied(documents, g, evidence, warrants, k - 1);
      ClimbCarriesOn(documents, g, evidence, warrants, before);
      ReadyWhilePresenting(true, attempts[..k - 1]);
      AppliedExactlyWhenTheyAgree(documents, true, attempts[..k - 1], evidence[k - 1], warrants[k - 1]);
      assert attempts[..k] == attempts[..k - 1] + [Present(evidence[k - 1], warrants[k - 1])];
      ClimbGrows(documents, g, evidence, warrants, before, History(documents, true, attempts[..k]));
    }
  }

  lemma ClimbLength(documents: Documents, g: IntentGroup, evidence: seq<Hash>, warrants: seq<Hash>)
    requires IsClimb(documents, g, evidence, warrants)
    ensures |evidence| == |warrants| <= 4
  {
  }

  lemma NothingApplied(documents: Documents, ready: bool)
    ensures History(documents, ready, []) == []
  {
  }

  lemma NothingClimbed(documents: Documents, g: IntentGroup, evidence: seq<Hash>, warrants: seq<Hash>)
    requires |evidence| == |warrants| <= 4
    ensures Climbed(documents, g, evidence, warrants, [])
  {
  }

  lemma ClimbGrows(documents: Documents, g: IntentGroup, evidence: seq<Hash>, warrants: seq<Hash>,
                   before: seq<Transition>, after: seq<Transition>)
    requires IsClimb(documents, g, evidence, warrants) && |before| < |evidence| && Climbed(documents, g, evidence, warrants, before)
    requires |after| == |before| + 1 && after[..|before|] == before && Carries(documents, after[|before|])
    requires after[|before|].evidenceHash == evidence[|before|] && after[|before|].rollbackWarrantHash == warrants[|before|]
    ensures Climbed(documents, g, evidence, warrants, after)
  {
    hide Agree, ClimbsOneRung;
    AgreeClimbs(documents, evidence[|before|], warrants[|before|]);
    assert forall i | 0 <= i < |before| :: after[i] == before[i];
  }

  lemma AgreeClimbs(documents: Documents, evidenceHash: Hash, warrantHash: Hash)
    requires Agree(documents, evidenceHash, warrantHash) && documents.evidence(evidenceHash).operation.Advance?
    ensures ClimbsOneRung(documents.evidence(evidenceHash).fromPercent, documents.evidence(evidenceHash).toPercent)
  {
  }

  lemma StandsAtIsObserved(documents: Documents, ready: bool, attempts: seq<Attempt>, g: IntentGroup, percent: string)
    requires StandsAt(History(documents, ready, attempts), g, percent)
    ensures ObservedPercent(Run(documents, ready, attempts), g) == percent
  {
    hide History, Run, Records, StandsAt, IsChain, ObservedPercent;
    var h := History(documents, ready, attempts);
    RunIsRecorded(documents, ready, attempts);
    StandsAtIsPercent(h, g, percent);
    GroupAgrees(Run(documents, ready, attempts), h, g);
  }

  /** A rollback of the intent from 100, agreeing with the warrant. */
  ghost predicate Undoes(documents: Documents, g: IntentGroup, undo: Hash, warrant: Hash) {
    var e := documents.evidence(undo);
    && Agree(documents, undo, warrant) && e.operation.RollbackToZero? && e.intentGroup == g && e.fromPercent == "100"
    && forall o :: o in e.currentPercentages && e.currentPercentages[o] == OnlyOf(g, o, "100")
  }

  /** From the empty database, four agreeing advances bring an intent to everyone, and an agreeing rollback under the last warrant
      brings it back to nobody. */
  lemma UpAndBack(documents: Documents, g: IntentGroup, evidence: seq<Hash>, warrants: seq<Hash>, undo: Hash)
    requires IsClimb(documents, g, evidence, warrants) && |evidence| == 4
    requires Undoes(documents, g, undo, warrants[3])
    ensures var up := Presentations(evidence, warrants);
      && ObservedPercent(Run(documents, true, up), g) == "100"
      && ObservedPercent(Run(documents, true, up + [Present(undo, warrants[3])]), g) == "0"
  {
    hide Agree, CarriesOn, StandsAt, History, Run, ObservedPercent;
    var up := Presentations(evidence, warrants);
    assert up[..4] == up;
    ClimbIsApplied(documents, g, evidence, warrants, 4);
    ReadyWhilePresenting(true, up);
    var h := History(documents, true, up);
    UndoCarriesOn(documents, g, evidence, warrants, h, undo);
    AppliedExactlyWhenTheyAgree(documents, true, up, undo, warrants[3]);
    var after := History(documents, true, up + [Present(undo, warrants[3])]);
    AgreeDrops(documents, undo, warrants[3]);
    TopStandsAt(h, g, "100");
    TopStandsAt(after, g, "0");
    StandsAtIsObserved(documents, true, up, g, "100");
    StandsAtIsObserved(documents, true, up + [Present(undo, warrants[3])], g, "0");
  }

  lemma AgreeDrops(documents: Documents, evidenceHash: Hash, warrantHash: Hash)
    requires Agree(documents, evidenceHash, warrantHash) && documents.evidence(evidenceHash).operation.RollbackToZero?
    ensures documents.evidence(evidenceHash).toPercent == "0"
  {
  }

  lemma TopStandsAt(h: seq<Transition>, g: IntentGroup, percent: string)
    requires |h| > 0 && h[|h| - 1].intentGroup == g && h[|h| - 1].toPercent == percent
    ensures StandsAt(h, g, percent)
  {
  }

  lemma UndoCarriesOn(documents: Documents, g: IntentGroup, evidence: seq<Hash>, warrants: seq<Hash>, h: seq<Transition>, undo: Hash)
    requires IsClimb(documents, g, evidence, warrants) && |evidence| == 4 == |h| && Climbed(documents, g, evidence, warrants, h)
    requires Undoes(documents, g, undo, warrants[3])
    ensures CarriesOn(documents, h, undo, warrants[3])
  {
    forall o ensures StandsAt(h, o, OnlyOf(g, o, "100")) {
      assert ClimbsOneRung(LADDER[3], h[3].toPercent);
      assert forall t | t in h :: t.intentGroup == g;
    }
    assert Agree(documents, evidence[3], warrants[3]);
  }
}
