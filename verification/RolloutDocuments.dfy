/** When evidence and warrant make a transition, field by field. */
module RolloutDocuments {
  import opened Collections
  import opened RolloutAuthority

  /** An advance climbs one rung of 0, 1, 10, 50, 100. */
  predicate ClimbsOneRung(fromPercent: string, toPercent: string) {
    || (fromPercent == "0" && toPercent == "1")
    || (fromPercent == "1" && toPercent == "10")
    || (fromPercent == "10" && toPercent == "50")
    || (fromPercent == "50" && toPercent == "100")
  }

  predicate DropsToZero(fromPercent: string, toPercent: string) {
    (fromPercent == "1" || fromPercent == "10" || fromPercent == "50" || fromPercent == "100") && toPercent == "0"
  }

  /** Evidence and warrant agree: an advance is the one its warrant was issued for; a rollback names the warrant of the evidence
      before it and repeats what that warrant allows. */
  predicate Agree(documents: Documents, evidenceHash: Hash, warrantHash: Hash) {
    var e, w := documents.evidence(evidenceHash), documents.warrant(warrantHash);
    match e.operation
    case Advance =>
      && ClimbsOneRung(e.fromPercent, e.toPercent)
      && w.advance.evidenceHash == evidenceHash
      && e.intentGroup == w.advance.intentGroup
      && e.fromPercent == w.advance.fromPercent
      && e.toPercent == w.advance.toPercent
      && e.targetConfigurationHash == w.advance.targetConfigurationHash
      && e.intentCanaryHash == w.advance.intentCanaryHash
    case RollbackToZero =>
      && DropsToZero(e.fromPercent, e.toPercent)
      && e.rollbackWarrantHash == warrantHash
      && e.previous == Some(w.advance.evidenceHash)
      && e.intentGroup == w.rollback.intentGroup
      && e.fromPercent == w.rollback.fromPercent
      && e.toPercent == w.rollback.toPercent
      && e.targetConfigurationHash == w.rollback.targetConfigurationHash
      && e.intentCanaryHash == w.advance.intentCanaryHash
  }

  /** t carries the fields of its evidence and the hash of its warrant. */
  ghost predicate Carries(documents: Documents, t: Transition) {
    var e := documents.evidence(t.evidenceHash);
    && t.previous == e.previous && t.operation == e.operation && t.intentGroup == e.intentGroup
    && t.fromPercent == e.fromPercent && t.toPercent == e.toPercent && t.currentPercentages == e.currentPercentages
    && t.targetConfigurationHash == e.targetConfigurationHash && t.intentCanaryHash == e.intentCanaryHash && t.details == e.details
  }

  /** Documents make a transition exactly when they agree, and it carries their fields. */
  lemma MadeExactlyWhenTheyAgree(documents: Documents, evidenceHash: Hash, warrantHash: Hash)
    ensures MakeTransition(documents, evidenceHash, warrantHash).Ok? <==> Agree(documents, evidenceHash, warrantHash)
    ensures var made := MakeTransition(documents, evidenceHash, warrantHash);
      made.Ok? ==>
        Carries(documents, made.value) && made.value.evidenceHash == evidenceHash && made.value.rollbackWarrantHash == warrantHash
  {
    Rungs(documents.evidence(evidenceHash));
    hide AdjacentOrZero, IndexOf;
  }

  lemma Rungs(e: Evidence)
    ensures e.fromPercent in PERCENTAGES && e.toPercent in PERCENTAGES && AdjacentOrZero(e.operation, e.fromPercent, e.toPercent) <==>
      if e.operation.Advance? then ClimbsOneRung(e.fromPercent, e.toPercent) else DropsToZero(e.fromPercent, e.toPercent)
  {
    if e.operation.Advance? { RungsUp(e.fromPercent, e.toPercent); }
  }

  lemma RungsUp(fromPercent: string, toPercent: string)
    ensures fromPercent in PERCENTAGES && AdjacentOrZero(Advance, fromPercent, toPercent) <==> ClimbsOneRung(fromPercent, toPercent)
  {
    if fromPercent in PERCENTAGES {
      var rung := IndexOf(PERCENTAGES, fromPercent);
      hide IndexOf;
      assert PERCENTAGES[rung] == fromPercent;
    }
  }
}
