/** Signed rollout documents, the transition they authorise, and one database transaction on the state they govern. */
module RolloutAuthority {
  import opened Collections

  type Hash = string

  datatype IntentGroup =
    GenreScene | MoodActivityTheme | Similarity | ArtistCatalogue | FixedContainer | FactualRelationship | Exhaustive

  const GROUPS: seq<IntentGroup> :=
    [GenreScene, MoodActivityTheme, Similarity, ArtistCatalogue, FixedContainer, FactualRelationship, Exhaustive]

  datatype Operation = Advance | RollbackToZero

  const PERCENTAGES: seq<string> := ["0", "1", "10", "50", "100"]

  /** details stands for the fields that are only carried along: times, promotion evidence, target configuration. */
  datatype Evidence = Evidence(
    previous: Option<Hash>, operation: Operation, intentGroup: IntentGroup, fromPercent: string, toPercent: string,
    currentPercentages: map<IntentGroup, string>, targetConfigurationHash: Hash, intentCanaryHash: Hash,
    rollbackWarrantHash: Hash, details: string)

  datatype WarrantAdvance = WarrantAdvance(
    evidenceHash: Hash, intentGroup: IntentGroup, fromPercent: string, toPercent: string,
    targetConfigurationHash: Hash, intentCanaryHash: Hash)

  datatype WarrantRollback = WarrantRollback(
    intentGroup: IntentGroup, fromPercent: string, toPercent: string, targetConfigurationHash: Hash)

  datatype Warrant = Warrant(advance: WarrantAdvance, rollback: WarrantRollback)

  /** A hash determines the signed document it covers; nothing else is known about hashing. */
  datatype Documents = Documents(evidence: Hash -> Evidence, warrant: Hash -> Warrant)

  datatype Transition = Transition(
    evidenceHash: Hash, previous: Option<Hash>, operation: Operation, intentGroup: IntentGroup,
    fromPercent: string, toPercent: string, currentPercentages: map<IntentGroup, string>,
    targetConfigurationHash: Hash, intentCanaryHash: Hash, rollbackWarrantHash: Hash, details: string)

  predicate MatchesWarrant(evidenceHash: Hash, e: Evidence, warrantHash: Hash, w: Warrant) {
    match e.operation
    case Advance =>
      && w.advance.evidenceHash == evidenceHash
      && w.advance.intentGroup == e.intentGroup && w.advance.fromPercent == e.fromPercent && w.advance.toPercent == e.toPercent
      && w.advance.targetConfigurationHash == e.targetConfigurationHash
      && w.advance.intentCanaryHash == e.intentCanaryHash
    case RollbackToZero =>
      && e.rollbackWarrantHash == warrantHash
      && Some(w.advance.evidenceHash) == e.previous
      && w.rollback.intentGroup == e.intentGroup && w.rollback.fromPercent == e.fromPercent && w.rollback.toPercent == e.toPercent
      && w.rollback.targetConfigurationHash == e.targetConfigurationHash
      && w.advance.intentCanaryHash == e.intentCanaryHash
  }

  function IndexOf(s: seq<string>, x: string): (r: int)
    ensures -1 <= r < |s|
    ensures r >= 0 ==> s[r] == x
    ensures r == -1 <==> x !in s
    ensures forall k | 0 <= k < r :: s[k] != x
  {
    if |s| == 0 then -1
    else if s[0] == x then 0
    else var rest := IndexOf(s[1..], x); if rest == -1 then -1 else rest + 1
  }

  /** One rung up, or from above zero straight to zero. */
  predicate AdjacentOrZero(operation: Operation, fromPercent: string, toPercent: string) {
    var fromIndex := IndexOf(PERCENTAGES, fromPercent);
    if operation.Advance? then fromIndex + 1 < |PERCENTAGES| && PERCENTAGES[fromIndex + 1] == toPercent
    else fromPercent != "0" && toPercent == "0"
  }

  function MakeTransition(documents: Documents, evidenceHash: Hash, warrantHash: Hash): Result<Transition> {
    var e, w := documents.evidence(evidenceHash), documents.warrant(warrantHash);
    if !MatchesWarrant(evidenceHash, e, warrantHash, w) then Err("transition does not match its rollback warrant")
    else if e.fromPercent !in PERCENTAGES || e.toPercent !in PERCENTAGES then Err("transition is invalid")
    else if !AdjacentOrZero(e.operation, e.fromPercent, e.toPercent) then Err("transition is not adjacent or zero-safe")
    else Ok(Transition(
      evidenceHash, e.previous, e.operation, e.intentGroup, e.fromPercent, e.toPercent, e.currentPercentages,
      e.targetConfigurationHash, e.intentCanaryHash, warrantHash, e.details))
  }

  // ---------- the database ----------

  datatype WarrantRecord = WarrantRecord(
    rollbackWarrantHash: Hash, advanceEvidenceHash: Option<Hash>, intentGroup: IntentGroup, intentCanaryHash: Hash)

  datatype State = State(
    ready: bool,
    head: Option<Transition>,
    intents: map<IntentGroup, Transition>,
    killSwitches: map<IntentGroup, bool>,
    authorities: map<Hash, Transition>,
    warrants: map<Hash, WarrantRecord>)

  datatype Outcome = Outcome(applied: bool, disabled: bool)

  function Empty(ready: bool): State {
    State(ready, None, map[], map[], map[], map[])
  }

  function ObservedPercent(s: State, g: IntentGroup): string {
    if g in s.intents then s.intents[g].toPercent else "0"
  }

  /** The advance that a transition's warrant belongs to. */
  function AdvanceOf(t: Transition): Option<Hash> {
    if t.operation.Advance? then Some(t.evidenceHash) else t.previous
  }

  function RecordOf(t: Transition): WarrantRecord {
    WarrantRecord(t.rollbackWarrantHash, AdvanceOf(t), t.intentGroup, t.intentCanaryHash)
  }

  predicate IsHead(s: State, t: Transition) {
    s.head.Some? && s.head.value.evidenceHash == t.evidenceHash
  }

  /** The head may be presented again when everything it wrote still agrees with it. */
  predicate Repeats(s: State, t: Transition) {
    && IsHead(s, t)
    && t.intentGroup in s.intents
    && s.intents[t.intentGroup].evidenceHash == t.evidenceHash && s.intents[t.intentGroup].toPercent == t.toPercent
    && s.head.value.targetConfigurationHash == t.targetConfigurationHash
    && s.head.value.rollbackWarrantHash == t.rollbackWarrantHash
    && s.head.value.intentCanaryHash == t.intentCanaryHash
    && t.intentGroup in s.killSwitches && s.killSwitches[t.intentGroup] == t.operation.RollbackToZero?
  }

  /** A rollback carries the warrant of the advance it undoes, as the head and the intent group recorded it. */
  predicate WarrantHolds(s: State, t: Transition) {
    t.operation.RollbackToZero? ==>
      && s.head.Some? && t.intentGroup in s.intents
      && s.head.value.rollbackWarrantHash == t.rollbackWarrantHash
      && s.intents[t.intentGroup].rollbackWarrantHash == t.rollbackWarrantHash
      && s.head.value.intentCanaryHash == t.intentCanaryHash
      && s.intents[t.intentGroup].intentCanaryHash == t.intentCanaryHash
  }

  predicate Succeeds(s: State, t: Transition) {
    && !IsHead(s, t)
    && (forall g :: g in t.currentPercentages && ObservedPercent(s, g) == t.currentPercentages[g])
    && t.previous == (if s.head.Some? then Some(s.head.value.evidenceHash) else None)
    && WarrantHolds(s, t)
    && ObservedPercent(s, t.intentGroup) == t.fromPercent
  }

  /** Insert a record under its key, or keep the one that is there. */
  function Kept<V>(records: map<Hash, V>, key: Hash, value: V): map<Hash, V> {
    if key in records then records else records[key := value]
  }

  function Written(s: State, t: Transition): State {
    s.(head := Some(t),
       intents := s.intents[t.intentGroup := t],
       killSwitches := s.killSwitches[t.intentGroup := t.operation.RollbackToZero?],
       authorities := Kept(s.authorities, t.evidenceHash, t),
       warrants := Kept(s.warrants, t.rollbackWarrantHash, RecordOf(t)))
  }

  class RolloutDatabase {
    var ready: bool
    var head: Option<Transition>
    var intents: map<IntentGroup, Transition>
    var killSwitches: map<IntentGroup, bool>
    var authorities: map<Hash, Transition>
    var warrants: map<Hash, WarrantRecord>

    constructor (ready: bool)
      ensures Now() == Empty(ready)
    {
      this.ready, head, intents, killSwitches, authorities, warrants := ready, None, map[], map[], map[], map[];
    }

    function Now(): State
      reads this
    {
      State(ready, head, intents, killSwitches, authorities, warrants)
    }

    /** The prior state of every intent group must be what the evidence was signed against. */
    method MatchesCurrentPercentages(t: Transition) returns (matches: bool)
      ensures matches == forall g :: g in t.currentPercentages && ObservedPercent(Now(), g) == t.currentPercentages[g]
    {
      for i := 0 to |GROUPS|
        invariant forall j | 0 <= j < i ::
          GROUPS[j] in t.currentPercentages && ObservedPercent(Now(), GROUPS[j]) == t.currentPercentages[GROUPS[j]]
      {
        var observed := if GROUPS[i] in intents then intents[GROUPS[i]].toPercent else "0";
        if GROUPS[i] !in t.currentPercentages || observed != t.currentPercentages[GROUPS[i]] {
          return false;
        }
      }
      forall g ensures g in t.currentPercentages && ObservedPercent(Now(), g) == t.currentPercentages[g] {
        AllGroups(g);
      }
      return true;
    }

    method CheckRepetition(t: Transition) returns (error: Option<string>)
      requires IsHead(Now(), t)
      ensures error.None? <==> Repeats(Now(), t)
    {
      var priorIntent := if t.intentGroup in intents then Some(intents[t.intentGroup]) else None;
      if priorIntent.None? || priorIntent.value.evidenceHash != t.evidenceHash || priorIntent.value.toPercent != t.toPercent
        || head.value.targetConfigurationHash != t.targetConfigurationHash
        || head.value.rollbackWarrantHash != t.rollbackWarrantHash
        || head.value.intentCanaryHash != t.intentCanaryHash
      {
        return Some("idempotency state disagrees with its intent lineage");
      }
      if t.intentGroup !in killSwitches || killSwitches[t.intentGroup] != t.operation.RollbackToZero? {
        return Some("idempotency state disagrees with its intent kill switch");
      }
      return None;
    }

    method CheckWarrant(t: Transition, priorIntent: Option<Transition>) returns (matches: bool)
      requires priorIntent == if t.intentGroup in intents then Some(intents[t.intentGroup]) else None
      ensures matches == WarrantHolds(Now(), t)
    {
      var mismatch := t.operation.RollbackToZero?
        && (head.None? || priorIntent.None?
            || head.value.rollbackWarrantHash != t.rollbackWarrantHash
            || priorIntent.value.rollbackWarrantHash != t.rollbackWarrantHash
            || head.value.intentCanaryHash != t.intentCanaryHash
            || priorIntent.value.intentCanaryHash != t.intentCanaryHash);
      return !mismatch;
    }

    method CheckLineage(t: Transition) returns (error: Option<string>)
      requires !IsHead(Now(), t)
      ensures error.None? <==> Succeeds(Now(), t)
    {
      hide WarrantHolds;
      var matches := MatchesCurrentPercentages(t);
      if !matches {
        return Some("lineage does not match signed current percentages");
      }
      var otherHead := if t.previous.None? then head.Some? else head.None? || head.value.evidenceHash != t.previous.value;
      if otherHead {
        return Some("global state does not match signed lineage");
      }
      var priorIntent := if t.intentGroup in intents then Some(intents[t.intentGroup]) else None;
      var warrantMatches := CheckWarrant(t, priorIntent);
      if !warrantMatches {
        return Some("active authority does not match the signed rollback warrant");
      }
      if (if priorIntent.Some? then priorIntent.value.toPercent else "0") != t.fromPercent {
        return Some("intent state does not match signed percentage");
      }
      return None;
    }

    method Write(t: Transition)
      modifies this
      ensures Now() == Written(old(Now()), t)
    {
      killSwitches := killSwitches[t.intentGroup := t.operation.RollbackToZero?];
      intents := intents[t.intentGroup := t];
      head := Some(t);
      if t.evidenceHash !in authorities { authorities := authorities[t.evidenceHash := t]; }
      if t.rollbackWarrantHash !in warrants { warrants := warrants[t.rollbackWarrantHash := RecordOf(t)]; }
    }

    /** One serializable transaction: it writes everything or, on any failed check, nothing. */
    method Apply(t: Transition) returns (r: Result<Outcome>)
      modifies this
      ensures r.Err? ==> Now() == old(Now())
      ensures r.Ok? ==> Now() == Written(old(Now()), t)
      ensures r.Ok? <==> old(ready) && (Repeats(old(Now()), t) || Succeeds(old(Now()), t))
      ensures r.Ok? ==> r.value == Outcome(Succeeds(old(Now()), t), t.operation.RollbackToZero?)
    {
      hide Written, Succeeds, Repeats;
      ExclusiveCases(Now(), t);
      if !ready { return Err("database is not ready"); }
      var alreadyApplied := head.Some? && head.value.evidenceHash == t.evidenceHash;
      var error;
      if alreadyApplied {
        error := CheckRepetition(t);
      } else {
        error := CheckLineage(t);
      }
      if error.Some? { return Err(error.value); }
      Write(t);
      return Ok(Outcome(!alreadyApplied, t.operation.RollbackToZero?));
    }
  }

  lemma ExclusiveCases(s: State, t: Transition)
    ensures Repeats(s, t) ==> IsHead(s, t)
    ensures Succeeds(s, t) ==> !IsHead(s, t)
  {
  }

  lemma AllGroups(g: IntentGroup)
    ensures g in GROUPS
  {
    match g
    case GenreScene => assert GROUPS[0] == g;
    case MoodActivityTheme => assert GROUPS[1] == g;
    case Similarity => assert GROUPS[2] == g;
    case ArtistCatalogue => assert GROUPS[3] == g;
    case FixedContainer => assert GROUPS[4] == g;
    case FactualRelationship => assert GROUPS[5] == g;
    case Exhaustive => assert GROUPS[6] == g;
  }
}
