/** What holds of the relation-type tables along every history of resolve, accept and reject steps. */
module RelationTypeRuns {
  import opened Common
  import opened RelationTypes

  ghost predicate HasName(types: seq<TypeRow>, name: string) {
    exists i :: 0 <= i < |types| && types[i].name == name
  }

  ghost predicate IsAccepted(types: seq<TypeRow>, name: string) {
    exists i :: 0 <= i < |types| && types[i].name == name && types[i].isAccepted
  }

  ghost predicate NamesUnique(types: seq<TypeRow>) {
    forall i, j :: 0 <= i < j < |types| ==> types[i].name != types[j].name
  }

  /** Ids come from a sequence that starts at 1. */
  ghost predicate IdsValid(db: Db) {
    && db.nextTypeId >= 1
    && (forall i :: 0 <= i < |db.types| ==> 0 < db.types[i].id < db.nextTypeId)
    && (forall i, j :: 0 <= i < j < |db.types| ==> db.types[i].id != db.types[j].id)
  }

  /** A pending suggestion is for a type that exists and is unaccepted, or is the fallback. */
  ghost predicate PendingAllowed(types: seq<TypeRow>, s: Suggestion) {
    s.status == PENDING ==>
      exists i :: 0 <= i < |types| && types[i].id == s.typeId && (!types[i].isAccepted || types[i].name == FALLBACK)
  }

  ghost predicate PendingInvariant(db: Db) {
    forall k :: 0 <= k < |db.suggestions| ==> PendingAllowed(db.types, db.suggestions[k])
  }

  /** Every relationship names a type that is accepted now. */
  ghost predicate AcceptedOnly(db: Db) {
    forall k :: 0 <= k < |db.relationships| ==> IsAccepted(db.types, db.relationships[k].relType)
  }

  ghost predicate Invariant(db: Db) {
    NamesUnique(db.types) && IdsValid(db) && PendingInvariant(db) && AcceptedOnly(db)
  }

  // ---- What one resolve does ----

  lemma NameFound(types: seq<TypeRow>, name: string)
    requires NamesUnique(types)
    ensures var found := FindName(types, |types|, name);
            && (found.Some? <==> HasName(types, name))
            && (found.Some? && types[found.value].isAccepted <==> IsAccepted(types, name))
  {
  }

  /** The only way the unique name is violated: the name as given is stored, its upper case is not. */
  ghost predicate Collides(up: UpperCase, types: seq<TypeRow>, name: string) {
    !HasName(types, up(name)) && HasName(types, name)
  }

  /** Everything a resolve can do: when it fails and with what, and the tables it reaches when it does not. */
  lemma ResolveOutcome(up: UpperCase, db: Db, r: Request)
    requires NamesUnique(db.types)
    ensures var (reached, row) := Resolve(up, db, r);
            && (row == Err(DuplicateName) <==> Collides(up, db.types, r.name))
            && (row == Err(NotFound) <==>
                  && row != Err(DuplicateName)
                  && !IsAccepted(db.types, up(r.name)) && !IsAccepted(db.types, FALLBACK))
            && (row.Ok? <==> row != Err(DuplicateName) && row != Err(NotFound))
            && (row.Ok? ==>
                  row.value == Relationship(
                    r.fromId, r.toId, if IsAccepted(db.types, up(r.name)) then up(r.name) else FALLBACK, r.userId))
  {
    NameFound(db.types, up(r.name));
    NameFound(db.types, r.name);
    NameFound(db.types, FALLBACK);
    var row := TypeRow(db.nextTypeId, r.name, r.description, false, false);
    FindNameSnoc(db.types, row, FALLBACK);
  }

  lemma {:induction false} FindNamePrefix(types: seq<TypeRow>, row: TypeRow, n: nat, name: string)
    requires n <= |types|
    ensures FindName(types + [row], n, name) == FindName(types, n, name)
  {
    if n > 0 {
      FindNamePrefix(types, row, n - 1, name);
    }
  }

  lemma FindNameSnoc(types: seq<TypeRow>, row: TypeRow, name: string)
    ensures FindName(types + [row], |types| + 1, name)
         == if row.name == name then Some(|types|) else FindName(types, |types|, name)
  {
    FindNamePrefix(types, row, |types|, name);
  }

  /** The tables a successful resolve reaches: at most one new unaccepted type, one suggestion, one relationship. */
  lemma ResolveReaches(up: UpperCase, db: Db, r: Request)
    requires NamesUnique(db.types) && Resolve(up, db, r).1.Ok?
    ensures var reached := Resolve(up, db, r).0;
            && (if HasName(db.types, up(r.name)) then reached.types == db.types
                else !HasName(db.types, r.name)
                     && reached.types == db.types + [TypeRow(db.nextTypeId, r.name, r.description, false, false)])
            && reached.relationships == db.relationships + [Resolve(up, db, r).1.value]
            && (|reached.suggestions| == |db.suggestions| || |reached.suggestions| == |db.suggestions| + 1)
            && reached.suggestions[..|db.suggestions|] == db.suggestions
            && db.nextTypeId <= reached.nextTypeId <= db.nextTypeId + 1
            && (reached.nextTypeId == db.nextTypeId ==> reached.types == db.types)
  {
    NameFound(db.types, up(r.name));
    NameFound(db.types, r.name);
  }

  /**
   * A suggestion is recorded exactly when there is a message and the type used is not the one asked for. It is
   * filed under the type asked for if that existed before the call, and otherwise under the fallback:
   * the first suggestion of a new name never points to the type created for it.
   */
  lemma SuggestionTarget(up: UpperCase, db: Db, r: Request)
    requires NamesUnique(db.types) && IdsValid(db) && Resolve(up, db, r).1.Ok?
    ensures var reached := Resolve(up, db, r).0;
            && (|reached.suggestions| == |db.suggestions| + 1 <==>
                  r.messageId.Some? && up(r.name) != FALLBACK && !IsAccepted(db.types, up(r.name)))
            && (|reached.suggestions| == |db.suggestions| + 1 ==>
                  var s := reached.suggestions[|db.suggestions|];
                  var target := if HasName(db.types, up(r.name)) then up(r.name) else FALLBACK;
                  && s.status == PENDING && s.messageId == r.messageId.value && s.reasoning == r.reasoning
                  && s.userId == r.userId
                  && exists i :: 0 <= i < |db.types| && db.types[i].id == s.typeId && db.types[i].name == target
                                 && (target != FALLBACK ==> !db.types[i].isAccepted))
  {
    ResolveOutcome(up, db, r);
    NameFound(db.types, up(r.name));
    NameFound(db.types, FALLBACK);
    var row := TypeRow(db.nextTypeId, r.name, r.description, false, false);
    FindNameSnoc(db.types, row, FALLBACK);
  }

  // ---- Steps only add, accept and decide ----

  ghost predicate TypesGrow(a: seq<TypeRow>, b: seq<TypeRow>) {
    && |a| <= |b|
    && forall i :: 0 <= i < |a| ==>
         && b[i] == a[i].(isAccepted := b[i].isAccepted)
         && (a[i].isAccepted ==> b[i].isAccepted)
  }

  /** Suggestions are never lost, keep everything but their status, and are decided at most once. */
  ghost predicate SuggestionsGrow(a: seq<Suggestion>, b: seq<Suggestion>) {
    && |a| <= |b|
    && forall k :: 0 <= k < |a| ==>
         && b[k] == a[k].(status := b[k].status)
         && (a[k].status != PENDING ==> b[k].status == a[k].status)
  }

  ghost predicate RelationshipsGrow(a: seq<Relationship>, b: seq<Relationship>) {
    |a| <= |b| && forall k :: 0 <= k < |a| ==> b[k] == a[k]
  }

  ghost predicate Grows(a: Db, b: Db) {
    && TypesGrow(a.types, b.types)
    && SuggestionsGrow(a.suggestions, b.suggestions)
    && RelationshipsGrow(a.relationships, b.relationships)
  }

  lemma AcceptedStays(a: seq<TypeRow>, b: seq<TypeRow>, name: string)
    requires TypesGrow(a, b) && IsAccepted(a, name)
    ensures IsAccepted(b, name)
  {
    var i :| 0 <= i < |a| && a[i].name == name && a[i].isAccepted;
    assert b[i].name == name && b[i].isAccepted;
  }

  // ---- Resolve keeps the invariant ----

  lemma ResolveGrows(up: UpperCase, db: Db, r: Request)
    requires NamesUnique(db.types) && Resolve(up, db, r).1.Ok?
    ensures Grows(db, Resolve(up, db, r).0)
  {
    ResolveReaches(up, db, r);
    var reached := Resolve(up, db, r).0;
    assert forall k :: 0 <= k < |db.suggestions| ==>
      reached.suggestions[..|db.suggestions|][k] == reached.suggestions[k];
  }

  lemma ResolveKeepsKeys(up: UpperCase, db: Db, r: Request)
    requires NamesUnique(db.types) && IdsValid(db) && Resolve(up, db, r).1.Ok?
    ensures NamesUnique(Resolve(up, db, r).0.types) && IdsValid(Resolve(up, db, r).0)
  {
    ResolveReaches(up, db, r);
  }

  /** Adding a type takes no permission to be pending away. */
  lemma PendingKept(types: seq<TypeRow>, more: seq<TypeRow>, s: Suggestion)
    requires PendingAllowed(types, s)
    ensures PendingAllowed(types + more, s)
  {
    if s.status == PENDING {
      var i :| 0 <= i < |types| && types[i].id == s.typeId && (!types[i].isAccepted || types[i].name == FALLBACK);
      assert (types + more)[i] == types[i];
    }
  }

  lemma ResolveKeepsPending(up: UpperCase, db: Db, r: Request)
    requires NamesUnique(db.types) && IdsValid(db) && PendingInvariant(db) && Resolve(up, db, r).1.Ok?
    ensures PendingInvariant(Resolve(up, db, r).0)
  {
    var reached := Resolve(up, db, r).0;
    ResolveReaches(up, db, r);
    SuggestionTarget(up, db, r);
    forall k | 0 <= k < |reached.suggestions| ensures PendingAllowed(reached.types, reached.suggestions[k]) {
      var s := reached.suggestions[k];
      assert k < |db.suggestions| ==> s == reached.suggestions[..|db.suggestions|][k];
      assert PendingAllowed(db.types, s);
      PendingKept(db.types, [TypeRow(db.nextTypeId, r.name, r.description, false, false)], s);
    }
  }

  lemma ResolveKeepsAccepted(up: UpperCase, db: Db, r: Request)
    requires NamesUnique(db.types) && AcceptedOnly(db) && Resolve(up, db, r).1.Ok?
    ensures AcceptedOnly(Resolve(up, db, r).0)
  {
    var (reached, row) := Resolve(up, db, r);
    ResolveReaches(up, db, r);
    ResolveGrows(up, db, r);
    ResolveOutcome(up, db, r);
    forall k | 0 <= k < |reached.relationships| ensures IsAccepted(reached.types, reached.relationships[k].relType) {
      assert IsAccepted(db.types, reached.relationships[k].relType);
      AcceptedStays(db.types, reached.types, reached.relationships[k].relType);
    }
  }

  // ---- Accept and reject ----

  /** The pending suggestions of the type get the status; every other suggestion is left alone. */
  ghost predicate DecidedAs(a: seq<Suggestion>, b: seq<Suggestion>, typeId: int, status: Status) {
    && |a| == |b|
    && forall k :: 0 <= k < |a| ==>
         && b[k].(status := PENDING) == a[k].(status := PENDING)
         && b[k].status == if a[k].typeId == typeId && a[k].status == PENDING then status else a[k].status
  }

  /**
   * Both fail exactly for an unknown id. Accepting makes that one type accepted and accepts its pending suggestions;
   * rejecting rejects them and, despite its name, leaves the type as it was.
   */
  lemma DecisionOutcome(db: Db, typeId: int)
    requires IdsValid(db)
    ensures Accept(db, typeId).1 == Err(NotFound) <==> forall i :: 0 <= i < |db.types| ==> db.types[i].id != typeId
    ensures Reject(db, typeId).1 == Err(NotFound) <==> forall i :: 0 <= i < |db.types| ==> db.types[i].id != typeId
    ensures forall i :: 0 <= i < |db.types| && db.types[i].id == typeId ==>
              && var (accepted, rejected) := (Accept(db, typeId).0, Reject(db, typeId).0);
              && accepted.types == db.types[i := db.types[i].(isAccepted := true)]
              && rejected.types == db.types
              && DecidedAs(db.suggestions, accepted.suggestions, typeId, ACCEPTED)
              && DecidedAs(db.suggestions, rejected.suggestions, typeId, REJECTED)
              && accepted.relationships == rejected.relationships == db.relationships
  {
  }

  lemma AcceptKeeps(db: Db, typeId: int)
    requires Invariant(db) && Accept(db, typeId).1.Ok?
    ensures Grows(db, Accept(db, typeId).0) && Invariant(Accept(db, typeId).0)
  {
    var reached := Accept(db, typeId).0;
    var at := FindId(db.types, |db.types|, typeId).value;
    forall k | 0 <= k < |reached.suggestions| ensures PendingAllowed(reached.types, reached.suggestions[k]) {
      assert PendingAllowed(db.types, db.suggestions[k]);
      if reached.suggestions[k].status == PENDING {
        var i :| 0 <= i < |db.types| && db.types[i].id == db.suggestions[k].typeId
                 && (!db.types[i].isAccepted || db.types[i].name == FALLBACK);
        assert i != at && reached.types[i] == db.types[i];
      }
    }
    forall k | 0 <= k < |db.relationships| ensures IsAccepted(reached.types, db.relationships[k].relType) {
      AcceptedStays(db.types, reached.types, db.relationships[k].relType);
    }
  }

  lemma RejectKeeps(db: Db, typeId: int)
    requires Invariant(db) && Reject(db, typeId).1.Ok?
    ensures Grows(db, Reject(db, typeId).0) && Invariant(Reject(db, typeId).0)
    ensures Reject(db, typeId).0.types == db.types
  {
    var reached := Reject(db, typeId).0;
    forall k | 0 <= k < |reached.suggestions| ensures PendingAllowed(reached.types, reached.suggestions[k]) {
      assert PendingAllowed(db.types, db.suggestions[k]);
    }
  }

  // ---- Every step, every history ----

  lemma SequenceNeverGoesBack(up: UpperCase, db: Db, step: Step)
    ensures Run(up, db, step).0.nextTypeId >= db.nextTypeId
  {
  }

  lemma FailedStepLeavesTables(up: UpperCase, db: Db, step: Step)
    requires Run(up, db, step).1.Some?
    ensures Run(up, db, step).0 == db.(nextTypeId := Run(up, db, step).0.nextTypeId)
  {
  }

  lemma StepKeeps(up: UpperCase, db: Db, step: Step)
    requires Invariant(db)
    ensures Grows(db, Run(up, db, step).0) && Invariant(Run(up, db, step).0)
  {
    if Run(up, db, step).1.Some? {
      FailedStepLeavesTables(up, db, step);
      SequenceNeverGoesBack(up, db, step);
    } else {
      match step
      case ResolveStep(r, _) =>
        ResolveGrows(up, db, r);
        ResolveKeepsKeys(up, db, r);
        ResolveKeepsPending(up, db, r);
        ResolveKeepsAccepted(up, db, r);
      case AcceptStep(typeId, _) => AcceptKeeps(db, typeId);
      case RejectStep(typeId, _) => RejectKeeps(db, typeId);
    }
  }

  lemma GrowsTransitive(a: Db, b: Db, c: Db)
    requires Grows(a, b) && Grows(b, c)
    ensures Grows(a, c)
  {
  }

  lemma NextKeeps(up: UpperCase, db: Db, before: Db, step: Step)
    requires Grows(db, before) && Invariant(before)
    ensures Grows(db, Run(up, before, step).0) && Invariant(Run(up, before, step).0)
  {
    StepKeeps(up, before, step);
    GrowsTransitive(db, before, Run(up, before, step).0);
  }

  /**
   * In every state reached from one that satisfies the invariant it holds again: relationships name accepted types,
   * pending suggestions are for undecided ones. And nothing has been lost, un-accepted or decided twice.
   */
  lemma {:induction false} InvariantAlways(up: UpperCase, db: Db, steps: seq<Step>, n: nat)
    requires Invariant(db) && n <= |steps|
    ensures Invariant(After(up, db, steps, n)) && Grows(db, After(up, db, steps, n))
  {
    if n > 0 {
      InvariantAlways(up, db, steps, n - 1);
      NextKeeps(up, db, After(up, db, steps, n - 1), steps[n - 1]);
    }
  }

  /** A relationship stays in the history and names a type that is accepted at every later moment. */
  lemma RelationshipsNameAcceptedTypes(up: UpperCase, db: Db, steps: seq<Step>, n: nat, k: nat)
    requires Invariant(db) && n <= |steps| && k < |db.relationships|
    ensures k < |After(up, db, steps, n).relationships|
    ensures After(up, db, steps, n).relationships[k] == db.relationships[k]
    ensures IsAccepted(After(up, db, steps, n).types, db.relationships[k].relType)
  {
    InvariantAlways(up, db, steps, n);
  }

  lemma AcceptedTypeNotPending(a: Db, b: Db, i: nat, k: nat)
    requires Grows(a, b) && IdsValid(b) && PendingInvariant(b)
    requires i < |a.types| && a.types[i].isAccepted && a.types[i].name != FALLBACK
    requires k < |b.suggestions| && b.suggestions[k].typeId == a.types[i].id
    ensures b.suggestions[k].status != PENDING
  {
    assert b.types[i].isAccepted && b.types[i].name != FALLBACK;
    assert PendingAllowed(b.types, b.suggestions[k]);
  }

  /** Once a type other than the fallback is accepted, no pending suggestion for it is ever seen again. */
  lemma {:induction false} AcceptedTypeNeverPendingAgain(
    up: UpperCase, db: Db, steps: seq<Step>, n: nat, i: nat, k: nat)
    requires Invariant(db) && n <= |steps|
    requires i < |db.types| && db.types[i].isAccepted && db.types[i].name != FALLBACK
    requires k < |After(up, db, steps, n).suggestions|
    requires After(up, db, steps, n).suggestions[k].typeId == db.types[i].id
    ensures After(up, db, steps, n).suggestions[k].status != PENDING
  {
    InvariantAlways(up, db, steps, n);
    AcceptedTypeNotPending(db, After(up, db, steps, n), i, k);
  }

  // ---- Who decides a suggestion ----

  /** What a step does to pending suggestions of the type: the status it gives them if it commits. */
  function Verdict(step: Step, typeId: int): Status {
    match step
    case ResolveStep(_, _) => PENDING
    case AcceptStep(t, commits) => if t == typeId && commits then ACCEPTED else PENDING
    case RejectStep(t, commits) => if t == typeId && commits then REJECTED else PENDING
  }

  /** The first verdict on the type among the first `n` steps. */
  function FirstVerdict(steps: seq<Step>, n: nat, typeId: int): Status
    requires n <= |steps|
  {
    if n == 0 then PENDING
    else
      var earlier := FirstVerdict(steps, n - 1, typeId);
      if earlier != PENDING then earlier else Verdict(steps[n - 1], typeId)
  }

  lemma StepDecides(up: UpperCase, db: Db, step: Step, k: nat)
    requires Invariant(db) && k < |db.suggestions|
    ensures k < |Run(up, db, step).0.suggestions|
    ensures Run(up, db, step).0.suggestions[k]
         == if db.suggestions[k].status != PENDING then db.suggestions[k]
            else db.suggestions[k].(status := Verdict(step, db.suggestions[k].typeId))
  {
    StepKeeps(up, db, step);
    assert PendingAllowed(db.types, db.suggestions[k]);
    if step.ResolveStep? && Run(up, db, step).1.None? {
      ResolveReaches(up, db, step.request);
      var reached := Run(up, db, step).0;
      assert reached.suggestions[k] == reached.suggestions[..|db.suggestions|][k];
    }
  }

  /** A pending suggestion with the first verdict of the first `n` steps on its type. */
  function Settled(s: Suggestion, steps: seq<Step>, n: nat): Suggestion
    requires n <= |steps|
  {
    s.(status := FirstVerdict(steps, n, s.typeId))
  }

  /** Suggestion `k`, pending in `db`, is settled in `later` by the first `n` steps. */
  ghost predicate SettledIn(db: Db, later: Db, steps: seq<Step>, n: nat, k: nat)
    requires n <= |steps|
  {
    k < |db.suggestions| && k < |later.suggestions| && later.suggestions[k] == Settled(db.suggestions[k], steps, n)
  }

  /** What step `n` of a history does to suggestion `k`. */
  lemma HistoryDecides(up: UpperCase, db: Db, steps: seq<Step>, n: nat, k: nat)
    requires Invariant(db) && 0 < n <= |steps| && k < |After(up, db, steps, n - 1).suggestions|
    ensures k < |After(up, db, steps, n).suggestions|
    ensures var s := After(up, db, steps, n - 1).suggestions[k];
            After(up, db, steps, n).suggestions[k] ==
              if s.status != PENDING then s else s.(status := Verdict(steps[n - 1], s.typeId))
  {
    InvariantAlways(up, db, steps, n - 1);
    StepDecides(up, After(up, db, steps, n - 1), steps[n - 1], k);
  }

  /** The status of a pending suggestion becomes the first committed decision on its own type, and stays that. */
  lemma {:induction false} FirstDecisionWins(up: UpperCase, db: Db, steps: seq<Step>, n: nat, k: nat)
    requires Invariant(db) && n <= |steps| && k < |db.suggestions| && db.suggestions[k].status == PENDING
    ensures SettledIn(db, After(up, db, steps, n), steps, n, k)
  {
    if n > 0 {
      FirstDecisionWins(up, db, steps, n - 1, k);
      HistoryDecides(up, db, steps, n, k);
    }
  }

  /** A type that is accepted is used directly by every later resolve of its name, without a suggestion. */
  lemma AcceptedTypeIsUsedDirectly(up: UpperCase, db: Db, steps: seq<Step>, n: nat)
    requires Invariant(db) && n < |steps| && steps[n].ResolveStep?
    requires IsAccepted(db.types, up(steps[n].request.name))
    requires steps[n].commits && steps[n].request.fromId != steps[n].request.toId
    ensures var r := steps[n].request;
            && ErrorAt(up, db, steps, n).None?
            && After(up, db, steps, n + 1) == After(up, db, steps, n).(
                 relationships := After(up, db, steps, n).relationships
                                  + [Relationship(r.fromId, r.toId, up(r.name), r.userId)])
  {
    var before := After(up, db, steps, n);
    InvariantAlways(up, db, steps, n);
    AcceptedStays(db.types, before.types, up(steps[n].request.name));
    NameFound(before.types, up(steps[n].request.name));
  }
}
