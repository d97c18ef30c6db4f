/** What each committed transaction leaves in every table, and what an accept means for all later resolves. */
module RelationTypeCommits {
  import opened Common
  import opened RelationTypes
  import opened RelationTypeRuns
  import opened RelationTypeNames

  /** A type with the id and the name. */
  ghost predicate HasType(types: seq<TypeRow>, id: int, name: string) {
    exists i :: 0 <= i < |types| && types[i].id == id && types[i].name == name
  }

  ghost predicate HasId(types: seq<TypeRow>, id: int) {
    exists i :: 0 <= i < |types| && types[i].id == id
  }

  /** The suggestion a resolve records: pending, for the type asked for if it was there, and else for the fallback. */
  ghost predicate Recorded(up: UpperCase, types: seq<TypeRow>, r: Request, s: Suggestion) {
    && r.messageId == Some(s.messageId) && s.userId == r.userId && s.reasoning == r.reasoning && s.status == PENDING
    && HasType(types, s.typeId, if HasName(types, up(r.name)) then up(r.name) else "RELATES_TO")
  }

  /**
   * A resolve transaction that ends without error has added one relationship, under the accepted type asked for or
   * the fallback; the type asked for if it was unknown, unaccepted; and a suggestion if the fallback stands in for
   * another name and there is a message.
   */
  lemma ResolveCommitted(up: UpperCase, db: Db, r: Request, commits: bool)
    requires NamesUnique(db.types) && IdsValid(db) && Run(up, db, ResolveStep(r, commits)).1.None?
    ensures commits && r.fromId != r.toId
    ensures var after := Run(up, db, ResolveStep(r, commits)).0;
            var accepted := IsAccepted(db.types, up(r.name));
            && after.relationships
                 == db.relationships
                    + [Relationship(r.fromId, r.toId, if accepted then up(r.name) else "RELATES_TO", r.userId)]
            && after.types
                 == db.types + (if HasName(db.types, up(r.name)) then []
                                else [TypeRow(db.nextTypeId, r.name, r.description, false, false)])
            && (if r.messageId.Some? && !accepted && up(r.name) != "RELATES_TO"
                then exists s :: after.suggestions == db.suggestions + [s] && Recorded(up, db.types, r, s)
                else after.suggestions == db.suggestions)
  {
    ResolveErrorIff(up, db, r, commits);
    ResolveOutcome(up, db, r);
    ResolveReaches(up, db, r);
    SuggestionTarget(up, db, r);
    var after := Run(up, db, ResolveStep(r, commits)).0;
    if |after.suggestions| == |db.suggestions| + 1 {
      var s := after.suggestions[|db.suggestions|];
      assert after.suggestions == after.suggestions[..|db.suggestions|] + [s];
      assert Recorded(up, db.types, r, s);
    } else {
      assert after.suggestions == after.suggestions[..|db.suggestions|];
    }
  }

  /** Every resolve of an unknown name draws an id, also one that fails: ids of types are never used again. */
  lemma ResolveDrawsId(up: UpperCase, db: Db, r: Request, commits: bool)
    requires NamesUnique(db.types)
    ensures Run(up, db, ResolveStep(r, commits)).0.nextTypeId
         == if HasName(db.types, up(r.name)) then db.nextTypeId else db.nextTypeId + 1
  {
    NameFound(db.types, up(r.name));
  }

  /** A committed accept accepts exactly that type and its pending suggestions; an unknown id changes nothing. */
  lemma AcceptCommitted(up: UpperCase, db: Db, typeId: int)
    requires IdsValid(db)
    ensures var (after, error) := Run(up, db, AcceptStep(typeId, true));
            && error == (if HasId(db.types, typeId) then None else Some(NotFound))
            && (!HasId(db.types, typeId) ==> after == db)
            && forall i :: 0 <= i < |db.types| && db.types[i].id == typeId ==>
                 && after.types == db.types[i := db.types[i].(isAccepted := true)]
                 && DecidedAs(db.suggestions, after.suggestions, typeId, ACCEPTED)
                 && after.relationships == db.relationships && after.nextTypeId == db.nextTypeId
  {
    DecisionOutcome(db, typeId);
  }

  /** A committed reject settles the pending suggestions of the type and nothing else; an unknown id changes nothing. */
  lemma RejectCommitted(up: UpperCase, db: Db, typeId: int)
    requires IdsValid(db)
    ensures var (after, error) := Run(up, db, RejectStep(typeId, true));
            && error == (if HasId(db.types, typeId) then None else Some(NotFound))
            && (!HasId(db.types, typeId) ==> after == db)
            && (HasId(db.types, typeId) ==>
                 && after.types == db.types
                 && DecidedAs(db.suggestions, after.suggestions, typeId, REJECTED)
                 && after.relationships == db.relationships && after.nextTypeId == db.nextTypeId)
  {
    DecisionOutcome(db, typeId);
  }

  // ---- An accept lasts ----

  lemma {:induction false} GrowsBetween(up: UpperCase, db: Db, steps: seq<Step>, m: nat, n: nat)
    requires Invariant(db) && m <= n <= |steps|
    ensures Invariant(After(up, db, steps, n)) && Grows(After(up, db, steps, m), After(up, db, steps, n))
  {
    if m == n {
      InvariantAlways(up, db, steps, n);
    } else {
      GrowsBetween(up, db, steps, m, n - 1);
      NextKeeps(up, After(up, db, steps, m), After(up, db, steps, n - 1), steps[n - 1]);
    }
  }

  /** Step `m` is a committed accept of the type at place `i` at that time. */
  ghost predicate AcceptsAt(up: UpperCase, db: Db, steps: seq<Step>, m: nat, i: nat)
    requires m < |steps|
  {
    && steps[m].AcceptStep? && steps[m].commits
    && i < |After(up, db, steps, m).types| && After(up, db, steps, m).types[i].id == steps[m].typeId
  }

  lemma {:induction false} AcceptedNext(up: UpperCase, db: Db, steps: seq<Step>, m: nat, i: nat)
    requires Invariant(db) && m < |steps| && AcceptsAt(up, db, steps, m, i)
    ensures ErrorAt(up, db, steps, m).None?
    ensures IsAccepted(After(up, db, steps, m + 1).types, After(up, db, steps, m).types[i].name)
  {
    InvariantAlways(up, db, steps, m);
    AcceptAccepts(up, After(up, db, steps, m), steps[m], i);
  }

  lemma {:induction false} AcceptedLater(up: UpperCase, db: Db, steps: seq<Step>, m: nat, n: nat, name: string)
    requires Invariant(db) && m <= n <= |steps| && IsAccepted(After(up, db, steps, m).types, name)
    ensures IsAccepted(After(up, db, steps, n).types, name)
  {
    GrowsBetween(up, db, steps, m, n);
    AcceptedStays(After(up, db, steps, m).types, After(up, db, steps, n).types, name);
  }

  lemma AcceptAccepts(up: UpperCase, db: Db, step: Step, i: nat)
    requires Invariant(db) && step.AcceptStep? && step.commits && i < |db.types| && db.types[i].id == step.typeId
    ensures Run(up, db, step).1.None? && IsAccepted(Run(up, db, step).0.types, db.types[i].name)
  {
    AcceptCommitted(up, db, step.typeId);
    var after := Run(up, db, step).0;
    assert after.types[i].name == db.types[i].name && after.types[i].isAccepted;
  }

  lemma UsedDirectly(up: UpperCase, db: Db, r: Request)
    requires Invariant(db) && IsAccepted(db.types, up(r.name)) && r.fromId != r.toId
    ensures var (after, error) := Run(up, db, ResolveStep(r, true));
            && error.None?
            && after == db.(relationships := db.relationships + [Relationship(r.fromId, r.toId, up(r.name), r.userId)])
  {
    NameFound(db.types, up(r.name));
  }

  /**
   * After a committed accept of an existing type every later committed resolve that asks for its name uses it: one
   * relationship of that type is added and nothing else changes, whatever happened in between.
   */
  lemma {:induction false} AcceptedFromThenOn(up: UpperCase, db: Db, steps: seq<Step>, m: nat, n: nat, i: nat)
    requires Invariant(db) && m < n < |steps| && AcceptsAt(up, db, steps, m, i)
    requires steps[n].ResolveStep? && steps[n].commits && steps[n].request.fromId != steps[n].request.toId
    requires up(steps[n].request.name) == After(up, db, steps, m).types[i].name
    ensures ErrorAt(up, db, steps, m).None? && ErrorAt(up, db, steps, n).None?
    ensures var r, name, before := steps[n].request, After(up, db, steps, m).types[i].name, After(up, db, steps, n);
            After(up, db, steps, n + 1)
              == before.(relationships := before.relationships + [Relationship(r.fromId, r.toId, name, r.userId)])
  {
    AcceptedNext(up, db, steps, m, i);
    AcceptedLater(up, db, steps, m + 1, n, After(up, db, steps, m).types[i].name);
    InvariantAlways(up, db, steps, n);
    UsedDirectly(up, After(up, db, steps, n), steps[n].request);
  }
}
