/** When the unique type name can be violated, and which names a history creates. */
module RelationTypeNames {
  import opened Common
  import opened RelationTypes
  import opened RelationTypeRuns

  function Names(types: seq<TypeRow>): set<string> {
    set i | 0 <= i < |types| :: types[i].name
  }

  /** How a resolve transaction ends, in terms of the names known before it. */
  lemma ResolveErrorIff(up: UpperCase, db: Db, r: Request, commits: bool)
    requires NamesUnique(db.types)
    ensures var error := Run(up, db, ResolveStep(r, commits)).1;
            if Collides(up, db.types, r.name) then error == Some(DuplicateName)
            else if !IsAccepted(db.types, up(r.name)) && !IsAccepted(db.types, FALLBACK) then error == Some(NotFound)
            else if r.fromId == r.toId then error == Some(SelfRelation)
            else if !commits then error == Some(Refused)
            else error == None
  {
    ResolveOutcome(up, db, r);
  }

  lemma HasNameSnoc(types: seq<TypeRow>, row: TypeRow, name: string)
    ensures HasName(types + [row], name) <==> HasName(types, name) || row.name == name
  {
    var more := types + [row];
    assert more[|types|] == row && forall i :: 0 <= i < |types| ==> more[i] == types[i];
  }

  /**
   * Names are looked up in upper case and stored as given: with the fallback accepted, asking twice for a name
   * that is new in both spellings works the second time exactly when the name is its own upper case.
   */
  lemma RepeatWorksIffUpperCase(up: UpperCase, db: Db, r: Request)
    requires Invariant(db) && IsAccepted(db.types, FALLBACK)
    requires !HasName(db.types, up(r.name)) && !HasName(db.types, r.name) && r.fromId != r.toId
    ensures var step := ResolveStep(r, true);
            && Run(up, db, step).1.None?
            && (Run(up, Run(up, db, step).0, step).1.None? <==> up(r.name) == r.name)
            && (Run(up, Run(up, db, step).0, step).1.Some? ==>
                 Run(up, Run(up, db, step).0, step).1.value == DuplicateName)
  {
    var step := ResolveStep(r, true);
    ResolveErrorIff(up, db, r, true);
    var once := Run(up, db, step).0;
    ResolveReaches(up, db, r);
    StepKeeps(up, db, step);
    AcceptedStays(db.types, once.types, FALLBACK);
    ResolveErrorIff(up, once, r, true);
    var row := TypeRow(db.nextTypeId, r.name, r.description, false, false);
    HasNameSnoc(db.types, row, r.name);
    HasNameSnoc(db.types, row, up(r.name));
  }

  /** The step asks for a type by a name that is already in upper case. */
  predicate AsksInUpperCase(up: UpperCase, step: Step) {
    step.ResolveStep? ==> up(step.request.name) == step.request.name
  }

  predicate Fulfilled(step: Step) {
    step.ResolveStep? && step.commits && step.request.fromId != step.request.toId
  }

  /** The names asked for by those of the first `n` steps that nothing outside the types made fail. */
  function Requested(steps: seq<Step>, n: nat): set<string>
    requires n <= |steps|
  {
    if n == 0 then {}
    else if Fulfilled(steps[n - 1]) then Requested(steps, n - 1) + {steps[n - 1].request.name}
    else Requested(steps, n - 1)
  }

  lemma NamesSnoc(types: seq<TypeRow>, row: TypeRow)
    ensures Names(types + [row]) == Names(types) + {row.name}
  {
    var more := types + [row];
    forall name | name in Names(types) + {row.name} ensures name in Names(more) {
      if i :| 0 <= i < |types| && types[i].name == name {
        assert more[i].name == name;
      } else {
        assert more[|types|].name == name;
      }
    }
  }

  lemma AcceptKeepsNames(db: Db, typeId: int)
    ensures Names(Accept(db, typeId).0.types) == Names(db.types)
  {
    var types := Accept(db, typeId).0.types;
    assert |types| == |db.types| && forall i :: 0 <= i < |types| ==> types[i].name == db.types[i].name;
  }

  lemma StepNames(up: UpperCase, db: Db, step: Step)
    requires Invariant(db) && IsAccepted(db.types, FALLBACK) && AsksInUpperCase(up, step)
    ensures Names(Run(up, db, step).0.types)
         == if Fulfilled(step) then Names(db.types) + {step.request.name} else Names(db.types)
  {
    match step
    case ResolveStep(r, commits) =>
      ResolveErrorIff(up, db, r, commits);
      if Fulfilled(step) {
        ResolveReaches(up, db, r);
        NamesSnoc(db.types, TypeRow(db.nextTypeId, r.name, r.description, false, false));
      }
    case AcceptStep(typeId, _) => AcceptKeepsNames(db, typeId);
    case RejectStep(_, _) =>
  }

  lemma FallbackStaysAccepted(up: UpperCase, db: Db, steps: seq<Step>, n: nat)
    requires Invariant(db) && IsAccepted(db.types, FALLBACK) && n <= |steps|
    ensures Invariant(After(up, db, steps, n)) && IsAccepted(After(up, db, steps, n).types, FALLBACK)
  {
    InvariantAlways(up, db, steps, n);
    AcceptedStays(db.types, After(up, db, steps, n).types, FALLBACK);
  }

  /**
   * With an accepted fallback and upper-case names, no history of resolves, accepts and rejects ever violates the
   * unique name or misses the fallback: a resolve fails only for reasons that have nothing to do with types.
   */
  lemma UpperCaseNeverFails(up: UpperCase, db: Db, steps: seq<Step>, i: nat)
    requires Invariant(db) && IsAccepted(db.types, FALLBACK) && i < |steps|
    requires steps[i].ResolveStep? && AsksInUpperCase(up, steps[i])
    ensures ErrorAt(up, db, steps, i) ==
              if steps[i].request.fromId == steps[i].request.toId then Some(SelfRelation)
              else if !steps[i].commits then Some(Refused)
              else None
  {
    FallbackStaysAccepted(up, db, steps, i);
    ResolveErrorIff(up, After(up, db, steps, i), steps[i].request, steps[i].commits);
  }

  lemma NamesAfterStep(up: UpperCase, before: Db, steps: seq<Step>, n: nat, initial: set<string>)
    requires Invariant(before) && IsAccepted(before.types, FALLBACK)
    requires 0 < n <= |steps| && AsksInUpperCase(up, steps[n - 1])
    requires Names(before.types) == initial + Requested(steps, n - 1)
    ensures Names(Run(up, before, steps[n - 1]).0.types) == initial + Requested(steps, n)
  {
    StepNames(up, before, steps[n - 1]);
  }

  /** ... and it ends with exactly the initial names and the requested ones; `InvariantAlways` has each only once. */
  lemma {:induction false} UpperCaseHistory(up: UpperCase, db: Db, steps: seq<Step>, n: nat)
    requires Invariant(db) && IsAccepted(db.types, FALLBACK) && n <= |steps|
    requires forall i :: 0 <= i < |steps| ==> AsksInUpperCase(up, steps[i])
    ensures Names(After(up, db, steps, n).types) == Names(db.types) + Requested(steps, n)
  {
    if n > 0 {
      var before := After(up, db, steps, n - 1);
      assert Names(Run(up, before, steps[n - 1]).0.types) == Names(db.types) + Requested(steps, n) by {
        UpperCaseHistory(up, db, steps, n - 1);
        FallbackStaysAccepted(up, db, steps, n - 1);
        NamesAfterStep(up, before, steps, n, Names(db.types));
      }
    }
  }
}
