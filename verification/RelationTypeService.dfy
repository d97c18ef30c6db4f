/** `EntityRelationTypeService` over its tables, and the transaction each request runs in. */
module RelationTypeService {
  import opened Common
  import opened MemoryModel
  import opened RelationTypes
  import opened RelationTypeRuns

  class EntityRelationTypeService {
    const up: UpperCase
    var types: seq<TypeRow>
    var suggestions: seq<Suggestion>
    var relationships: seq<Relationship>
    var nextTypeId: int

    function Tables(): Db
      reads this
    {
      Db(types, suggestions, relationships, nextTypeId)
    }

    constructor (up: UpperCase, tables: Db)
      ensures this.up == up && Tables() == tables
    {
      this.up := up;
      types, suggestions, relationships := tables.types, tables.suggestions, tables.relationships;
      nextTypeId := tables.nextTypeId;
    }

    method CreateType(name: string, description: Option<string>) returns (r: Result<TypeRow>)
      modifies this`types, this`nextTypeId
      ensures (Tables(), r) == RelationTypes.CreateType(old(Tables()), name, description)
    {
      var row := TypeRow(nextTypeId, name, description, false, false);
      nextTypeId := nextTypeId + 1;
      if FindName(types, |types|, name).Some? {
        return Err(DuplicateName);
      }
      types := types + [row];
      return Ok(row);
    }

    method GetOrCreateRelationType(name: string, description: Option<string>) returns (r: Result<TypeRow>)
      modifies this`types, this`nextTypeId
      ensures (Tables(), r) == GetOrCreate(up, old(Tables()), name, description)
    {
      var existing := GetByName(up, types, name);
      if existing.Some? && existing.value.isAccepted {
        return Ok(existing.value);
      }
      if existing.None? {
        r := CreateType(name, description);
        if r.Err? {
          return;
        }
      }
      r := FallbackType(up, Tables());
    }

    method RecordSuggestion(typeId: int, messageId: int, userId: Uuid, reasoning: Option<string>)
      modifies this`suggestions
      ensures suggestions == old(suggestions) + [Suggestion(typeId, messageId, userId, reasoning, PENDING)]
    {
      suggestions := suggestions + [Suggestion(typeId, messageId, userId, reasoning, PENDING)];
    }

    method ResolveAndCreateRelationship(q: Request) returns (r: Result<Relationship>)
      modifies this
      ensures (Tables(), r) == Resolve(up, old(Tables()), q)
    {
      var typeNameUpper := up(q.name);
      var existing := GetByName(up, types, q.name);
      var resolved := GetOrCreateRelationType(q.name, q.description);
      if resolved.Err? {
        return Err(resolved.error);
      }
      if q.messageId.Some? && typeNameUpper != resolved.value.name {
        RecordSuggestion(SuggestionTypeId(existing, resolved.value), q.messageId.value, q.userId, q.reasoning);
      }
      var row := Relationship(q.fromId, q.toId, resolved.value.name, q.userId);
      relationships := relationships + [row];
      return Ok(row);
    }

    method AcceptRelationType(typeId: int) returns (r: Result<TypeRow>)
      modifies this`types, this`suggestions
      ensures (Tables(), r) == Accept(old(Tables()), typeId)
      ensures r.Ok? ==> r.value.id == typeId && r.value.isAccepted && r.value in types
    {
      var i := FindId(types, |types|, typeId);
      if i.None? {
        return Err(NotFound);
      }
      types := types[i.value := types[i.value].(isAccepted := true)];
      suggestions := Decided(suggestions, typeId, ACCEPTED);
      return Ok(types[i.value]);
    }

    method RejectRelationType(typeId: int) returns (r: Result<()>)
      modifies this`suggestions
      ensures (Tables(), r) == Reject(old(Tables()), typeId)
    {
      if FindId(types, |types|, typeId).None? {
        return Err(NotFound);
      }
      suggestions := Decided(suggestions, typeId, REJECTED);
      return Ok(());
    }

    /** One request inside session.begin(): commit, or restore the tables and report the error. */
    method InTransaction(step: Step) returns (error: Option<Error>)
      modifies this
      ensures (Tables(), error) == Run(up, old(Tables()), step)
      ensures old(Invariant(Tables())) ==> Invariant(Tables()) && Grows(old(Tables()), Tables())
      ensures error.Some? ==>
                types == old(types) && suggestions == old(suggestions) && relationships == old(relationships)
    {
      ghost var before := Tables();
      var savedTypes, savedSuggestions, savedRelationships := types, suggestions, relationships;
      error := None;
      match step {
        case ResolveStep(q, commits) =>
          var r := ResolveAndCreateRelationship(q);
          error := if r.Err? then Some(r.error) else if q.fromId == q.toId then Some(SelfRelation) else None;
        case AcceptStep(typeId, commits) =>
          var r := AcceptRelationType(typeId);
          error := if r.Err? then Some(r.error) else None;
        case RejectStep(typeId, commits) =>
          var r := RejectRelationType(typeId);
          error := if r.Err? then Some(r.error) else None;
      }
      if error.None? && !step.commits {
        error := Some(Refused);
      }
      if error.Some? {
        types, suggestions, relationships := savedTypes, savedSuggestions, savedRelationships;
      }
      if Invariant(before) {
        StepKeeps(up, before, step);
      }
    }
  }
}
