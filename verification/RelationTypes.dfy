/** The relation-type lifecycle: rows, queries and the meaning of each service step. */
module RelationTypes {
  import opened Common
  import opened MemoryModel

  const FALLBACK := "RELATES_TO"  // DEFAULT_FALLBACK_TYPE_NAME

  /** str.upper: any function that leaves the fallback's name alone. */
  type UpperCase = f: string -> string | f(FALLBACK) == FALLBACK witness (s: string) => s

  datatype Status = PENDING | ACCEPTED | REJECTED

  datatype TypeRow = TypeRow(id: int, name: string, description: Option<string>, isPreset: bool, isAccepted: bool)
  datatype Suggestion = Suggestion(
    typeId: int, messageId: int, userId: Uuid, reasoning: Option<string>, status: Status)
  datatype Relationship = Relationship(fromId: Uuid, toId: Uuid, relType: string, userId: Uuid)

  /** The three tables and the next value of the type-id sequence. */
  datatype Db = Db(
    types: seq<TypeRow>, suggestions: seq<Suggestion>, relationships: seq<Relationship>, nextTypeId: int)

  /** The arguments of `resolve_and_create_relationship`. */
  datatype Request = Request(
    fromId: Uuid, toId: Uuid, name: string, userId: Uuid,
    messageId: Option<int>, reasoning: Option<string>, description: Option<string>)

  /** EntityNotFoundError; unique type name; ck_no_self_relation; any other refusal of the database to commit. */
  datatype Error = NotFound | DuplicateName | SelfRelation | Refused

  datatype Result<+T> = Ok(value: T) | Err(error: Error)

  // ---- Queries ----

  /** Position of the row with the name among the first `n`. */
  function FindName(types: seq<TypeRow>, n: nat, name: string): (r: Option<nat>)
    requires n <= |types|
    ensures r.Some? ==> r.value < n && types[r.value].name == name
    ensures r.None? ==> forall i :: 0 <= i < n ==> types[i].name != name
  {
    if n == 0 then None
    else if types[n - 1].name == name then Some(n - 1)
    else FindName(types, n - 1, name)
  }

  /** Position of the row with the id among the first `n`. */
  function FindId(types: seq<TypeRow>, n: nat, id: int): (r: Option<nat>)
    requires n <= |types|
    ensures r.Some? ==> r.value < n && types[r.value].id == id
    ensures r.None? ==> forall i :: 0 <= i < n ==> types[i].id != id
  {
    if n == 0 then None
    else if types[n - 1].id == id then Some(n - 1)
    else FindId(types, n - 1, id)
  }

  /** `get_by_name` looks the upper-cased name up. */
  function GetByName(up: UpperCase, types: seq<TypeRow>, name: string): Option<TypeRow> {
    var i := FindName(types, |types|, up(name));
    if i.Some? then Some(types[i.value]) else None
  }

  // ---- Steps, before the transaction commits: the tables reached and the error, if one was raised ----

  /** `create_type` stores the name as given; the flush enforces the unique name. */
  function CreateType(db: Db, name: string, description: Option<string>): (Db, Result<TypeRow>) {
    var row := TypeRow(db.nextTypeId, name, description, false, false);
    var drawn := db.(nextTypeId := db.nextTypeId + 1);
    if FindName(db.types, |db.types|, name).Some? then (drawn, Err(DuplicateName))
    else (drawn.(types := db.types + [row]), Ok(row))
  }

  function FallbackType(up: UpperCase, db: Db): Result<TypeRow> {
    var fallback := GetByName(up, db.types, FALLBACK);
    if fallback.None? || !fallback.value.isAccepted then Err(NotFound) else Ok(fallback.value)
  }

  function GetOrCreate(up: UpperCase, db: Db, name: string, description: Option<string>): (Db, Result<TypeRow>) {
    var existing := GetByName(up, db.types, name);
    if existing.Some? && existing.value.isAccepted then (db, Ok(existing.value))
    else if existing.Some? then (db, FallbackType(up, db))
    else
      var (created, row) := CreateType(db, name, description);
      if row.Err? then (created, row) else (created, FallbackType(up, created))
  }

  /** The type a suggestion is filed under: `existing_type_id or resolved_type.id`. */
  function SuggestionTypeId(existing: Option<TypeRow>, resolved: TypeRow): int {
    if existing.Some? && existing.value.id != 0 then existing.value.id else resolved.id
  }

  function Resolve(up: UpperCase, db: Db, r: Request): (Db, Result<Relationship>) {
    var existing := GetByName(up, db.types, r.name);
    var (reached, resolved) := GetOrCreate(up, db, r.name, r.description);
    if resolved.Err? then (reached, Err(resolved.error))
    else
      var suggestions :=
        if r.messageId.Some? && up(r.name) != resolved.value.name
        then reached.suggestions + [Suggestion(SuggestionTypeId(existing, resolved.value), r.messageId.value,
                                               r.userId, r.reasoning, PENDING)]
        else reached.suggestions;
      var row := Relationship(r.fromId, r.toId, resolved.value.name, r.userId);
      (reached.(suggestions := suggestions, relationships := reached.relationships + [row]), Ok(row))
  }

  /** UPDATE ... SET status WHERE the suggestion is pending and of the given type. */
  function Decided(suggestions: seq<Suggestion>, typeId: int, status: Status): seq<Suggestion> {
    seq(|suggestions|, i requires 0 <= i < |suggestions| =>
      if suggestions[i].typeId == typeId && suggestions[i].status == PENDING
      then suggestions[i].(status := status)
      else suggestions[i])
  }

  function Accept(db: Db, typeId: int): (Db, Result<TypeRow>) {
    var i := FindId(db.types, |db.types|, typeId);
    if i.None? then (db, Err(NotFound))
    else
      var row := db.types[i.value].(isAccepted := true);
      (db.(types := db.types[i.value := row], suggestions := Decided(db.suggestions, typeId, ACCEPTED)), Ok(row))
  }

  function Reject(db: Db, typeId: int): (Db, Result<()>) {
    if FindId(db.types, |db.types|, typeId).None? then (db, Err(NotFound))
    else (db.(suggestions := Decided(db.suggestions, typeId, REJECTED)), Ok(()))
  }

  // ---- Steps as transactions ----

  /** `commits` is false when the database refuses the commit for a reason outside this model. */
  datatype Step =
    | ResolveStep(request: Request, commits: bool)
    | AcceptStep(typeId: int, commits: bool)
    | RejectStep(typeId: int, commits: bool)

  /** A rolled-back transaction leaves the tables alone; values drawn from the id sequence stay drawn. */
  function RolledBack(before: Db, reached: Db): Db {
    before.(nextTypeId := reached.nextTypeId)
  }

  function Finish<T>(before: Db, reached: Db, r: Result<T>, commits: bool): (Db, Option<Error>) {
    if r.Err? then (RolledBack(before, reached), Some(r.error))
    else if !commits then (RolledBack(before, reached), Some(Refused))
    else (reached, None)
  }

  /** The self-relation check fires when the pending relationship is flushed, at the latest on commit. */
  function Checked(r: Request, resolved: Result<Relationship>): Result<Relationship> {
    if resolved.Ok? && r.fromId == r.toId then Err(SelfRelation) else resolved
  }

  function Run(up: UpperCase, db: Db, step: Step): (Db, Option<Error>) {
    match step
    case ResolveStep(r, commits) =>
      var (reached, resolved) := Resolve(up, db, r);
      Finish(db, reached, Checked(r, resolved), commits)
    case AcceptStep(typeId, commits) =>
      var (reached, accepted) := Accept(db, typeId);
      Finish(db, reached, accepted, commits)
    case RejectStep(typeId, commits) =>
      var (reached, rejected) := Reject(db, typeId);
      Finish(db, reached, rejected, commits)
  }

  /** The database after the first `n` steps of a history. */
  function After(up: UpperCase, db: Db, steps: seq<Step>, n: nat): Db
    requires n <= |steps|
  {
    if n == 0 then db else Run(up, After(up, db, steps, n - 1), steps[n - 1]).0
  }

  /** The error raised by step `i`, if any. */
  function ErrorAt(up: UpperCase, db: Db, steps: seq<Step>, i: nat): Option<Error>
    requires i < |steps|
  {
    Run(up, After(up, db, steps, i), steps[i]).1
  }
}
