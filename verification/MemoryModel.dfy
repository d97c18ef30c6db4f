/** Extracted values and stored rows of the memory domain. */
module MemoryModel {
  import opened Common

  type Uuid = nat

  // ---- What the extraction hands over (src/domain/extraction/schemas.py) ----

  datatype ExtractedEvent = ExtractedEvent(summary: string, timestamp: Option<string>)

  /** The descriptive fields of an entity, copied unchanged into its row. */
  datatype Profile = Profile(name: string, entityType: string, aliases: seq<string>, description: Option<string>)

  datatype ExtractedEntity = ExtractedEntity(tempId: int, profile: Profile, events: Option<seq<ExtractedEvent>>) {
    /** The events listed; None and [] are both falsy and list nothing. */
    function Listed(): seq<ExtractedEvent> { events.GetOr([]) }
  }

  datatype ExtractedRelation = ExtractedRelation(fromTempId: int, toTempId: int, relType: string)

  datatype Extraction = Extraction(
    entities: Option<seq<ExtractedEntity>>,
    relatedEntities: Option<seq<ExtractedRelation>>)

  // ---- What the tables hold (src/domain/memory/models.py) ----

  datatype MessageRow = MessageRow(id: nat, content: string, userId: Uuid)
  datatype EntityRow = EntityRow(id: Uuid, profile: Profile, messageId: nat, userId: Uuid)
  datatype EventRow = EventRow(id: Uuid, event: ExtractedEvent, messageId: nat, userId: Uuid)
  datatype LinkRow = LinkRow(entityId: Uuid, eventId: Uuid)
  datatype RelationRow = RelationRow(id: Uuid, fromId: Uuid, toId: Uuid, relType: string, userId: Uuid)

  ghost predicate EntityIdsDistinct(rows: seq<EntityRow>) {
    forall i, j :: 0 <= i < j < |rows| ==> rows[i].id != rows[j].id
  }

  ghost predicate EventIdsDistinct(rows: seq<EventRow>) {
    forall i, j :: 0 <= i < j < |rows| ==> rows[i].id != rows[j].id
  }

  ghost predicate RelationIdsDistinct(rows: seq<RelationRow>) {
    forall i, j :: 0 <= i < j < |rows| ==> rows[i].id != rows[j].id
  }

  function MessageIds(rows: seq<MessageRow>): set<nat> {
    set i | 0 <= i < |rows| :: rows[i].id
  }

  function EntityIds(rows: seq<EntityRow>): set<Uuid> {
    set i | 0 <= i < |rows| :: rows[i].id
  }

  function EventIds(rows: seq<EventRow>): set<Uuid> {
    set i | 0 <= i < |rows| :: rows[i].id
  }

  function RelationIds(rows: seq<RelationRow>): set<Uuid> {
    set i | 0 <= i < |rows| :: rows[i].id
  }

  /** Foreign keys of events_entities_relations. */
  predicate LinksRefer(links: seq<LinkRow>, entities: seq<EntityRow>, events: seq<EventRow>) {
    forall i :: 0 <= i < |links| ==> links[i].entityId in EntityIds(entities) && links[i].eventId in EventIds(events)
  }

  /** Primary key (entity_id, event_id). */
  predicate LinksDistinct(links: seq<LinkRow>) {
    forall i, j :: 0 <= i < j < |links| ==> links[i] != links[j]
  }

  /** Foreign keys and ck_no_self_relation of relationships_history. */
  predicate RelationsRefer(relations: seq<RelationRow>, entities: seq<EntityRow>) {
    forall i :: 0 <= i < |relations| ==>
      && relations[i].fromId in EntityIds(entities)
      && relations[i].toId in EntityIds(entities)
      && relations[i].fromId != relations[i].toId
  }

  /** What the constraints come to: no link and no relation id occurs twice, a relation joins two stored entities. */
  lemma ConstraintsMean(links: seq<LinkRow>, relations: seq<RelationRow>, entities: seq<EntityRow>)
    ensures LinksDistinct(links) <==>
              forall i, j :: 0 <= i < |links| && 0 <= j < |links| && links[i] == links[j] ==> i == j
    ensures RelationIdsDistinct(relations) <==>
              forall i, j :: 0 <= i < |relations| && 0 <= j < |relations| && relations[i].id == relations[j].id
                ==> i == j
    ensures RelationsRefer(relations, entities) <==>
              forall r :: r in relations ==>
                {r.fromId, r.toId} <= EntityIds(entities) && |{r.fromId, r.toId}| == 2
  {
  }

  /** The rows one consolidation adds, table by table and in insertion order. */
  datatype Graph = Graph(
    entities: seq<EntityRow>,
    events: seq<EventRow>,
    links: seq<LinkRow>,
    relations: seq<RelationRow>)
}
