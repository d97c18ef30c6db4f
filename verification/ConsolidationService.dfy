/** `ConsolidationService`: the loops and the order of the inserts. */
module ConsolidationService {
  import opened Common
  import opened MemoryModel
  import opened MemoryStore
  import opened ConsolidationGraph
  import opened ConsolidationTheorems

  datatype ConsolidationResult = ConsolidationResult(
    message: MessageRow,
    entities: Option<seq<EntityRow>>,
    events: Option<seq<EventRow>>)

  /** An entity id with the position its event has in the list of drafts. */
  datatype LinkInfo = LinkInfo(entityId: Uuid, eventIndex: nat)

  /** Which inserts the database refuses for reasons outside this model, should they be attempted. */
  datatype Refusals = Refusals(message: bool, entities: bool, events: bool, links: bool, relations: bool)

  /** No insert that the extraction calls for is refused from outside. */
  ghost predicate NothingRefused(x: Extraction, refusals: Refusals) {
    var entities, related := x.entities.GetOr([]), x.relatedEntities.GetOr([]);
    && !refusals.message
    && (entities == [] || !refusals.entities)
    && (TotalListed(entities, |entities|) == 0 || (!refusals.events && !refusals.links))
    && (ProperRelations(related, entities, |related|) == [] || !refusals.relations)
  }

  // ---- Appending a consolidation to sound tables ----

  /** None of the ids of `g` is in use in `t`. */
  ghost predicate FreshFor(t: Graph, g: Graph) {
    && (forall i :: 0 <= i < |g.entities| ==> g.entities[i].id !in EntityIds(t.entities))
    && (forall i :: 0 <= i < |g.events| ==> g.events[i].id !in EventIds(t.events))
    && (forall i :: 0 <= i < |g.relations| ==> g.relations[i].id !in RelationIds(t.relations))
  }

  lemma IdsOfAppend(t: Graph, g: Graph)
    ensures EntityIds(t.entities + g.entities) == EntityIds(t.entities) + EntityIds(g.entities)
    ensures EventIds(t.events + g.events) == EventIds(t.events) + EventIds(g.events)
  {
    var entities, events := t.entities + g.entities, t.events + g.events;
    forall id | id in EntityIds(t.entities) + EntityIds(g.entities) ensures id in EntityIds(entities) {
      if i :| 0 <= i < |t.entities| && t.entities[i].id == id {
        assert entities[i].id == id;
      } else {
        var i :| 0 <= i < |g.entities| && g.entities[i].id == id;
        assert entities[|t.entities| + i].id == id;
      }
    }
    forall id | id in EventIds(t.events) + EventIds(g.events) ensures id in EventIds(events) {
      if i :| 0 <= i < |t.events| && t.events[i].id == id {
        assert events[i].id == id;
      } else {
        var i :| 0 <= i < |g.events| && g.events[i].id == id;
        assert events[|t.events| + i].id == id;
      }
    }
  }

  lemma DistinctAppend(t: Graph, g: Graph)
    requires FreshFor(t, g)
    requires EntityIdsDistinct(t.entities) && EventIdsDistinct(t.events) && RelationIdsDistinct(t.relations)
    requires EntityIdsDistinct(g.entities) && EventIdsDistinct(g.events) && RelationIdsDistinct(g.relations)
    ensures EntityIdsDistinct(t.entities + g.entities)
    ensures EventIdsDistinct(t.events + g.events)
    ensures RelationIdsDistinct(t.relations + g.relations)
  {
    assert forall i :: 0 <= i < |t.entities| ==> t.entities[i].id in EntityIds(t.entities);
    assert forall i :: 0 <= i < |t.events| ==> t.events[i].id in EventIds(t.events);
    assert forall i :: 0 <= i < |t.relations| ==> t.relations[i].id in RelationIds(t.relations);
  }

  /** New links never repeat old ones: their events are new. */
  lemma LinksAppend(t: Graph, g: Graph)
    requires LinksRefer(t.links, t.entities, t.events) && LinksDistinct(t.links)
    requires LinksRefer(g.links, g.entities, g.events) && LinksDistinct(g.links)
    requires FreshFor(t, g)
    ensures LinksRefer(g.links, t.entities + g.entities, t.events + g.events)
    ensures LinksRefer(t.links + g.links, t.entities + g.entities, t.events + g.events)
    ensures LinksDistinct(t.links + g.links)
  {
    IdsOfAppend(t, g);
  }

  lemma RelationsAppend(t: Graph, g: Graph)
    requires RelationsRefer(t.relations, t.entities) && RelationsRefer(g.relations, g.entities)
    ensures RelationsRefer(g.relations, t.entities + g.entities)
    ensures RelationsRefer(t.relations + g.relations, t.entities + g.entities)
  {
    IdsOfAppend(t, g);
  }

  /** A consolidation with fresh ids keeps every constraint of the tables it is appended to. */
  lemma AppendKeepsSound(t: Graph, x: Extraction, g: Graph, messageId: nat, userId: Uuid)
    requires Sound(t) && Consolidated(x, g, messageId, userId) && FreshFor(t, g)
    ensures Sound(Append(t, g))
  {
    ConstraintsAlwaysHold(x, g, messageId, userId);
    DistinctAppend(t, g);
    LinksAppend(t, g);
    RelationsAppend(t, g);
  }

  class ConsolidationService {
    const store: Store
    const userId: Uuid

    constructor (store: Store, userId: Uuid)
      ensures this.store == store && this.userId == userId
    {
      this.store, this.userId := store, userId;
    }

    method ConsolidateEntities(entities: seq<ExtractedEntity>, messageId: nat, refused: bool)
      returns (ok: bool, created: seq<EntityRow>)
      modifies store`entities
      ensures ok == !refused
      ensures store.entities == if ok then old(store.entities) + created else old(store.entities)
      ensures EntitiesStored(entities, created, messageId, userId)
      ensures forall i :: 0 <= i < |created| ==> created[i].id !in EntityIds(old(store.entities))
    {
      var drafts := [];
      for i := 0 to |entities|
        invariant |drafts| == i
        invariant forall k :: 0 <= k < i ==> drafts[k] == EntityDraft(entities[k].profile, messageId, userId)
      {
        drafts := drafts + [EntityDraft(entities[i].profile, messageId, userId)];
      }
      ok, created := store.BulkCreateEntities(drafts, refused);
    }

    /** Flattens the events; every link remembers its event by the position just written. */
    method ExtractEntityEvents(entities: seq<ExtractedEntity>, ids: map<int, Uuid>, messageId: nat)
      returns (drafts: seq<EventDraft>, links: seq<LinkInfo>)
      ensures var placed := Flatten(entities, ids, |entities|);
              && |drafts| == |links| == |placed|
              && (forall k :: 0 <= k < |placed| ==> drafts[k] == EventDraft(placed[k].event, messageId, userId))
              && (forall k :: 0 <= k < |placed| ==> links[k] == LinkInfo(placed[k].entityId, k))
    {
      drafts, links := [], [];
      for i := 0 to |entities|
        invariant PlacedAs(Flatten(entities, ids, i), drafts, links, messageId)
      {
        var entity := entities[i];
        ghost var before := Flatten(entities, ids, i);
        if entity.Listed() == [] {
          assert PlacedOf(entity, ids) == [];
          continue;
        }
        if entity.tempId !in ids {
          continue;
        }
        var entityId := ids[entity.tempId];
        for j := 0 to |entity.Listed()|
          invariant PlacedAs(before + PlacedOf(entity, ids)[..j], drafts, links, messageId)
        {
          drafts := drafts + [EventDraft(entity.Listed()[j], messageId, userId)];
          links := links + [LinkInfo(entityId, |drafts| - 1)];
        }
        assert PlacedOf(entity, ids)[..|entity.Listed()|] == PlacedOf(entity, ids);
      }
    }

    ghost predicate PlacedAs(placed: seq<Placed>, drafts: seq<EventDraft>, links: seq<LinkInfo>, messageId: nat) {
      && |drafts| == |links| == |placed|
      && (forall k :: 0 <= k < |placed| ==> drafts[k] == EventDraft(placed[k].event, messageId, userId))
      && (forall k :: 0 <= k < |placed| ==> links[k] == LinkInfo(placed[k].entityId, k))
    }

    /** Stores and links the flattened events; None when there are none. */
    method ConsolidateEntitiesEvents(
      entities: seq<ExtractedEntity>, ids: map<int, Uuid>, messageId: nat, refusals: Refusals)
      returns (ok: bool, events: Option<seq<EventRow>>, ghost added: seq<LinkRow>)
      modifies store`events, store`links
      ensures var placed := Flatten(entities, ids, |entities|);
              && (events.None? <==> placed == [])
              && EventsStored(placed, events.GetOr([]), messageId, userId)
              && LinksStored(placed, events.GetOr([]), added)
      ensures forall k :: 0 <= k < |events.GetOr([])| ==> events.GetOr([])[k].id !in EventIds(old(store.events))
      ensures ok <==>
                || added == []
                || (&& !refusals.events && !refusals.links
                    && LinksRefer(added, store.entities, old(store.events) + events.GetOr([]))
                    && LinksDistinct(old(store.links) + added))
      ensures ok ==> store.events == old(store.events) + events.GetOr([]) && store.links == old(store.links) + added
      ensures !ok ==> store.links == old(store.links)
    {
      var drafts, infos := ExtractEntityEvents(entities, ids, messageId);
      if drafts == [] {
        return true, None, [];
      }
      var inserted, created := store.BulkCreateEvents(drafts, refusals.events);
      var rows: seq<LinkRow> := [];
      for k := 0 to |infos|
        invariant |rows| == k
        invariant forall i :: 0 <= i < k ==> rows[i] == LinkRow(infos[i].entityId, created[i].id)
      {
        rows := rows + [LinkRow(infos[k].entityId, created[infos[k].eventIndex].id)];
      }
      events, added := Some(created), rows;
      if !inserted {
        return false, events, added;
      }
      ok := store.BulkLinkEntities(rows, refusals.links);
    }

    /** Stores the relations whose two ends are mapped to different rows. */
    method ConsolidateRelations(related: seq<ExtractedRelation>, ids: map<int, Uuid>, refused: bool)
      returns (ok: bool, ghost added: seq<RelationRow>)
      modifies store`relations
      ensures RelationsStored(StorableRelations(related, ids, |related|), ids, added, userId)
      ensures forall i :: 0 <= i < |added| ==> added[i].id !in RelationIds(old(store.relations))
      ensures ok <==> added == [] || (!refused && RelationsRefer(added, store.entities))
      ensures store.relations == if ok then old(store.relations) + added else old(store.relations)
    {
      var drafts: seq<RelationDraft> := [];
      for i := 0 to |related|
        invariant DraftsOf(drafts, StorableRelations(related, ids, i), ids)
      {
        var r := related[i];
        if r.fromTempId !in ids || r.toTempId !in ids {
          continue;
        }
        if ids[r.fromTempId] == ids[r.toTempId] {
          continue;
        }
        drafts := drafts + [RelationDraft(ids[r.fromTempId], ids[r.toTempId], r.relType, userId)];
      }
      if drafts == [] {
        return true, [];
      }
      var created;
      ok, created := store.BulkCreateRelations(drafts, refused);
      added := created;
    }

    /** One draft for each kept relation, in order. */
    ghost predicate DraftsOf(drafts: seq<RelationDraft>, kept: seq<ExtractedRelation>, ids: map<int, Uuid>) {
      && |drafts| == |kept|
      && forall k :: 0 <= k < |kept| ==>
           && Storable(kept[k], ids)
           && drafts[k] == RelationDraft(ids[kept[k].fromTempId], ids[kept[k].toTempId], kept[k].relType, userId)
    }

    /** The zip of the extracted entities with the rows returned for them. */
    method MapTempIds(entities: seq<ExtractedEntity>, created: seq<EntityRow>) returns (ids: map<int, Uuid>)
      requires |entities| == |created|
      ensures ids == TempIds(entities, created, |entities|)
    {
      ids := map[];
      for i := 0 to |entities|
        invariant ids == TempIds(entities, created, i)
      {
        ids := ids[entities[i].tempId := created[i].id];
      }
    }

    /** Entities first, if there are any, with the temp ids they get. */
    method StoreEntities(entities: seq<ExtractedEntity>, messageId: nat, refused: bool)
      returns (ok: bool, created: Option<seq<EntityRow>>, ids: map<int, Uuid>)
      modifies store`entities
      ensures ok <==> entities == [] || !refused
      ensures created.None? <==> entities == []
      ensures var rows := created.GetOr([]);
              && EntitiesStored(entities, rows, messageId, userId)
              && ids == TempIds(entities, rows, |entities|)
              && (ok ==> store.entities == old(store.entities) + rows)
              && forall i :: 0 <= i < |rows| ==> rows[i].id !in EntityIds(old(store.entities))
    {
      if entities == [] {
        return true, None, map[];
      }
      var inserted, rows := ConsolidateEntities(entities, messageId, refused);
      ids := MapTempIds(entities, rows);
      ok, created := inserted, Some(rows);
    }

    /** Then their events, if any is listed. Only a refusal from outside makes this fail. */
    method StoreEvents(
      entities: seq<ExtractedEntity>, rows: seq<EntityRow>, ids: map<int, Uuid>, messageId: nat,
      refusals: Refusals, ghost t: Graph)
      returns (ok: bool, events: Option<seq<EventRow>>, ghost links: seq<LinkRow>)
      requires LinksRefer(t.links, t.entities, t.events) && LinksDistinct(t.links)
      requires |entities| == |rows| && ids == TempIds(entities, rows, |entities|)
      requires store.entities == t.entities + rows && store.events == t.events && store.links == t.links
      modifies store`events, store`links
      ensures var placed, created := Flatten(entities, ids, |entities|), events.GetOr([]);
              && (ok <==> placed == [] || (!refusals.events && !refusals.links))
              && (events.None? <==> placed == [])
              && EventsStored(placed, created, messageId, userId) && LinksStored(placed, created, links)
              && (ok ==> store.events == t.events + created && store.links == t.links + links)
              && forall k :: 0 <= k < |created| ==> created[k].id !in EventIds(t.events)
    {
      if exists i :: 0 <= i < |entities| && entities[i].Listed() != [] {
        ok, events, links := ConsolidateEntitiesEvents(entities, ids, messageId, refusals);
        assert LinksRefer(links, t.entities + rows, t.events + events.GetOr([])) && LinksDistinct(t.links + links) by {
          LinksPass(t, entities, rows, events.GetOr([]), links, messageId, userId);
        }
      } else {
        NothingListed(entities, ids, |entities|);
        ok, events, links := true, None, [];
        assert t.events + [] == t.events && t.links + [] == t.links;
      }
    }

    /** Last the relations, if any was extracted. Again only a refusal from outside makes this fail. */
    method StoreRelations(
      related: seq<ExtractedRelation>, ghost entities: seq<ExtractedEntity>, ghost rows: seq<EntityRow>,
      ids: map<int, Uuid>, refused: bool, ghost t: Graph)
      returns (ok: bool, ghost added: seq<RelationRow>)
      requires |entities| == |rows| && ids == TempIds(entities, rows, |entities|)
      requires store.entities == t.entities + rows && store.relations == t.relations
      modifies store`relations
      ensures ok <==> StorableRelations(related, ids, |related|) == [] || !refused
      ensures RelationsStored(StorableRelations(related, ids, |related|), ids, added, userId)
      ensures ok ==> store.relations == t.relations + added
      ensures forall i :: 0 <= i < |added| ==> added[i].id !in RelationIds(t.relations)
    {
      if related == [] {
        return true, [];
      }
      ok, added := ConsolidateRelations(related, ids, refused);
      RelationsPass(t, entities, rows, StorableRelations(related, ids, |related|), added, userId);
    }

    /**
     * Succeeds exactly when no insert it attempts is refused from outside the model: no key and no check of the
     * tables ever stops it. It then appends one whole consolidation and keeps the tables sound.
     */
    method Consolidate(x: Extraction, content: string, refusals: Refusals)
      returns (result: Option<ConsolidationResult>, ghost added: Graph)
      requires Sound(store.Tables())
      modifies store
      ensures result.Some? <==> NothingRefused(x, refusals)
      ensures result.Some? ==>
                && Appended(old(store.messages), old(store.Tables()), x, content, result.value, added)
                && store.messages == old(store.messages) + [result.value.message]
                && store.Tables() == Append(old(store.Tables()), added) && Sound(store.Tables())
    {
      ghost var t := store.Tables();
      added := Graph([], [], [], []);
      var accepted, message := store.CreateMessage(content, userId, refusals.message);
      if !accepted {
        return None, added;
      }
      var entities, related := x.entities.GetOr([]), x.relatedEntities.GetOr([]);
      var stored, created, ids := StoreEntities(entities, message.id, refusals.entities);
      if !stored {
        return None, added;
      }
      CallsFor(x, created.GetOr([]));
      var linked, events, links := StoreEvents(entities, created.GetOr([]), ids, message.id, refusals, t);
      if !linked {
        return None, added;
      }
      var joined, relations := StoreRelations(related, entities, created.GetOr([]), ids, refusals.relations, t);
      if !joined {
        return None, added;
      }
      added := Graph(created.GetOr([]), events.GetOr([]), links, relations);
      AppendKeepsSound(t, x, added, message.id, userId);
      result := Some(ConsolidationResult(message, created, events));
    }

    /** What a consolidation has added to the messages and tables it found, and what it returns of it. */
    ghost predicate Appended(
      messages: seq<MessageRow>, t: Graph, x: Extraction, content: string, r: ConsolidationResult, added: Graph)
    {
      && r.message == MessageRow(r.message.id, content, userId) && r.message.id !in MessageIds(messages)
      && Consolidated(x, added, r.message.id, userId) && FreshFor(t, added)
      && r.entities == (if x.entities.GetOr([]) == [] then None else Some(added.entities))
      && r.events == (if added.events == [] then None else Some(added.events))
    }
  }

  /** Events and relations are inserted exactly when the extraction, by itself, calls for it. */
  lemma CallsFor(x: Extraction, rows: seq<EntityRow>)
    requires |x.entities.GetOr([])| == |rows| && EntityIdsDistinct(rows)
    ensures var entities, related := x.entities.GetOr([]), x.relatedEntities.GetOr([]);
            var ids := TempIds(entities, rows, |entities|);
            var kept := StorableRelations(related, ids, |related|);
            && (Flatten(entities, ids, |entities|) == [] <==> TotalListed(entities, |entities|) == 0)
            && (kept == [] <==> ProperRelations(related, entities, |related|) == [])
  {
    var entities, related := x.entities.GetOr([]), x.relatedEntities.GetOr([]);
    var ids := TempIds(entities, rows, |entities|);
    forall i | 0 <= i < |entities| ensures entities[i].tempId in ids {
      TempIdsAreLastRows(entities, rows, |entities|, entities[i].tempId);
    }
    FlattenConservesCount(entities, ids, |entities|);
    StorableAreProper(related, entities, rows, |related|);
    assert |Named(StorableRelations(related, ids, |related|))| == |StorableRelations(related, ids, |related|)|;
  }

  lemma {:induction false} NothingListed(entities: seq<ExtractedEntity>, ids: map<int, Uuid>, n: nat)
    requires n <= |entities| && forall i :: 0 <= i < n ==> entities[i].Listed() == []
    ensures Flatten(entities, ids, n) == []
  {
    if n > 0 {
      NothingListed(entities, ids, n - 1);
    }
  }

  /** The links of freshly stored events meet the constraints of the link table. */
  lemma LinksPass(
    t: Graph, entities: seq<ExtractedEntity>, rows: seq<EntityRow>, events: seq<EventRow>, links: seq<LinkRow>,
    messageId: nat, userId: Uuid)
    requires LinksRefer(t.links, t.entities, t.events) && LinksDistinct(t.links) && |entities| == |rows|
    requires forall k :: 0 <= k < |events| ==> events[k].id !in EventIds(t.events)
    requires var placed := Flatten(entities, TempIds(entities, rows, |entities|), |entities|);
             EventsStored(placed, events, messageId, userId) && LinksStored(placed, events, links)
    ensures LinksRefer(links, t.entities + rows, t.events + events) && LinksDistinct(t.links + links)
  {
    LinksHold(entities, rows, events, links, messageId, userId);
    IdsOfAppend(t, Graph(rows, events, links, []));
  }

  lemma RelationsPass(
    t: Graph, entities: seq<ExtractedEntity>, rows: seq<EntityRow>, kept: seq<ExtractedRelation>,
    relations: seq<RelationRow>, userId: Uuid)
    requires |entities| == |rows|
    requires RelationsStored(kept, TempIds(entities, rows, |entities|), relations, userId)
    ensures RelationsRefer(relations, t.entities + rows)
  {
    RelationsHold(entities, rows, kept, relations, userId);
    IdsOfAppend(t, Graph(rows, [], [], relations));
  }
}
