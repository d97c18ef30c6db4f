/** What a consolidation must store, and what can be read back from it. */
module ConsolidationGraph {
  import opened Common
  import opened MemoryModel

  // ---- The renaming and the flattening, as the code performs them ----

  /** temp_id -> UUID after zipping the first `n` extracted entities with the rows returned for them. */
  function TempIds(entities: seq<ExtractedEntity>, rows: seq<EntityRow>, n: nat): map<int, Uuid>
    requires n <= |entities| && n <= |rows|
  {
    if n == 0 then map[] else TempIds(entities, rows, n - 1)[entities[n - 1].tempId := rows[n - 1].id]
  }

  /** An event on its way into the table, with the entity it hangs on. */
  datatype Placed = Placed(entityId: Uuid, event: ExtractedEvent)

  function PlacedOf(e: ExtractedEntity, ids: map<int, Uuid>): seq<Placed> {
    if e.tempId in ids
    then seq(|e.Listed()|, k requires 0 <= k < |e.Listed()| => Placed(ids[e.tempId], e.Listed()[k]))
    else []
  }

  /** All events of the first `n` entities whose temp id is mapped, flattened in order. */
  function Flatten(entities: seq<ExtractedEntity>, ids: map<int, Uuid>, n: nat): seq<Placed>
    requires n <= |entities|
  {
    if n == 0 then [] else Flatten(entities, ids, n - 1) + PlacedOf(entities[n - 1], ids)
  }

  predicate Storable(r: ExtractedRelation, ids: map<int, Uuid>) {
    r.fromTempId in ids && r.toTempId in ids && ids[r.fromTempId] != ids[r.toTempId]
  }

  /** The relations among the first `n` that survive the two filters, in order. */
  function StorableRelations(related: seq<ExtractedRelation>, ids: map<int, Uuid>, n: nat): seq<ExtractedRelation>
    requires n <= |related|
    ensures forall i :: 0 <= i < |StorableRelations(related, ids, n)| ==>
              Storable(StorableRelations(related, ids, n)[i], ids)
  {
    if n == 0 then []
    else if Storable(related[n - 1], ids) then StorableRelations(related, ids, n - 1) + [related[n - 1]]
    else StorableRelations(related, ids, n - 1)
  }

  // ---- What one consolidation stores ----

  ghost predicate EntitiesStored(entities: seq<ExtractedEntity>, rows: seq<EntityRow>, messageId: nat, userId: Uuid) {
    && |rows| == |entities|
    && EntityIdsDistinct(rows)
    && forall i :: 0 <= i < |rows| ==>
         rows[i] == EntityRow(rows[i].id, entities[i].profile, messageId, userId)
  }

  ghost predicate EventsStored(placed: seq<Placed>, rows: seq<EventRow>, messageId: nat, userId: Uuid) {
    && |rows| == |placed|
    && EventIdsDistinct(rows)
    && forall k :: 0 <= k < |rows| ==> rows[k] == EventRow(rows[k].id, placed[k].event, messageId, userId)
  }

  ghost predicate LinksStored(placed: seq<Placed>, rows: seq<EventRow>, links: seq<LinkRow>) {
    && |links| == |placed| == |rows|
    && forall k :: 0 <= k < |links| ==> links[k] == LinkRow(placed[k].entityId, rows[k].id)
  }

  ghost predicate RelationsStored(
    kept: seq<ExtractedRelation>, ids: map<int, Uuid>, rows: seq<RelationRow>, userId: Uuid)
  {
    && |rows| == |kept|
    && RelationIdsDistinct(rows)
    && forall i :: 0 <= i < |rows| ==>
         && Storable(kept[i], ids)
         && rows[i] == RelationRow(rows[i].id, ids[kept[i].fromTempId], ids[kept[i].toTempId], kept[i].relType, userId)
  }

  /** `g` is what consolidating `x` adds to the tables. */
  ghost predicate Consolidated(x: Extraction, g: Graph, messageId: nat, userId: Uuid) {
    var entities, related := x.entities.GetOr([]), x.relatedEntities.GetOr([]);
    && EntitiesStored(entities, g.entities, messageId, userId)
    && var ids := TempIds(entities, g.entities, |entities|);
       var placed := Flatten(entities, ids, |entities|);
    && EventsStored(placed, g.events, messageId, userId)
    && LinksStored(placed, g.events, g.links)
    && RelationsStored(StorableRelations(related, ids, |related|), ids, g.relations, userId)
  }

  // ---- Reading the stored graph back ----

  /** The event with the given id among the first `n` rows. */
  function FindEvent(rows: seq<EventRow>, n: nat, id: Uuid): Option<ExtractedEvent>
    requires n <= |rows|
  {
    if n == 0 then None
    else if rows[n - 1].id == id then Some(rows[n - 1].event)
    else FindEvent(rows, n - 1, id)
  }

  /** The events the first `n` links hang on an entity, in link order; a dangling link yields None. */
  function ReadEvents(g: Graph, n: nat, entityId: Uuid): seq<Option<ExtractedEvent>>
    requires n <= |g.links|
  {
    if n == 0 then []
    else if g.links[n - 1].entityId == entityId
    then ReadEvents(g, n - 1, entityId) + [FindEvent(g.events, |g.events|, g.links[n - 1].eventId)]
    else ReadEvents(g, n - 1, entityId)
  }

  function EventsOf(g: Graph, entityId: Uuid): seq<Option<ExtractedEvent>> {
    ReadEvents(g, |g.links|, entityId)
  }

  function Found(events: seq<ExtractedEvent>): seq<Option<ExtractedEvent>> {
    seq(|events|, k requires 0 <= k < |events| => Some(events[k]))
  }

  /** Whose row is whose: UUID -> temp_id for the first `n` entities. */
  function RowNames(entities: seq<ExtractedEntity>, rows: seq<EntityRow>, n: nat): map<Uuid, int>
    requires n <= |entities| && n <= |rows|
  {
    if n == 0 then map[] else RowNames(entities, rows, n - 1)[rows[n - 1].id := entities[n - 1].tempId]
  }

  /** A stored relation under the given names; an end without a name reads as None. */
  datatype NamedRelation = NamedRelation(from: Option<int>, to: Option<int>, relType: string)

  function NameOf(names: map<Uuid, int>, id: Uuid): Option<int> {
    if id in names then Some(names[id]) else None
  }

  function ReadRelations(rows: seq<RelationRow>, names: map<Uuid, int>): seq<NamedRelation> {
    seq(|rows|, i requires 0 <= i < |rows| =>
      NamedRelation(NameOf(names, rows[i].fromId), NameOf(names, rows[i].toId), rows[i].relType))
  }

  // ---- Independent reference: the extraction itself, minus what cannot be stored ----

  ghost predicate Extracted(entities: seq<ExtractedEntity>, tempId: int) {
    exists i :: 0 <= i < |entities| && entities[i].tempId == tempId
  }

  ghost predicate TempIdsDistinct(entities: seq<ExtractedEntity>) {
    forall i, j :: 0 <= i < j < |entities| ==> entities[i].tempId != entities[j].tempId
  }

  /** Of the first `n` relations, those between two different extracted temp ids, in order. */
  ghost function ProperRelations(
    related: seq<ExtractedRelation>, entities: seq<ExtractedEntity>, n: nat): seq<NamedRelation>
    requires n <= |related|
  {
    if n == 0 then []
    else
      var r := related[n - 1];
      var before := ProperRelations(related, entities, n - 1);
      if Extracted(entities, r.fromTempId) && Extracted(entities, r.toTempId) && r.fromTempId != r.toTempId
      then before + [NamedRelation(Some(r.fromTempId), Some(r.toTempId), r.relType)]
      else before
  }

  /** Events listed under a temp id by any of the first `n` entities, in order. */
  function ListedUnder(entities: seq<ExtractedEntity>, n: nat, tempId: int): seq<ExtractedEvent>
    requires n <= |entities|
  {
    if n == 0 then []
    else if entities[n - 1].tempId == tempId
    then ListedUnder(entities, n - 1, tempId) + entities[n - 1].Listed()
    else ListedUnder(entities, n - 1, tempId)
  }

  /** No later entity repeats the temp id of entity `i`. */
  predicate LastOfItsId(entities: seq<ExtractedEntity>, i: nat)
    requires i < |entities|
  {
    forall j :: i < j < |entities| ==> entities[j].tempId != entities[i].tempId
  }

  /** The number of events the first `n` entities hold between them. */
  function TotalListed(entities: seq<ExtractedEntity>, n: nat): nat
    requires n <= |entities|
  {
    if n == 0 then 0
    else
      match entities[n - 1].events
      case Some(events) => TotalListed(entities, n - 1) + |events|
      case None => TotalListed(entities, n - 1)
  }

  // ---- The renaming ----

  /** The map holds exactly the extracted temp ids, each sent to the row of the last entity carrying it. */
  lemma {:induction false} TempIdsAreLastRows(entities: seq<ExtractedEntity>, rows: seq<EntityRow>, n: nat, t: int)
    requires n <= |entities| && n <= |rows|
    ensures t in TempIds(entities, rows, n) <==> exists i :: 0 <= i < n && entities[i].tempId == t
    ensures t in TempIds(entities, rows, n) ==>
              exists i :: 0 <= i < n && entities[i].tempId == t && TempIds(entities, rows, n)[t] == rows[i].id
                          && forall j :: i < j < n ==> entities[j].tempId != t
  {
    if n > 0 {
      TempIdsAreLastRows(entities, rows, n - 1, t);
    }
  }

  lemma {:induction false} LastRowIsMapped(entities: seq<ExtractedEntity>, rows: seq<EntityRow>, n: nat, i: nat)
    requires i < n <= |entities| && n <= |rows|
    requires forall j :: i < j < n ==> entities[j].tempId != entities[i].tempId
    ensures entities[i].tempId in TempIds(entities, rows, n)
    ensures TempIds(entities, rows, n)[entities[i].tempId] == rows[i].id
  {
    if i < n - 1 {
      LastRowIsMapped(entities, rows, n - 1, i);
    }
  }

  ghost predicate Injective(ids: map<int, Uuid>) {
    forall t, u :: t in ids && u in ids && ids[t] == ids[u] ==> t == u
  }

  lemma TempIdsInjective(entities: seq<ExtractedEntity>, rows: seq<EntityRow>)
    requires |entities| == |rows| && EntityIdsDistinct(rows)
    ensures Injective(TempIds(entities, rows, |entities|))
  {
    var ids := TempIds(entities, rows, |entities|);
    forall t, u | t in ids && u in ids && ids[t] == ids[u] ensures t == u {
      TempIdsAreLastRows(entities, rows, |entities|, t);
      TempIdsAreLastRows(entities, rows, |entities|, u);
    }
  }

  /** A row is the image of a temp id exactly when no later entity repeats that temp id. */
  lemma ImageIffLast(entities: seq<ExtractedEntity>, rows: seq<EntityRow>, i: nat, t: int)
    requires i < |entities| == |rows| && EntityIdsDistinct(rows)
    ensures var ids := TempIds(entities, rows, |entities|);
            t in ids && ids[t] == rows[i].id <==> t == entities[i].tempId && LastOfItsId(entities, i)
  {
    if LastOfItsId(entities, i) {
      LastRowIsMapped(entities, rows, |entities|, i);
    }
    TempIdsAreLastRows(entities, rows, |entities|, t);
  }

  // ---- Flattening ----

  /** With every temp id mapped, as many events are stored as the entities list between them. */
  lemma {:induction false} FlattenConservesCount(entities: seq<ExtractedEntity>, ids: map<int, Uuid>, n: nat)
    requires n <= |entities|
    requires forall i :: 0 <= i < n ==> entities[i].tempId in ids
    ensures |Flatten(entities, ids, n)| == TotalListed(entities, n)
  {
    if n > 0 {
      FlattenConservesCount(entities, ids, n - 1);
    }
  }

  /** Of the first `n` placed events, those hanging on the given entity. */
  function Hanging(placed: seq<Placed>, n: nat, entityId: Uuid): seq<ExtractedEvent>
    requires n <= |placed|
  {
    if n == 0 then []
    else if placed[n - 1].entityId == entityId then Hanging(placed, n - 1, entityId) + [placed[n - 1].event]
    else Hanging(placed, n - 1, entityId)
  }

  lemma {:induction false} HangingConcat(placed: seq<Placed>, more: seq<Placed>, n: nat, entityId: Uuid)
    requires n <= |more|
    ensures Hanging(placed + more, |placed| + n, entityId)
         == Hanging(placed, |placed|, entityId) + Hanging(more, n, entityId)
  {
    if n == 0 {
      HangingPrefix(placed, more, |placed|, entityId);
    } else {
      HangingConcat(placed, more, n - 1, entityId);
    }
  }

  lemma {:induction false} HangingPrefix(placed: seq<Placed>, more: seq<Placed>, n: nat, entityId: Uuid)
    requires n <= |placed|
    ensures Hanging(placed + more, n, entityId) == Hanging(placed, n, entityId)
  {
    if n > 0 {
      HangingPrefix(placed, more, n - 1, entityId);
    }
  }

  lemma {:induction false} HangingOfOne(e: ExtractedEntity, ids: map<int, Uuid>, n: nat, entityId: Uuid)
    requires n <= |PlacedOf(e, ids)|
    ensures Hanging(PlacedOf(e, ids), n, entityId)
         == if e.tempId in ids && ids[e.tempId] == entityId then e.Listed()[..n] else []
  {
    if n > 0 {
      HangingOfOne(e, ids, n - 1, entityId);
    }
  }

  lemma HangingAfterOne(placed: seq<Placed>, e: ExtractedEntity, ids: map<int, Uuid>, entityId: Uuid)
    ensures var more := placed + PlacedOf(e, ids);
            Hanging(more, |more|, entityId) ==
              if e.tempId in ids && ids[e.tempId] == entityId
              then Hanging(placed, |placed|, entityId) + e.Listed()
              else Hanging(placed, |placed|, entityId)
  {
    var own := PlacedOf(e, ids);
    HangingConcat(placed, own, |own|, entityId);
    HangingOfOne(e, ids, |own|, entityId);
    if e.tempId in ids && ids[e.tempId] == entityId {
      assert e.Listed()[..|own|] == e.Listed();
    }
  }

  /** An entity id that is the image of `t` gets exactly what is listed under `t`. */
  lemma {:induction false} HangingOnImage(entities: seq<ExtractedEntity>, ids: map<int, Uuid>, n: nat, t: int)
    requires n <= |entities| && t in ids && Injective(ids)
    ensures var placed := Flatten(entities, ids, n);
            Hanging(placed, |placed|, ids[t]) == ListedUnder(entities, n, t)
  {
    if n > 0 {
      HangingOnImage(entities, ids, n - 1, t);
      HangingAfterOne(Flatten(entities, ids, n - 1), entities[n - 1], ids, ids[t]);
    }
  }

  /** An entity id that is no image gets nothing. */
  lemma {:induction false} HangingOffImage(entities: seq<ExtractedEntity>, ids: map<int, Uuid>, n: nat, entityId: Uuid)
    requires n <= |entities| && forall t :: t in ids ==> ids[t] != entityId
    ensures var placed := Flatten(entities, ids, n);
            Hanging(placed, |placed|, entityId) == []
  {
    if n > 0 {
      HangingOffImage(entities, ids, n - 1, entityId);
      HangingAfterOne(Flatten(entities, ids, n - 1), entities[n - 1], ids, entityId);
    }
  }

  // ---- Reading links ----

  lemma {:induction false} FindStoredEvent(rows: seq<EventRow>, n: nat, k: nat)
    requires k < n <= |rows| && EventIdsDistinct(rows)
    ensures FindEvent(rows, n, rows[k].id) == Some(rows[k].event)
  {
    if k < n - 1 {
      FindStoredEvent(rows, n - 1, k);
    }
  }

  lemma {:induction false} ReadLinks(
    g: Graph, placed: seq<Placed>, n: nat, entityId: Uuid, messageId: nat, userId: Uuid)
    requires EventsStored(placed, g.events, messageId, userId) && LinksStored(placed, g.events, g.links)
    requires n <= |g.links|
    ensures ReadEvents(g, n, entityId) == Found(Hanging(placed, n, entityId))
  {
    if n > 0 {
      ReadLinks(g, placed, n - 1, entityId, messageId, userId);
      FindStoredEvent(g.events, |g.events|, n - 1);
    }
  }

  /**
   * Where the events end up, repeated temp ids included: the last entity listing a temp id receives, in order,
   * all events listed under that id, and every earlier entity with the same id receives none.
   */
  lemma EventsHangOnLast(x: Extraction, g: Graph, messageId: nat, userId: Uuid, i: nat)
    requires Consolidated(x, g, messageId, userId) && i < |g.entities|
    ensures var entities := x.entities.GetOr([]);
            EventsOf(g, g.entities[i].id) ==
              if LastOfItsId(entities, i) then Found(ListedUnder(entities, |entities|, entities[i].tempId)) else []
  {
    var entities := x.entities.GetOr([]);
    var ids := TempIds(entities, g.entities, |entities|);
    var placed := Flatten(entities, ids, |entities|);
    ReadLinks(g, placed, |g.links|, g.entities[i].id, messageId, userId);
    if LastOfItsId(entities, i) {
      LastRowIsMapped(entities, g.entities, |entities|, i);
      TempIdsInjective(entities, g.entities);
      HangingOnImage(entities, ids, |entities|, entities[i].tempId);
    } else {
      forall t | t in ids ensures ids[t] != g.entities[i].id {
        ImageIffLast(entities, g.entities, i, t);
      }
      HangingOffImage(entities, ids, |entities|, g.entities[i].id);
    }
  }
}
