/** The stored graph against the extracted one. */
module ConsolidationTheorems {
  import opened Common
  import opened MemoryModel
  import opened ConsolidationGraph

  // ---- Events ----

  /** The events an extracted entity asks to be stored, as they are read back. */
  function Asked(events: Option<seq<ExtractedEvent>>): seq<Option<ExtractedEvent>> {
    match events
    case Some(listed) => Found(listed)
    case None => []
  }

  /** Every entity row has exactly the events its own extracted entity listed, in order. */
  ghost predicate EventsFaithful(entities: seq<ExtractedEntity>, g: Graph)
    requires |entities| == |g.entities|
  {
    forall i :: 0 <= i < |entities| ==> EventsOf(g, g.entities[i].id) == Asked(entities[i].events)
  }

  /** An entity whose temp id is listed again later lists no events of its own. */
  predicate OverriddenListNothing(entities: seq<ExtractedEntity>) {
    forall i :: 0 <= i < |entities| && !LastOfItsId(entities, i) ==>
      entities[i].events == None || entities[i].events == Some([])
  }

  lemma {:induction false} ListedUnderLast(entities: seq<ExtractedEntity>, n: nat, i: nat)
    requires OverriddenListNothing(entities) && i < |entities| && LastOfItsId(entities, i) && n <= |entities|
    ensures ListedUnder(entities, n, entities[i].tempId) == if i < n then entities[i].Listed() else []
  {
    if n > 0 {
      ListedUnderLast(entities, n - 1, i);
      if entities[n - 1].tempId == entities[i].tempId && n - 1 != i {
        assert !LastOfItsId(entities, n - 1);
        assert entities[n - 1].Listed() == [];
      }
    }
  }

  lemma AskedIsListed(e: ExtractedEntity)
    ensures Asked(e.events) == Found(e.Listed())
  {
  }

  /** No other entity has the temp id of entity `i`. */
  predicate OnlyOneOfItsId(entities: seq<ExtractedEntity>, i: nat)
    requires i < |entities|
  {
    forall j :: 0 <= j < |entities| && j != i ==> entities[j].tempId != entities[i].tempId
  }

  lemma {:induction false} ListedUnderOnly(entities: seq<ExtractedEntity>, n: nat, i: nat)
    requires i < |entities| && OnlyOneOfItsId(entities, i) && n <= |entities|
    ensures ListedUnder(entities, n, entities[i].tempId) == if i < n then entities[i].Listed() else []
  {
    if n > 0 {
      ListedUnderOnly(entities, n - 1, i);
    }
  }

  /** An entity that shares its temp id with no other has every event it lists, in order, or none if it has no list. */
  lemma EventsOfOnlyEntity(
    x: Extraction, g: Graph, messageId: nat, userId: Uuid, entities: seq<ExtractedEntity>, i: nat)
    requires Consolidated(x, g, messageId, userId) && x.entities == Some(entities)
    requires i < |entities| && OnlyOneOfItsId(entities, i)
    ensures |g.entities| == |entities| && g.entities[i].profile == entities[i].profile
    ensures forall events :: entities[i].events == Some(events) ==>
              && |EventsOf(g, g.entities[i].id)| == |events|
              && forall k :: 0 <= k < |events| ==> EventsOf(g, g.entities[i].id)[k] == Some(events[k])
    ensures entities[i].events == None ==> EventsOf(g, g.entities[i].id) == []
  {
    EventsHangOnLast(x, g, messageId, userId, i);
    ListedUnderOnly(entities, |entities|, i);
    AskedIsListed(entities[i]);
  }

  /** Events reach their own entity exactly when no entity with events is overridden by a later one with its id. */
  lemma EventsFaithfulIff(x: Extraction, g: Graph, messageId: nat, userId: Uuid)
    requires Consolidated(x, g, messageId, userId)
    ensures EventsFaithful(x.entities.GetOr([]), g) <==> OverriddenListNothing(x.entities.GetOr([]))
  {
    var entities := x.entities.GetOr([]);
    forall i | 0 <= i < |entities|
      ensures !LastOfItsId(entities, i) ==>
                (EventsOf(g, g.entities[i].id) == Asked(entities[i].events) <==> entities[i].Listed() == [])
      ensures LastOfItsId(entities, i) && OverriddenListNothing(entities) ==>
                EventsOf(g, g.entities[i].id) == Asked(entities[i].events)
    {
      AskedIsListed(entities[i]);
      EventsHangOnLast(x, g, messageId, userId, i);
      if LastOfItsId(entities, i) {
        if OverriddenListNothing(entities) {
          ListedUnderLast(entities, |entities|, i);
        }
      } else {
        assert |Found(entities[i].Listed())| == |entities[i].Listed()|;
      }
    }
  }

  // ---- Relations ----

  lemma StorableIffProper(entities: seq<ExtractedEntity>, rows: seq<EntityRow>, r: ExtractedRelation)
    requires |entities| == |rows| && EntityIdsDistinct(rows)
    ensures Storable(r, TempIds(entities, rows, |entities|))
       <==> Extracted(entities, r.fromTempId) && Extracted(entities, r.toTempId) && r.fromTempId != r.toTempId
  {
    TempIdsInjective(entities, rows);
    TempIdsAreLastRows(entities, rows, |entities|, r.fromTempId);
    TempIdsAreLastRows(entities, rows, |entities|, r.toTempId);
  }

  /** Row names give every image its temp id back. */
  lemma {:induction false} NamesInvertIds(entities: seq<ExtractedEntity>, rows: seq<EntityRow>, n: nat, i: nat)
    requires i < n <= |entities| == |rows| && EntityIdsDistinct(rows)
    ensures NameOf(RowNames(entities, rows, n), rows[i].id) == Some(entities[i].tempId)
  {
    if i < n - 1 {
      NamesInvertIds(entities, rows, n - 1, i);
    }
  }

  lemma NameOfImage(entities: seq<ExtractedEntity>, rows: seq<EntityRow>, t: int)
    requires |entities| == |rows| && EntityIdsDistinct(rows)
    requires t in TempIds(entities, rows, |entities|)
    ensures NameOf(RowNames(entities, rows, |rows|), TempIds(entities, rows, |entities|)[t]) == Some(t)
  {
    var ids := TempIds(entities, rows, |entities|);
    TempIdsAreLastRows(entities, rows, |entities|, t);
    var i :| 0 <= i < |entities| && entities[i].tempId == t && ids[t] == rows[i].id;
    NamesInvertIds(entities, rows, |entities|, i);
  }

  function Named(kept: seq<ExtractedRelation>): seq<NamedRelation> {
    seq(|kept|, i requires 0 <= i < |kept| =>
      NamedRelation(Some(kept[i].fromTempId), Some(kept[i].toTempId), kept[i].relType))
  }

  lemma {:induction false} StorableAreProper(
    related: seq<ExtractedRelation>, entities: seq<ExtractedEntity>, rows: seq<EntityRow>, n: nat)
    requires |entities| == |rows| && EntityIdsDistinct(rows) && n <= |related|
    ensures Named(StorableRelations(related, TempIds(entities, rows, |entities|), n))
         == ProperRelations(related, entities, n)
  {
    if n > 0 {
      StorableAreProper(related, entities, rows, n - 1);
      StorableIffProper(entities, rows, related[n - 1]);
    }
  }

  /**
   * The stored relations, read back through the names of the rows, are in order exactly the extracted ones between
   * two different extracted temp ids: dangling edges and self-loops are gone and nothing else is.
   */
  lemma RelationsRoundTrip(x: Extraction, g: Graph, messageId: nat, userId: Uuid)
    requires Consolidated(x, g, messageId, userId)
    ensures var entities, related := x.entities.GetOr([]), x.relatedEntities.GetOr([]);
            ReadRelations(g.relations, RowNames(entities, g.entities, |g.entities|))
              == ProperRelations(related, entities, |related|)
  {
    var entities, related := x.entities.GetOr([]), x.relatedEntities.GetOr([]);
    var ids, names := TempIds(entities, g.entities, |entities|), RowNames(entities, g.entities, |g.entities|);
    var kept := StorableRelations(related, ids, |related|);
    forall i | 0 <= i < |kept|
      ensures NameOf(names, g.relations[i].fromId) == Some(kept[i].fromTempId)
      ensures NameOf(names, g.relations[i].toId) == Some(kept[i].toTempId)
    {
      NameOfImage(entities, g.entities, kept[i].fromTempId);
      NameOfImage(entities, g.entities, kept[i].toTempId);
    }
    assert ReadRelations(g.relations, names) == Named(kept);
    StorableAreProper(related, entities, g.entities, |related|);
  }

  /** With repeated temp ids, relations join the last entities of their ids; overridden entities have none. */
  lemma RelationsJoinLast(x: Extraction, g: Graph, messageId: nat, userId: Uuid, k: nat, i: nat)
    requires Consolidated(x, g, messageId, userId) && k < |g.relations| && i < |g.entities|
    requires g.relations[k].fromId == g.entities[i].id || g.relations[k].toId == g.entities[i].id
    ensures LastOfItsId(x.entities.GetOr([]), i)
  {
    var entities, related := x.entities.GetOr([]), x.relatedEntities.GetOr([]);
    var kept := StorableRelations(related, TempIds(entities, g.entities, |entities|), |related|);
    ImageIffLast(entities, g.entities, i, kept[k].fromTempId);
    ImageIffLast(entities, g.entities, i, kept[k].toTempId);
  }

  // ---- The whole graph ----

  datatype ReadEntity = ReadEntity(name: Option<int>, profile: Profile, events: seq<Option<ExtractedEvent>>)
  datatype ReadGraph = ReadGraph(entities: seq<ReadEntity>, relations: seq<NamedRelation>)

  /** The stored graph, with every row called by the name given to it. */
  function ReadBack(g: Graph, names: map<Uuid, int>): ReadGraph {
    ReadGraph(
      seq(|g.entities|, i requires 0 <= i < |g.entities| =>
        ReadEntity(NameOf(names, g.entities[i].id), g.entities[i].profile, EventsOf(g, g.entities[i].id))),
      ReadRelations(g.relations, names))
  }

  /** The extracted graph without dangling edges and self-loops. */
  ghost function Proper(x: Extraction): ReadGraph {
    var entities, related := x.entities.GetOr([]), x.relatedEntities.GetOr([]);
    ReadGraph(
      seq(|entities|, i requires 0 <= i < |entities| =>
        ReadEntity(Some(entities[i].tempId), entities[i].profile, Asked(entities[i].events))),
      ProperRelations(related, entities, |related|))
  }

  /**
   * Reading the stored graph back gives the extracted graph, minus dangling edges and self-loops, exactly when
   * no entity with events is overridden by a later one with the same temp id.
   */
  lemma GraphRoundTripIff(x: Extraction, g: Graph, messageId: nat, userId: Uuid)
    requires Consolidated(x, g, messageId, userId)
    ensures ReadBack(g, RowNames(x.entities.GetOr([]), g.entities, |g.entities|)) == Proper(x)
       <==> OverriddenListNothing(x.entities.GetOr([]))
  {
    var entities := x.entities.GetOr([]);
    var names := RowNames(entities, g.entities, |g.entities|);
    RelationsRoundTrip(x, g, messageId, userId);
    EventsFaithfulIff(x, g, messageId, userId);
    var read, proper := ReadBack(g, names).entities, Proper(x).entities;
    forall i | 0 <= i < |entities|
      ensures read[i] == proper[i] <==> EventsOf(g, g.entities[i].id) == Asked(entities[i].events)
    {
      NamesInvertIds(entities, g.entities, |entities|, i);
    }
    assert read == proper <==> forall i :: 0 <= i < |entities| ==> read[i] == proper[i];
  }

  /** With pairwise distinct temp ids the renaming is a bijection onto the rows, and the graphs are isomorphic. */
  lemma DistinctIdsGiveIsomorphism(x: Extraction, g: Graph, messageId: nat, userId: Uuid)
    requires Consolidated(x, g, messageId, userId) && TempIdsDistinct(x.entities.GetOr([]))
    ensures var entities := x.entities.GetOr([]);
            var ids := TempIds(entities, g.entities, |entities|);
            && Injective(ids)
            && (forall i :: 0 <= i < |entities| ==>
                 entities[i].tempId in ids && ids[entities[i].tempId] == g.entities[i].id)
            && ReadBack(g, RowNames(entities, g.entities, |g.entities|)) == Proper(x)
  {
    var entities := x.entities.GetOr([]);
    TempIdsInjective(entities, g.entities);
    forall i | 0 <= i < |entities|
      ensures LastOfItsId(entities, i)
      ensures entities[i].tempId in TempIds(entities, g.entities, |entities|)
      ensures TempIds(entities, g.entities, |entities|)[entities[i].tempId] == g.entities[i].id
    {
      LastRowIsMapped(entities, g.entities, |entities|, i);
    }
    GraphRoundTripIff(x, g, messageId, userId);
  }

  // ---- What the table constraints ask for ----

  lemma {:induction false} PlacedOnRows(
    entities: seq<ExtractedEntity>, ids: map<int, Uuid>, allowed: set<Uuid>, n: nat, k: nat)
    requires n <= |entities| && (forall t :: t in ids ==> ids[t] in allowed)
    requires k < |Flatten(entities, ids, n)|
    ensures Flatten(entities, ids, n)[k].entityId in allowed
  {
    if k < |Flatten(entities, ids, n - 1)| {
      PlacedOnRows(entities, ids, allowed, n - 1, k);
    }
  }

  lemma {:induction false} ImagesAreRows(entities: seq<ExtractedEntity>, rows: seq<EntityRow>, n: nat)
    requires n <= |entities| == |rows|
    ensures forall t :: t in TempIds(entities, rows, n) ==> TempIds(entities, rows, n)[t] in EntityIds(rows)
  {
    if n > 0 {
      ImagesAreRows(entities, rows, n - 1);
      assert rows[n - 1].id in EntityIds(rows);
    }
  }

  lemma LinksHold(
    entities: seq<ExtractedEntity>, rows: seq<EntityRow>, events: seq<EventRow>, links: seq<LinkRow>,
    messageId: nat, userId: Uuid)
    requires |entities| == |rows|
    requires var placed := Flatten(entities, TempIds(entities, rows, |entities|), |entities|);
             EventsStored(placed, events, messageId, userId) && LinksStored(placed, events, links)
    ensures LinksRefer(links, rows, events) && LinksDistinct(links)
  {
    ImagesAreRows(entities, rows, |entities|);
    forall k | 0 <= k < |links| ensures links[k].entityId in EntityIds(rows) && links[k].eventId in EventIds(events) {
      PlacedOnRows(entities, TempIds(entities, rows, |entities|), EntityIds(rows), |entities|, k);
      assert events[k].id in EventIds(events);
    }
  }

  lemma RelationsHold(
    entities: seq<ExtractedEntity>, rows: seq<EntityRow>, kept: seq<ExtractedRelation>, relations: seq<RelationRow>,
    userId: Uuid)
    requires |entities| == |rows|
    requires RelationsStored(kept, TempIds(entities, rows, |entities|), relations, userId)
    ensures RelationsRefer(relations, rows)
  {
    ImagesAreRows(entities, rows, |entities|);
  }

  /** Whatever the temp ids, links and relations refer to stored rows, no link repeats and nothing relates to itself. */
  lemma ConstraintsAlwaysHold(x: Extraction, g: Graph, messageId: nat, userId: Uuid)
    requires Consolidated(x, g, messageId, userId)
    ensures LinksRefer(g.links, g.entities, g.events) && LinksDistinct(g.links)
    ensures RelationsRefer(g.relations, g.entities)
  {
    var entities, related := x.entities.GetOr([]), x.relatedEntities.GetOr([]);
    var ids := TempIds(entities, g.entities, |entities|);
    LinksHold(entities, g.entities, g.events, g.links, messageId, userId);
    RelationsHold(entities, g.entities, StorableRelations(related, ids, |related|), g.relations, userId);
  }

  /** Every row says whose it is: entities and events the message and the user, relations the user. */
  lemma RowsAreOwned(x: Extraction, g: Graph, messageId: nat, userId: Uuid)
    requires Consolidated(x, g, messageId, userId)
    ensures forall row :: row in g.entities ==> row.messageId == messageId && row.userId == userId
    ensures forall row :: row in g.events ==> row.messageId == messageId && row.userId == userId
    ensures forall row :: row in g.relations ==> row.userId == userId
  {
  }

  /** Links and events are in bijection, in order, and nothing listed is dropped: the counts add up. */
  lemma EventsConserved(x: Extraction, g: Graph, messageId: nat, userId: Uuid)
    requires Consolidated(x, g, messageId, userId)
    ensures |g.events| == |g.links| == TotalListed(x.entities.GetOr([]), |x.entities.GetOr([])|)
    ensures forall k :: 0 <= k < |g.links| ==> g.links[k].eventId == g.events[k].id
    ensures forall k, l :: 0 <= k < l < |g.links| ==> g.links[k].eventId != g.links[l].eventId
  {
    var entities := x.entities.GetOr([]);
    var ids := TempIds(entities, g.entities, |entities|);
    forall i | 0 <= i < |entities| ensures entities[i].tempId in ids {
      TempIdsAreLastRows(entities, g.entities, |entities|, entities[i].tempId);
    }
    FlattenConservesCount(entities, ids, |entities|);
  }

  // ---- The order in which the insert returns its rows ----

  /** The profile of the row a temp id is mapped to. */
  function ProfileOf(rows: seq<EntityRow>, n: nat, id: Uuid): Option<Profile>
    requires n <= |rows|
  {
    if n == 0 then None
    else if rows[n - 1].id == id then Some(rows[n - 1].profile)
    else ProfileOf(rows, n - 1, id)
  }

  lemma {:induction false} ProfileOfRow(rows: seq<EntityRow>, n: nat, i: nat)
    requires i < n <= |rows| && EntityIdsDistinct(rows)
    ensures ProfileOf(rows, n, rows[i].id) == Some(rows[i].profile)
  {
    if i < n - 1 {
      ProfileOfRow(rows, n - 1, i);
    }
  }

  /**
   * Zipping renames correctly exactly when the returned rows carry the profiles in input order:
   * rows returned in any other order put temp ids on the wrong entities.
   */
  lemma ZipNeedsInputOrder(entities: seq<ExtractedEntity>, returned: seq<EntityRow>)
    requires |entities| == |returned| && EntityIdsDistinct(returned) && TempIdsDistinct(entities)
    ensures var ids := TempIds(entities, returned, |entities|);
            && (forall i :: 0 <= i < |entities| ==> entities[i].tempId in ids)
            && ((forall i :: 0 <= i < |entities| ==>
                  ProfileOf(returned, |returned|, ids[entities[i].tempId]) == Some(entities[i].profile))
               <==> forall i :: 0 <= i < |entities| ==> returned[i].profile == entities[i].profile)
  {
    var ids := TempIds(entities, returned, |entities|);
    forall i | 0 <= i < |entities|
      ensures entities[i].tempId in ids
      ensures ProfileOf(returned, |returned|, ids[entities[i].tempId]) == Some(returned[i].profile)
    {
      LastRowIsMapped(entities, returned, |entities|, i);
      ProfileOfRow(returned, |returned|, i);
    }
  }
}
