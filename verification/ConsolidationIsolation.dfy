/** One consolidation among others: what is read from the full tables is what was stored, before and after. */
module ConsolidationIsolation {
  import opened MemoryModel
  import opened MemoryStore
  import opened ConsolidationGraph
  import opened ConsolidationTheorems
  import opened ConsolidationService

  lemma {:induction false} FindInPrefix(rows: seq<EventRow>, more: seq<EventRow>, n: nat, id: Uuid)
    requires n <= |rows|
    ensures FindEvent(rows + more, n, id) == FindEvent(rows, n, id)
  {
    if n > 0 {
      FindInPrefix(rows, more, n - 1, id);
    }
  }

  lemma {:induction false} FindInConcat(rows: seq<EventRow>, more: seq<EventRow>, k: nat, id: Uuid)
    requires k <= |more|
    ensures FindEvent(rows + more, |rows| + k, id)
         == if FindEvent(more, k, id).Some? then FindEvent(more, k, id) else FindEvent(rows, |rows|, id)
  {
    if k == 0 {
      FindInPrefix(rows, more, |rows|, id);
    } else {
      FindInConcat(rows, more, k - 1, id);
    }
  }

  lemma {:induction false} FindIffListed(rows: seq<EventRow>, n: nat, id: Uuid)
    requires n <= |rows|
    ensures FindEvent(rows, n, id).Some? <==> exists i :: 0 <= i < n && rows[i].id == id
  {
    if n > 0 {
      FindIffListed(rows, n - 1, id);
    }
  }

  /** An event keeps being found after other events are added, and a new one is found at once. */
  lemma FindAfterAppend(t: Graph, g: Graph, id: Uuid)
    requires FreshFor(t, g)
    ensures id in EventIds(t.events) ==>
              FindEvent(t.events + g.events, |t.events + g.events|, id) == FindEvent(t.events, |t.events|, id)
    ensures id in EventIds(g.events) ==>
              FindEvent(t.events + g.events, |t.events + g.events|, id) == FindEvent(g.events, |g.events|, id)
  {
    FindInConcat(t.events, g.events, |g.events|, id);
    FindIffListed(g.events, |g.events|, id);
  }

  /** Entities already in the tables keep their events when a consolidation is added. */
  lemma {:induction false} OldEventsUndisturbed(t: Graph, g: Graph, n: nat, entityId: Uuid)
    requires Sound(t) && FreshFor(t, g) && n <= |t.links| && entityId in EntityIds(t.entities)
    ensures ReadEvents(Append(t, g), n, entityId) == ReadEvents(t, n, entityId)
  {
    if n > 0 {
      OldEventsUndisturbed(t, g, n - 1, entityId);
      FindAfterAppend(t, g, t.links[n - 1].eventId);
    }
  }

  /** The new links hang nothing on entities that were there before. */
  lemma {:induction false} NewLinksAvoidOld(t: Graph, g: Graph, k: nat, entityId: Uuid)
    requires FreshFor(t, g) && LinksRefer(g.links, g.entities, g.events)
    requires k <= |g.links| && entityId in EntityIds(t.entities)
    ensures ReadEvents(Append(t, g), |t.links| + k, entityId) == ReadEvents(Append(t, g), |t.links|, entityId)
  {
    if k > 0 {
      NewLinksAvoidOld(t, g, k - 1, entityId);
    }
  }

  /** The old links hang nothing on entities that are new. */
  lemma {:induction false} OldLinksAvoidNew(t: Graph, g: Graph, n: nat, entityId: Uuid)
    requires Sound(t) && FreshFor(t, g) && n <= |t.links| && entityId in EntityIds(g.entities)
    ensures ReadEvents(Append(t, g), n, entityId) == []
  {
    if n > 0 {
      OldLinksAvoidNew(t, g, n - 1, entityId);
    }
  }

  lemma {:induction false} NewEventsRead(t: Graph, g: Graph, k: nat, entityId: Uuid)
    requires Sound(t) && FreshFor(t, g) && LinksRefer(g.links, g.entities, g.events)
    requires k <= |g.links| && entityId in EntityIds(g.entities)
    ensures ReadEvents(Append(t, g), |t.links| + k, entityId) == ReadEvents(g, k, entityId)
  {
    if k == 0 {
      OldLinksAvoidNew(t, g, |t.links|, entityId);
    } else {
      NewEventsRead(t, g, k - 1, entityId);
      FindAfterAppend(t, g, g.links[k - 1].eventId);
    }
  }

  /** Adding a consolidation changes no event list read earlier, and its own lists read the same in the full tables. */
  lemma ConsolidationsDoNotInterfere(
    t: Graph, x: Extraction, g: Graph, messageId: nat, userId: Uuid, entityId: Uuid)
    requires Sound(t) && Consolidated(x, g, messageId, userId) && FreshFor(t, g)
    ensures entityId in EntityIds(t.entities) ==> EventsOf(Append(t, g), entityId) == EventsOf(t, entityId)
    ensures entityId in EntityIds(g.entities) ==> EventsOf(Append(t, g), entityId) == EventsOf(g, entityId)
  {
    ConstraintsAlwaysHold(x, g, messageId, userId);
    if entityId in EntityIds(t.entities) {
      OldEventsUndisturbed(t, g, |t.links|, entityId);
      NewLinksAvoidOld(t, g, |g.links|, entityId);
    }
    if entityId in EntityIds(g.entities) {
      NewEventsRead(t, g, |g.links|, entityId);
    }
  }

  // ---- Relations in the full table ----

  /** Of the first `n` relations, those with an end in `ids`; `find_by_entity` is the case of a single id. */
  function Touching(rows: seq<RelationRow>, n: nat, ids: set<Uuid>): seq<RelationRow>
    requires n <= |rows|
  {
    if n == 0 then []
    else if rows[n - 1].fromId in ids || rows[n - 1].toId in ids then Touching(rows, n - 1, ids) + [rows[n - 1]]
    else Touching(rows, n - 1, ids)
  }

  function RelationsOf(t: Graph, ids: set<Uuid>): seq<RelationRow> {
    Touching(t.relations, |t.relations|, ids)
  }

  lemma {:induction false} TouchingPrefix(rows: seq<RelationRow>, more: seq<RelationRow>, n: nat, ids: set<Uuid>)
    requires n <= |rows|
    ensures Touching(rows + more, n, ids) == Touching(rows, n, ids)
  {
    if n > 0 {
      TouchingPrefix(rows, more, n - 1, ids);
    }
  }

  lemma {:induction false} TouchingConcat(rows: seq<RelationRow>, more: seq<RelationRow>, k: nat, ids: set<Uuid>)
    requires k <= |more|
    ensures Touching(rows + more, |rows| + k, ids) == Touching(rows, |rows|, ids) + Touching(more, k, ids)
  {
    if k == 0 {
      TouchingPrefix(rows, more, |rows|, ids);
    } else {
      TouchingConcat(rows, more, k - 1, ids);
    }
  }

  lemma {:induction false} NothingTouches(rows: seq<RelationRow>, n: nat, ids: set<Uuid>)
    requires n <= |rows| && forall i :: 0 <= i < n ==> rows[i].fromId !in ids && rows[i].toId !in ids
    ensures Touching(rows, n, ids) == []
  {
    if n > 0 {
      NothingTouches(rows, n - 1, ids);
    }
  }

  lemma {:induction false} EverythingTouches(rows: seq<RelationRow>, n: nat, ids: set<Uuid>)
    requires n <= |rows| && forall i :: 0 <= i < n ==> rows[i].fromId in ids
    ensures Touching(rows, n, ids) == rows[..n]
  {
    if n > 0 {
      EverythingTouches(rows, n - 1, ids);
    }
  }

  /** Exactly the relations with one of the ids at either end are listed. */
  lemma {:induction false} TouchingExactly(rows: seq<RelationRow>, n: nat, ids: set<Uuid>, row: RelationRow)
    requires n <= |rows|
    ensures row in Touching(rows, n, ids) <==> row in rows[..n] && (row.fromId in ids || row.toId in ids)
  {
    if n > 0 {
      TouchingExactly(rows, n - 1, ids, row);
      assert rows[..n] == rows[..n - 1] + [rows[n - 1]];
    }
  }

  /** Ids in use and ids of a fresh consolidation have nothing in common. */
  lemma FreshIdsDisjoint(t: Graph, g: Graph)
    requires FreshFor(t, g)
    ensures EntityIds(t.entities) !! EntityIds(g.entities)
  {
  }

  /** Adding a consolidation changes no relation list read earlier, and its own read the same in the full table. */
  lemma RelationsDoNotInterfere(
    t: Graph, x: Extraction, g: Graph, messageId: nat, userId: Uuid, ids: set<Uuid>)
    requires Sound(t) && Consolidated(x, g, messageId, userId) && FreshFor(t, g)
    ensures ids <= EntityIds(t.entities) ==> RelationsOf(Append(t, g), ids) == RelationsOf(t, ids)
    ensures ids <= EntityIds(g.entities) ==> RelationsOf(Append(t, g), ids) == RelationsOf(g, ids)
  {
    ConstraintsAlwaysHold(x, g, messageId, userId);
    FreshIdsDisjoint(t, g);
    TouchingConcat(t.relations, g.relations, |g.relations|, ids);
    if ids <= EntityIds(t.entities) {
      NothingTouches(g.relations, |g.relations|, ids);
    }
    if ids <= EntityIds(g.entities) {
      NothingTouches(t.relations, |t.relations|, ids);
    }
  }

  // ---- uq_relationship ----

  /** uq_relationship: no two rows agree in both ends and in valid_from; `stamps` are the values of that column. */
  ghost predicate PairsAndStampsDistinct(rows: seq<RelationRow>, stamps: seq<int>)
    requires |stamps| == |rows|
  {
    forall k, l :: 0 <= k < l < |rows| ==>
      !(rows[k].fromId == rows[l].fromId && rows[k].toId == rows[l].toId && stamps[k] == stamps[l])
  }

  /** No two relations join the same temp ids in the same direction. */
  ghost predicate PairsDistinct(relations: seq<NamedRelation>) {
    forall k, l :: 0 <= k < l < |relations| ==>
      !(relations[k].from == relations[l].from && relations[k].to == relations[l].to)
  }

  lemma PairsAsExtracted(x: Extraction, g: Graph, messageId: nat, userId: Uuid, k: nat, l: nat)
    requires Consolidated(x, g, messageId, userId) && k < |g.relations| && l < |g.relations|
    ensures var related := x.relatedEntities.GetOr([]);
            var proper := ProperRelations(related, x.entities.GetOr([]), |related|);
            && |proper| == |g.relations|
            && (g.relations[k].fromId == g.relations[l].fromId && g.relations[k].toId == g.relations[l].toId <==>
                proper[k].from == proper[l].from && proper[k].to == proper[l].to)
  {
    var entities, related := x.entities.GetOr([]), x.relatedEntities.GetOr([]);
    StorableAreProper(related, entities, g.entities, |related|);
    TempIdsInjective(entities, g.entities);
  }

  /**
   * A consolidation meets uq_relationship whatever the clock reads at each insert exactly when its extraction relates
   * no two temp ids twice in the same direction; relations stored earlier never matter.
   */
  lemma UniqueUnderEveryClockIff(
    t: Graph, x: Extraction, g: Graph, messageId: nat, userId: Uuid, earlier: seq<int>)
    requires Sound(t) && Consolidated(x, g, messageId, userId) && FreshFor(t, g)
    requires |earlier| == |t.relations| && PairsAndStampsDistinct(t.relations, earlier)
    ensures var related := x.relatedEntities.GetOr([]);
            (forall stamps: seq<int> :: |stamps| == |g.relations| ==>
               PairsAndStampsDistinct(t.relations + g.relations, earlier + stamps))
            <==> PairsDistinct(ProperRelations(related, x.entities.GetOr([]), |related|))
  {
    var related := x.relatedEntities.GetOr([]);
    var proper := ProperRelations(related, x.entities.GetOr([]), |related|);
    RelationsRoundTrip(x, g, messageId, userId);
    if PairsDistinct(proper) {
      forall stamps: seq<int> | |stamps| == |g.relations|
        ensures PairsAndStampsDistinct(t.relations + g.relations, earlier + stamps)
      {
        DistinctPairsSuffice(t, x, g, messageId, userId, earlier, stamps);
      }
    } else {
      var k, l :| 0 <= k < l < |proper| && proper[k].from == proper[l].from && proper[k].to == proper[l].to;
      PairsAsExtracted(x, g, messageId, userId, k, l);
      RepeatedPairFails(t.relations, g.relations, earlier, seq(|g.relations|, _ => 0), k, l);
    }
  }

  /** Two rows with the same ends fail as soon as their inserts read the same time. */
  lemma RepeatedPairFails(
    rows: seq<RelationRow>, more: seq<RelationRow>, earlier: seq<int>, stamps: seq<int>, k: nat, l: nat)
    requires |earlier| == |rows| && |stamps| == |more| && k < l < |more| && stamps[k] == stamps[l]
    requires more[k].fromId == more[l].fromId && more[k].toId == more[l].toId
    ensures !PairsAndStampsDistinct(rows + more, earlier + stamps)
  {
    var n := |rows|;
    assert (rows + more)[n + k] == more[k] && (rows + more)[n + l] == more[l];
    assert (earlier + stamps)[n + k] == (earlier + stamps)[n + l];
  }

  lemma DistinctPairsSuffice(
    t: Graph, x: Extraction, g: Graph, messageId: nat, userId: Uuid, earlier: seq<int>, stamps: seq<int>)
    requires Sound(t) && Consolidated(x, g, messageId, userId) && FreshFor(t, g)
    requires |earlier| == |t.relations| && PairsAndStampsDistinct(t.relations, earlier)
    requires |stamps| == |g.relations|
    requires var related := x.relatedEntities.GetOr([]);
             PairsDistinct(ProperRelations(related, x.entities.GetOr([]), |related|))
    ensures PairsAndStampsDistinct(t.relations + g.relations, earlier + stamps)
  {
    ConstraintsAlwaysHold(x, g, messageId, userId);
    FreshIdsDisjoint(t, g);
    var n := |t.relations|;
    var rows := t.relations + g.relations;
    forall k, l | 0 <= k < l < |rows|
      ensures !(rows[k].fromId == rows[l].fromId && rows[k].toId == rows[l].toId
                && (earlier + stamps)[k] == (earlier + stamps)[l])
    {
      if n <= k {
        PairsAsExtracted(x, g, messageId, userId, k - n, l - n);
      }
    }
  }
}
