/** The tables behind the repositories (src/domain/memory/repositories.py), with the constraints of the models. */
module MemoryStore {
  import opened MemoryModel

  // ---- Rows before they have an id ----

  datatype EntityDraft = EntityDraft(profile: Profile, messageId: nat, userId: Uuid)
  datatype EventDraft = EventDraft(event: ExtractedEvent, messageId: nat, userId: Uuid)
  datatype RelationDraft = RelationDraft(fromId: Uuid, toId: Uuid, relType: string, userId: Uuid)

  function RowOfDraft(id: Uuid, draft: RelationDraft): RelationRow {
    RelationRow(id, draft.fromId, draft.toId, draft.relType, draft.userId)
  }

  /** The keys among entities, events, links and relations, and the ban on self-relations. */
  ghost predicate Sound(t: Graph) {
    && EntityIdsDistinct(t.entities) && EventIdsDistinct(t.events) && RelationIdsDistinct(t.relations)
    && LinksRefer(t.links, t.entities, t.events) && LinksDistinct(t.links)
    && RelationsRefer(t.relations, t.entities)
  }

  function Append(t: Graph, g: Graph): Graph {
    Graph(t.entities + g.entities, t.events + g.events, t.links + g.links, t.relations + g.relations)
  }

  // ---- uuid4 ----

  lemma {:induction false} UpperBound(used: set<Uuid>) returns (bound: nat)
    ensures forall u :: u in used ==> u < bound
    decreases |used|
  {
    if used == {} {
      bound := 0;
    } else {
      var u :| u in used;
      var rest := UpperBound(used - {u});
      bound := if rest > u then rest else u + 1;
      assert used == used - {u} + {u};
    }
  }

  /** A new primary key: nothing is known of it except that it is not taken. */
  method FreshId(used: set<Uuid>) returns (id: Uuid)
    ensures id !in used
  {
    ghost var bound := UpperBound(used);
    assert bound !in used;
    id :| id !in used;
  }

  /** `n` new primary keys, each generated on its own. */
  method FreshIds(used: set<Uuid>, n: nat) returns (ids: seq<Uuid>)
    ensures |ids| == n
    ensures forall i :: 0 <= i < n ==> ids[i] !in used
    ensures forall i, j :: 0 <= i < j < n ==> ids[i] != ids[j]
  {
    ids := [];
    var taken := used;
    while |ids| < n
      invariant |ids| <= n && used <= taken
      invariant forall i :: 0 <= i < |ids| ==> ids[i] in taken && ids[i] !in used
      invariant forall i, j :: 0 <= i < j < |ids| ==> ids[i] != ids[j]
    {
      var id := FreshId(taken);
      ids := ids + [id];
      taken := taken + {id};
    }
  }

  class Store {
    var messages: seq<MessageRow>
    var entities: seq<EntityRow>
    var events: seq<EventRow>
    var links: seq<LinkRow>
    var relations: seq<RelationRow>

    constructor ()
      ensures messages == [] && Tables() == Graph([], [], [], []) && Sound(Tables())
    {
      messages, entities, events, links, relations := [], [], [], [], [];
    }

    function Tables(): Graph
      reads this
    {
      Graph(entities, events, links, relations)
    }

    // In every insert `refused` stands for the reasons outside this model for which the database raises:
    // column types and lengths, the importance checks, rows of users, and what rests on the clock.

    method CreateMessage(content: string, userId: Uuid, refused: bool) returns (ok: bool, row: MessageRow)
      modifies this`messages
      ensures ok == !refused
      ensures messages == if ok then old(messages) + [row] else old(messages)
      ensures row == MessageRow(row.id, content, userId)
      ensures row.id !in MessageIds(old(messages))
    {
      var id := FreshId(MessageIds(messages));
      row := MessageRow(id, content, userId);
      ok := !refused;
      if ok {
        messages := messages + [row];
      }
    }

    /** INSERT ... RETURNING. That the rows come back in the order of the input is part of this contract. */
    method BulkCreateEntities(drafts: seq<EntityDraft>, refused: bool) returns (ok: bool, created: seq<EntityRow>)
      modifies this`entities
      ensures ok == !refused
      ensures entities == if ok then old(entities) + created else old(entities)
      ensures |created| == |drafts| && EntityIdsDistinct(created)
      ensures forall i :: 0 <= i < |created| ==>
                && created[i].id !in EntityIds(old(entities))
                && created[i] == EntityRow(created[i].id, drafts[i].profile, drafts[i].messageId, drafts[i].userId)
    {
      var ids := FreshIds(EntityIds(entities), |drafts|);
      created := seq(|drafts|, i requires 0 <= i < |drafts| =>
        EntityRow(ids[i], drafts[i].profile, drafts[i].messageId, drafts[i].userId));
      ok := !refused;
      if ok {
        entities := entities + created;
      }
    }

    /** INSERT ... RETURNING, rows in input order. */
    method BulkCreateEvents(drafts: seq<EventDraft>, refused: bool) returns (ok: bool, created: seq<EventRow>)
      modifies this`events
      ensures ok == !refused
      ensures events == if ok then old(events) + created else old(events)
      ensures |created| == |drafts| && EventIdsDistinct(created)
      ensures forall i :: 0 <= i < |created| ==>
                && created[i].id !in EventIds(old(events))
                && created[i] == EventRow(created[i].id, drafts[i].event, drafts[i].messageId, drafts[i].userId)
    {
      var ids := FreshIds(EventIds(events), |drafts|);
      created := seq(|drafts|, i requires 0 <= i < |drafts| =>
        EventRow(ids[i], drafts[i].event, drafts[i].messageId, drafts[i].userId));
      ok := !refused;
      if ok {
        events := events + created;
      }
    }

    /** Inserts the links, or raises an error and inserts none. */
    method BulkLinkEntities(rows: seq<LinkRow>, refused: bool) returns (ok: bool)
      modifies this`links
      ensures ok <==> !refused && LinksRefer(rows, entities, events) && LinksDistinct(old(links) + rows)
      ensures links == if ok then old(links) + rows else old(links)
    {
      ok := !refused && LinksRefer(rows, entities, events) && LinksDistinct(links + rows);
      if ok {
        links := links + rows;
      }
    }

    /** Inserts the relations under new ids, or raises an error and inserts none. */
    method BulkCreateRelations(drafts: seq<RelationDraft>, refused: bool)
      returns (ok: bool, created: seq<RelationRow>)
      modifies this`relations
      ensures |created| == |drafts| && RelationIdsDistinct(created)
      ensures forall i :: 0 <= i < |created| ==>
                && created[i].id !in RelationIds(old(relations))
                && created[i] == RowOfDraft(created[i].id, drafts[i])
      ensures ok <==> !refused && RelationsRefer(created, entities)
      ensures relations == if ok then old(relations) + created else old(relations)
    {
      var ids := FreshIds(RelationIds(relations), |drafts|);
      created := seq(|drafts|, i requires 0 <= i < |drafts| => RowOfDraft(ids[i], drafts[i]));
      ok := !refused && RelationsRefer(created, entities);
      if ok {
        relations := relations + created;
      }
    }
  }
}
