/** Any number of consolidations: each message still reads from the final tables as it was stored. */
module ConsolidationHistory {
  import opened MemoryModel
  import opened MemoryStore
  import opened ConsolidationGraph
  import opened ConsolidationTheorems
  import opened ConsolidationService
  import opened ConsolidationIsolation

  /** One committed consolidation: what went in, what it added, and what it returned to the task. */
  datatype Consolidation = Consolidation(x: Extraction, added: Graph, result: ConsolidationResult, userId: Uuid)

  /** What every consolidation that succeeds leaves behind; see `MemoryTask.ConsolidateExtractedMemory`. */
  ghost predicate Recorded(c: Consolidation, t: Graph, messages: seq<MessageRow>) {
    && Consolidated(c.x, c.added, c.result.message.id, c.userId) && FreshFor(t, c.added)
    && c.result.message.id !in MessageIds(messages)
    && c.result.entities.GetOr([]) == c.added.entities && c.result.events.GetOr([]) == c.added.events
  }

  function TablesAfter(t: Graph, history: seq<Consolidation>, n: nat): Graph
    requires n <= |history|
  {
    if n == 0 then t else Append(TablesAfter(t, history, n - 1), history[n - 1].added)
  }

  function MessagesAfter(messages: seq<MessageRow>, history: seq<Consolidation>, n: nat): seq<MessageRow>
    requires n <= |history|
  {
    if n == 0 then messages else MessagesAfter(messages, history, n - 1) + [history[n - 1].result.message]
  }

  /** The first `n` consolidations of a history, from sound tables whose entities belong to known messages. */
  ghost predicate IsHistory(t: Graph, messages: seq<MessageRow>, history: seq<Consolidation>, n: nat)
    requires n <= |history|
  {
    if n == 0 then
      Sound(t) && forall i :: 0 <= i < |t.entities| ==> t.entities[i].messageId in MessageIds(messages)
    else
      && IsHistory(t, messages, history, n - 1)
      && Recorded(history[n - 1], TablesAfter(t, history, n - 1), MessagesAfter(messages, history, n - 1))
  }

  lemma {:induction false} HistorySoFar(
    t: Graph, messages: seq<MessageRow>, history: seq<Consolidation>, i: nat, n: nat)
    requires i <= n <= |history| && IsHistory(t, messages, history, n)
    ensures IsHistory(t, messages, history, i)
    ensures i < n ==> Recorded(history[i], TablesAfter(t, history, i), MessagesAfter(messages, history, i))
  {
    if i < n {
      HistorySoFar(t, messages, history, i, n - 1);
    }
  }

  lemma RecordedKeepsSound(c: Consolidation, t: Graph, messages: seq<MessageRow>)
    requires Sound(t) && Recorded(c, t, messages)
    ensures Sound(Append(t, c.added))
  {
    AppendKeepsSound(t, c.x, c.added, c.result.message.id, c.userId);
  }

  lemma {:induction false} HistoryStaysSound(
    t: Graph, messages: seq<MessageRow>, history: seq<Consolidation>, n: nat)
    requires n <= |history| && IsHistory(t, messages, history, n)
    ensures Sound(TablesAfter(t, history, n))
  {
    if n > 0 {
      HistoryStaysSound(t, messages, history, n - 1);
      RecordedKeepsSound(
        history[n - 1], TablesAfter(t, history, n - 1), MessagesAfter(messages, history, n - 1));
    }
  }

  /** Ids once handed out stay in use. */
  lemma {:induction false} IdsAccumulate(t: Graph, history: seq<Consolidation>, i: nat, n: nat)
    requires i < n <= |history|
    ensures EntityIds(history[i].added.entities) <= EntityIds(TablesAfter(t, history, n).entities)
    ensures EventIds(history[i].added.events) <= EventIds(TablesAfter(t, history, n).events)
  {
    IdsOfAppend(TablesAfter(t, history, n - 1), history[n - 1].added);
    if i < n - 1 {
      IdsAccumulate(t, history, i, n - 1);
    }
  }

  lemma RecordedKeepsEvents(c: Consolidation, t: Graph, messages: seq<MessageRow>, entityId: Uuid)
    requires Sound(t) && Recorded(c, t, messages)
    ensures entityId in EntityIds(t.entities) ==> EventsOf(Append(t, c.added), entityId) == EventsOf(t, entityId)
    ensures entityId in EntityIds(c.added.entities) ==>
              EventsOf(Append(t, c.added), entityId) == EventsOf(c.added, entityId)
  {
    ConsolidationsDoNotInterfere(t, c.x, c.added, c.result.message.id, c.userId, entityId);
  }

  lemma RecordedKeepsRelations(c: Consolidation, t: Graph, messages: seq<MessageRow>, ids: set<Uuid>)
    requires Sound(t) && Recorded(c, t, messages)
    ensures ids <= EntityIds(t.entities) ==> RelationsOf(Append(t, c.added), ids) == RelationsOf(t, ids)
    ensures ids <= EntityIds(c.added.entities) ==> RelationsOf(Append(t, c.added), ids) == RelationsOf(c.added, ids)
  {
    RelationsDoNotInterfere(t, c.x, c.added, c.result.message.id, c.userId, ids);
  }

  /** At every later time an entity has the events its consolidation stored. */
  lemma {:induction false} HistoryKeepsEvents(
    t: Graph, messages: seq<MessageRow>, history: seq<Consolidation>, i: nat, n: nat, entityId: Uuid)
    requires i < n <= |history| && IsHistory(t, messages, history, n)
    requires entityId in EntityIds(history[i].added.entities)
    ensures EventsOf(TablesAfter(t, history, n), entityId) == EventsOf(history[i].added, entityId)
  {
    var before := TablesAfter(t, history, n - 1);
    HistoryStaysSound(t, messages, history, n - 1);
    RecordedKeepsEvents(history[n - 1], before, MessagesAfter(messages, history, n - 1), entityId);
    if i < n - 1 {
      IdsAccumulate(t, history, i, n - 1);
      HistoryKeepsEvents(t, messages, history, i, n - 1, entityId);
    }
  }

  /** At every later time the entities of a consolidation have, between them, the relations it stored. */
  lemma {:induction false} HistoryKeepsRelations(
    t: Graph, messages: seq<MessageRow>, history: seq<Consolidation>, i: nat, n: nat, ids: set<Uuid>)
    requires i < n <= |history| && IsHistory(t, messages, history, n)
    requires ids <= EntityIds(history[i].added.entities)
    ensures RelationsOf(TablesAfter(t, history, n), ids) == RelationsOf(history[i].added, ids)
  {
    var before := TablesAfter(t, history, n - 1);
    HistoryStaysSound(t, messages, history, n - 1);
    RecordedKeepsRelations(history[n - 1], before, MessagesAfter(messages, history, n - 1), ids);
    if i < n - 1 {
      IdsAccumulate(t, history, i, n - 1);
      HistoryKeepsRelations(t, messages, history, i, n - 1, ids);
    }
  }

  // ---- Reading one message's graph from the final tables ----

  /** Of the first `n` entities, those of the message. */
  function OfMessage(rows: seq<EntityRow>, n: nat, messageId: nat): seq<EntityRow>
    requires n <= |rows|
  {
    if n == 0 then []
    else if rows[n - 1].messageId == messageId then OfMessage(rows, n - 1, messageId) + [rows[n - 1]]
    else OfMessage(rows, n - 1, messageId)
  }

  lemma {:induction false} OfMessagePrefix(rows: seq<EntityRow>, more: seq<EntityRow>, n: nat, messageId: nat)
    requires n <= |rows|
    ensures OfMessage(rows + more, n, messageId) == OfMessage(rows, n, messageId)
  {
    if n > 0 {
      OfMessagePrefix(rows, more, n - 1, messageId);
    }
  }

  lemma {:induction false} OfMessageConcat(rows: seq<EntityRow>, more: seq<EntityRow>, k: nat, messageId: nat)
    requires k <= |more|
    ensures OfMessage(rows + more, |rows| + k, messageId)
         == OfMessage(rows, |rows|, messageId) + OfMessage(more, k, messageId)
  {
    if k == 0 {
      OfMessagePrefix(rows, more, |rows|, messageId);
    } else {
      OfMessageConcat(rows, more, k - 1, messageId);
    }
  }

  lemma {:induction false} OfOneMessage(rows: seq<EntityRow>, n: nat, own: nat, messageId: nat)
    requires n <= |rows| && forall i :: 0 <= i < n ==> rows[i].messageId == own
    ensures OfMessage(rows, n, messageId) == if own == messageId then rows[..n] else []
  {
    if n > 0 {
      OfOneMessage(rows, n - 1, own, messageId);
    }
  }

  lemma {:induction false} OfUnknownMessage(rows: seq<EntityRow>, n: nat, messageId: nat)
    requires n <= |rows| && forall i :: 0 <= i < n ==> rows[i].messageId != messageId
    ensures OfMessage(rows, n, messageId) == []
  {
    if n > 0 {
      OfUnknownMessage(rows, n - 1, messageId);
    }
  }

  lemma {:induction false} MessageIdsAccumulate(
    messages: seq<MessageRow>, history: seq<Consolidation>, i: nat, n: nat)
    requires i < n <= |history|
    ensures history[i].result.message.id in MessageIds(MessagesAfter(messages, history, n))
  {
    MessageIdsSnoc(MessagesAfter(messages, history, n - 1), history[n - 1].result.message);
    if i < n - 1 {
      MessageIdsAccumulate(messages, history, i, n - 1);
    }
  }

  lemma MessageIdsSnoc(messages: seq<MessageRow>, row: MessageRow)
    ensures MessageIds(messages + [row]) == MessageIds(messages) + {row.id}
  {
    var more := messages + [row];
    forall id | id in MessageIds(messages) + {row.id} ensures id in MessageIds(more) {
      if i :| 0 <= i < |messages| && messages[i].id == id {
        assert more[i].id == id;
      } else {
        assert more[|messages|].id == id;
      }
    }
  }

  /** One more consolidation adds its own rows to what is read of its message, and nothing to any other. */
  lemma OfMessageStep(c: Consolidation, t: Graph, messages: seq<MessageRow>, messageId: nat)
    requires Recorded(c, t, messages)
    ensures var rows := Append(t, c.added).entities;
            OfMessage(rows, |rows|, messageId)
              == OfMessage(t.entities, |t.entities|, messageId)
                 + (if c.result.message.id == messageId then c.added.entities else [])
  {
    var own := c.added.entities;
    OfMessageConcat(t.entities, own, |own|, messageId);
    OfOneMessage(own, |own|, c.result.message.id, messageId);
    assert own[..|own|] == own;
  }

  lemma {:induction false} EarlierEntitiesOfOthers(
    t: Graph, messages: seq<MessageRow>, history: seq<Consolidation>, n: nat, messageId: nat)
    requires n <= |history| && IsHistory(t, messages, history, n)
    requires messageId !in MessageIds(MessagesAfter(messages, history, n))
    ensures var rows := TablesAfter(t, history, n).entities;
            OfMessage(rows, |rows|, messageId) == []
  {
    if n == 0 {
      OfUnknownMessage(t.entities, |t.entities|, messageId);
    } else {
      var before := MessagesAfter(messages, history, n - 1);
      MessageIdsSnoc(before, history[n - 1].result.message);
      EarlierEntitiesOfOthers(t, messages, history, n - 1, messageId);
      OfMessageStep(history[n - 1], TablesAfter(t, history, n - 1), before, messageId);
    }
  }

  /** The entities of a message are, at every later time, exactly the rows its consolidation stored, in order. */
  lemma {:induction false} EntitiesOfMessage(
    t: Graph, messages: seq<MessageRow>, history: seq<Consolidation>, i: nat, n: nat)
    requires i < n <= |history| && IsHistory(t, messages, history, n)
    ensures var rows := TablesAfter(t, history, n).entities;
            OfMessage(rows, |rows|, history[i].result.message.id) == history[i].added.entities
  {
    var id, before := history[i].result.message.id, MessagesAfter(messages, history, n - 1);
    OfMessageStep(history[n - 1], TablesAfter(t, history, n - 1), before, id);
    if i == n - 1 {
      EarlierEntitiesOfOthers(t, messages, history, n - 1, id);
    } else {
      MessageIdsAccumulate(messages, history, i, n - 1);
      EntitiesOfMessage(t, messages, history, i, n - 1);
    }
  }

  /** The graph of a message, read from whole tables: its entities, their events and the relations touching them. */
  function ReadMessage(t: Graph, messageId: nat, names: map<Uuid, int>): ReadGraph {
    var rows := OfMessage(t.entities, |t.entities|, messageId);
    ReadGraph(
      seq(|rows|, i requires 0 <= i < |rows| =>
        ReadEntity(NameOf(names, rows[i].id), rows[i].profile, EventsOf(t, rows[i].id))),
      ReadRelations(RelationsOf(t, EntityIds(rows)), names))
  }

  /** All relations a consolidation stored touch its own entities. */
  lemma OwnRelations(c: Consolidation, t: Graph, messages: seq<MessageRow>)
    requires Recorded(c, t, messages)
    ensures RelationsOf(c.added, EntityIds(c.added.entities)) == c.added.relations
  {
    ConstraintsAlwaysHold(c.x, c.added, c.result.message.id, c.userId);
    EverythingTouches(c.added.relations, |c.added.relations|, EntityIds(c.added.entities));
  }

  lemma ReadsAsStored(t: Graph, g: Graph, messageId: nat, names: map<Uuid, int>)
    requires OfMessage(t.entities, |t.entities|, messageId) == g.entities
    requires RelationsOf(t, EntityIds(g.entities)) == g.relations
    requires forall j :: 0 <= j < |g.entities| ==> EventsOf(t, g.entities[j].id) == EventsOf(g, g.entities[j].id)
    ensures ReadMessage(t, messageId, names) == ReadBack(g, names)
  {
  }

  /** Whatever was consolidated before and after it, a message reads from the full tables as it was stored. */
  lemma MessageReadsAsStored(
    t: Graph, messages: seq<MessageRow>, history: seq<Consolidation>, i: nat, n: nat, names: map<Uuid, int>)
    requires i < n <= |history| && IsHistory(t, messages, history, n)
    ensures ReadMessage(TablesAfter(t, history, n), history[i].result.message.id, names)
         == ReadBack(history[i].added, names)
  {
    var c, final := history[i], TablesAfter(t, history, n);
    HistorySoFar(t, messages, history, i, n);
    EntitiesOfMessage(t, messages, history, i, n);
    OwnRelations(c, TablesAfter(t, history, i), MessagesAfter(messages, history, i));
    HistoryKeepsRelations(t, messages, history, i, n, EntityIds(c.added.entities));
    forall j | 0 <= j < |c.added.entities|
      ensures EventsOf(final, c.added.entities[j].id) == EventsOf(c.added, c.added.entities[j].id)
    {
      HistoryKeepsEvents(t, messages, history, i, n, c.added.entities[j].id);
    }
    ReadsAsStored(final, c.added, c.result.message.id, names);
  }

  /**
   * So at every later time every message reads back from the full tables as its extraction, minus dangling edges and
   * self-loops, exactly when that extraction overrides no entity with events.
   */
  lemma HistoryRoundTripIff(
    t: Graph, messages: seq<MessageRow>, history: seq<Consolidation>, i: nat, n: nat)
    requires i < n <= |history| && IsHistory(t, messages, history, n)
    ensures var c, entities := history[i], history[i].x.entities.GetOr([]);
            && |entities| == |c.added.entities|
            && var names := RowNames(entities, c.added.entities, |entities|);
               var read := ReadMessage(TablesAfter(t, history, n), c.result.message.id, names);
               (read == Proper(c.x) <==> OverriddenListNothing(entities))
  {
    var c, entities := history[i], history[i].x.entities.GetOr([]);
    HistorySoFar(t, messages, history, i, n);
    MessageReadsAsStored(t, messages, history, i, n, RowNames(entities, c.added.entities, |entities|));
    GraphRoundTripIff(c.x, c.added, c.result.message.id, c.userId);
  }
}
