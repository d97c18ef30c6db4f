/** The embeddings table over any number of consolidations. */
module EmbeddingHistory {
  import opened Common
  import opened MemoryModel
  import opened MemoryStore
  import opened ConsolidationService
  import opened ConsolidationHistory
  import opened Embeddings
  import opened EmbeddingRoundTrip

  // ---- Keys in use ----

  /** The key names a row of the tables. */
  ghost predicate KeyKnown(key: Key, t: Graph, messages: seq<MessageRow>) {
    match key.kind
    case ENTITIES => key.uuid.Some? && key.uuid.value in EntityIds(t.entities)
    case EVENTS => key.uuid.Some? && key.uuid.value in EventIds(t.events)
    case RAW_MESSAGE => key.id.Some? && key.id.value in MessageIds(messages)
  }

  ghost predicate KeysKnown(rows: seq<EmbeddingRow>, t: Graph, messages: seq<MessageRow>) {
    forall row :: row in rows ==> KeyKnown(row.key, t, messages)
  }

  /** A consolidation's own sources are keyed by rows that were not there before it and are there after it. */
  lemma SourcesBecomeKnown(s: Setup, c: Consolidation, t: Graph, messages: seq<MessageRow>, k: nat)
    requires Recorded(c, t, messages) && k < |SourcesOf(s, c.result)|
    ensures var key := SourcesOf(s, c.result)[k].key;
            !KeyKnown(key, t, messages) && KeyKnown(key, Append(t, c.added), messages + [c.result.message])
  {
    IdsOfAppend(t, c.added);
    MessageIdsSnoc(messages, c.result.message);
    var entities, events, source := c.added.entities, c.added.events, SourcesOf(s, c.result)[k];
    if k < |entities| {
      assert source == EntitySource(s, entities[k]);
      assert entities[k].id in EntityIds(entities);
    } else if k < |entities| + |events| {
      assert source == EventSource(events[k - |entities|]);
      assert events[k - |entities|].id in EventIds(events);
    }
  }

  lemma KnownStaysKnown(key: Key, c: Consolidation, t: Graph, messages: seq<MessageRow>)
    requires KeyKnown(key, t, messages)
    ensures KeyKnown(key, Append(t, c.added), messages + [c.result.message])
  {
    IdsOfAppend(t, c.added);
    MessageIdsSnoc(messages, c.result.message);
  }

  // ---- The table after a history ----

  /** What the one batched call of a consolidation stores; see `BatchEqualsPerSource`. */
  ghost function BatchOf(s: Setup, c: Consolidation): seq<EmbeddingRow>
    requires OnePerText(s.lib.embed)
  {
    AllRowsAlone(s, c.userId, SourcesOf(s, c.result), |SourcesOf(s, c.result)|)
  }

  ghost function EmbeddingsAfter(
    s: Setup, rows: seq<EmbeddingRow>, history: seq<Consolidation>, n: nat): seq<EmbeddingRow>
    requires n <= |history| && OnePerText(s.lib.embed)
  {
    if n == 0 then rows else EmbeddingsAfter(s, rows, history, n - 1) + BatchOf(s, history[n - 1])
  }

  lemma BatchIsKeyedBySources(s: Setup, c: Consolidation, row: EmbeddingRow)
    requires OnePerText(s.lib.embed) && row in BatchOf(s, c)
    ensures exists k :: 0 <= k < |SourcesOf(s, c.result)| && SourcesOf(s, c.result)[k].key == row.key
  {
    var k :| 0 <= k < |BatchOf(s, c)| && BatchOf(s, c)[k] == row;
    KeyAmongEarlier(s, c.userId, SourcesOf(s, c.result), |SourcesOf(s, c.result)|, k);
  }

  lemma BatchKeys(s: Setup, c: Consolidation, t: Graph, messages: seq<MessageRow>, row: EmbeddingRow)
    requires OnePerText(s.lib.embed) && Recorded(c, t, messages) && row in BatchOf(s, c)
    ensures !KeyKnown(row.key, t, messages)
    ensures KeyKnown(row.key, Append(t, c.added), messages + [c.result.message])
  {
    BatchIsKeyedBySources(s, c, row);
    var k: nat :| k < |SourcesOf(s, c.result)| && SourcesOf(s, c.result)[k].key == row.key;
    SourcesBecomeKnown(s, c, t, messages, k);
  }

  lemma KnownAfterOneMore(
    s: Setup, rows: seq<EmbeddingRow>, c: Consolidation, t: Graph, messages: seq<MessageRow>)
    requires OnePerText(s.lib.embed) && Recorded(c, t, messages) && KeysKnown(rows, t, messages)
    ensures KeysKnown(rows + BatchOf(s, c), Append(t, c.added), messages + [c.result.message])
  {
    forall row | row in rows + BatchOf(s, c)
      ensures KeyKnown(row.key, Append(t, c.added), messages + [c.result.message])
    {
      if row in rows {
        KnownStaysKnown(row.key, c, t, messages);
      } else {
        BatchKeys(s, c, t, messages, row);
      }
    }
  }

  /** Every row of the table is keyed by a stored entity, event or message, at every time. */
  lemma {:induction false} KeysStayKnown(
    s: Setup, rows: seq<EmbeddingRow>, t: Graph, messages: seq<MessageRow>, history: seq<Consolidation>, n: nat)
    requires n <= |history| && IsHistory(t, messages, history, n) && OnePerText(s.lib.embed)
    requires KeysKnown(rows, t, messages)
    ensures KeysKnown(EmbeddingsAfter(s, rows, history, n), TablesAfter(t, history, n),
                      MessagesAfter(messages, history, n))
  {
    if n > 0 {
      KeysStayKnown(s, rows, t, messages, history, n - 1);
      KnownAfterOneMore(s, EmbeddingsAfter(s, rows, history, n - 1), history[n - 1],
                        TablesAfter(t, history, n - 1), MessagesAfter(messages, history, n - 1));
    }
  }

  lemma {:induction false} SourcesStayKnown(
    s: Setup, t: Graph, messages: seq<MessageRow>, history: seq<Consolidation>, i: nat, n: nat, k: nat)
    requires i < n <= |history| && IsHistory(t, messages, history, n) && k < |SourcesOf(s, history[i].result)|
    ensures KeyKnown(SourcesOf(s, history[i].result)[k].key, TablesAfter(t, history, n),
                     MessagesAfter(messages, history, n))
  {
    var u, ms := TablesAfter(t, history, n - 1), MessagesAfter(messages, history, n - 1);
    if i == n - 1 {
      SourcesBecomeKnown(s, history[i], u, ms, k);
    } else {
      SourcesStayKnown(s, t, messages, history, i, n - 1, k);
      KnownStaysKnown(SourcesOf(s, history[i].result)[k].key, history[n - 1], u, ms);
    }
  }

  /** No row of the table carries the key of any of the sources. */
  ghost predicate Unkeyed(rows: seq<EmbeddingRow>, sources: seq<Source>) {
    forall row, k :: row in rows && 0 <= k < |sources| ==> row.key != sources[k].key
  }

  lemma HoldsBatchConcat(
    before: seq<EmbeddingRow>, more: seq<EmbeddingRow>, batch: seq<EmbeddingRow>, sources: seq<Source>)
    ensures Unkeyed(before, sources) && more == batch ==> HoldsBatch(before + more, batch, sources)
    ensures HoldsBatch(before, batch, sources) && Unkeyed(more, sources) ==>
              HoldsBatch(before + more, batch, sources)
  {
  }

  lemma KnownAreUnkeyed(
    s: Setup, rows: seq<EmbeddingRow>, c: Consolidation, t: Graph, messages: seq<MessageRow>)
    requires Recorded(c, t, messages) && KeysKnown(rows, t, messages)
    ensures Unkeyed(rows, SourcesOf(s, c.result))
  {
    forall row, k | row in rows && 0 <= k < |SourcesOf(s, c.result)| ensures row.key != SourcesOf(s, c.result)[k].key {
      SourcesBecomeKnown(s, c, t, messages, k);
    }
  }

  lemma LaterBatchUnkeyed(
    s: Setup, t: Graph, messages: seq<MessageRow>, history: seq<Consolidation>, i: nat, n: nat)
    requires i < n < |history| && IsHistory(t, messages, history, n + 1) && OnePerText(s.lib.embed)
    ensures Unkeyed(BatchOf(s, history[n]), SourcesOf(s, history[i].result))
  {
    var sources := SourcesOf(s, history[i].result);
    forall row, k | row in BatchOf(s, history[n]) && 0 <= k < |sources| ensures row.key != sources[k].key {
      BatchKeys(s, history[n], TablesAfter(t, history, n), MessagesAfter(messages, history, n), row);
      SourcesStayKnown(s, t, messages, history, i, n, k);
    }
  }

  /** At every later time the rows keyed by the sources of a consolidation are those of its own batch. */
  lemma {:induction false} TableHoldsBatch(
    s: Setup, rows: seq<EmbeddingRow>, t: Graph, messages: seq<MessageRow>, history: seq<Consolidation>,
    i: nat, n: nat)
    requires i < n <= |history| && IsHistory(t, messages, history, n) && OnePerText(s.lib.embed)
    requires KeysKnown(rows, t, messages)
    ensures HoldsBatch(EmbeddingsAfter(s, rows, history, n), BatchOf(s, history[i]), SourcesOf(s, history[i].result))
  {
    var before, sources := EmbeddingsAfter(s, rows, history, n - 1), SourcesOf(s, history[i].result);
    if i == n - 1 {
      KeysStayKnown(s, rows, t, messages, history, i);
      KnownAreUnkeyed(s, before, history[i], TablesAfter(t, history, i), MessagesAfter(messages, history, i));
    } else {
      TableHoldsBatch(s, rows, t, messages, history, i, n - 1);
      LaterBatchUnkeyed(s, t, messages, history, i, n - 1);
    }
    HoldsBatchConcat(before, BatchOf(s, history[n - 1]), BatchOf(s, history[i]), sources);
  }

  // ---- Reading back ----

  /** The two lists hold the same rows, in whatever order and however often. */
  ghost predicate SameRows(x: seq<EmbeddingRow>, y: seq<EmbeddingRow>) {
    forall row :: row in x <==> row in y
  }

  /**
   * From extraction to embeddings: at every later time, from the full table in any order, every entity, every event
   * and the message of every consolidation get back exactly the vectors of their own kept chunks, in order.
   */
  lemma {:induction false} ConsolidatedChunksRoundTrip(
    s: Setup, rows: seq<EmbeddingRow>, t: Graph, messages: seq<MessageRow>, history: seq<Consolidation>,
    i: nat, n: nat, one: string -> Vector, stored: seq<EmbeddingRow>, k: nat)
    requires i < n <= |history| && IsHistory(t, messages, history, n) && KeysKnown(rows, t, messages)
    requires Pointwise(s.lib.embed, one) && SameRows(stored, EmbeddingsAfter(s, rows, history, n))
    requires k < |SourcesOf(s, history[i].result)|
    ensures var source := SourcesOf(s, history[i].result)[k];
            var chunks := Chunks(s, source.text);
            Reassemble(stored, source.key) == seq(|chunks|, j requires 0 <= j < |chunks| => Some(one(chunks[j])))
  {
    var c := history[i];
    HistorySoFar(t, messages, history, i, n);
    ConsolidationKeysDistinct(s, c.result);
    TableHoldsBatch(s, rows, t, messages, history, i, n);
    ChunksRoundTrip(s, c.userId, SourcesOf(s, c.result), one, stored, k);
  }

  /** Under the key the table holds the vectors of the chunks of the text, in order, and nothing else. */
  ghost predicate HoldsText(s: Setup, one: string -> Vector, stored: seq<EmbeddingRow>, key: Key, text: string) {
    var chunks := Chunks(s, text);
    && |Reassemble(stored, key)| == |chunks|
    && forall j :: 0 <= j < |chunks| ==> Reassemble(stored, key)[j] == Some(one(chunks[j]))
  }

  lemma {:induction false} SourcesHoldTheirTexts(
    s: Setup, rows: seq<EmbeddingRow>, t: Graph, messages: seq<MessageRow>, history: seq<Consolidation>,
    i: nat, n: nat, one: string -> Vector, stored: seq<EmbeddingRow>)
    requires i < n <= |history| && IsHistory(t, messages, history, n) && KeysKnown(rows, t, messages)
    requires Pointwise(s.lib.embed, one) && SameRows(stored, EmbeddingsAfter(s, rows, history, n))
    ensures var sources := SourcesOf(s, history[i].result);
            forall k :: 0 <= k < |sources| ==> HoldsText(s, one, stored, sources[k].key, sources[k].text)
  {
    var sources := SourcesOf(s, history[i].result);
    forall k | 0 <= k < |sources| ensures HoldsText(s, one, stored, sources[k].key, sources[k].text) {
      ConsolidatedChunksRoundTrip(s, rows, t, messages, history, i, n, one, stored, k);
    }
  }

  /** Every entity, event and message holds its own text. */
  ghost predicate TextsHeld(
    s: Setup, one: string -> Vector, stored: seq<EmbeddingRow>, entities: seq<EntityRow>, events: seq<EventRow>,
    message: MessageRow)
  {
    && (forall k :: 0 <= k < |entities| ==>
         HoldsText(s, one, stored, Key(ENTITIES, Some(entities[k].id), None), s.lib.canonicalText(entities[k])))
    && (forall k :: 0 <= k < |events| ==>
         HoldsText(s, one, stored, Key(EVENTS, Some(events[k].id), None), events[k].event.summary))
    && HoldsText(s, one, stored, Key(RAW_MESSAGE, None, Some(message.id)), message.content)
  }

  /** What holds of every source of a result holds of each text with its key. */
  lemma TextsOfResult(
    s: Setup, r: ConsolidationResult, entities: seq<EntityRow>, events: seq<EventRow>, p: (Key, string) -> bool)
    requires r.entities.GetOr([]) == entities && r.events.GetOr([]) == events
    requires var sources := SourcesOf(s, r);
             forall k :: 0 <= k < |sources| ==> p(sources[k].key, sources[k].text)
    ensures forall k :: 0 <= k < |entities| ==>
              p(Key(ENTITIES, Some(entities[k].id), None), s.lib.canonicalText(entities[k]))
    ensures forall k :: 0 <= k < |events| ==> p(Key(EVENTS, Some(events[k].id), None), events[k].event.summary)
    ensures p(Key(RAW_MESSAGE, None, Some(r.message.id)), r.message.content)
  {
    SourcesInOrder(s, r);
    var sources := SourcesOf(s, r);
    assert p(sources[|sources| - 1].key, sources[|sources| - 1].text);
    forall k | 0 <= k < |entities|
      ensures p(Key(ENTITIES, Some(entities[k].id), None), s.lib.canonicalText(entities[k]))
    {
      assert p(sources[k].key, sources[k].text);
    }
    forall k | 0 <= k < |events| ensures p(Key(EVENTS, Some(events[k].id), None), events[k].event.summary) {
      assert p(sources[|entities| + k].key, sources[|entities| + k].text);
    }
  }

  /**
   * What is embedded for whom: an entity has the vectors of its canonical text, an event those of its summary and a
   * message those of its content, at every later time and from the full table in any order.
   */
  lemma {:induction false} EveryTextIsEmbedded(
    s: Setup, rows: seq<EmbeddingRow>, t: Graph, messages: seq<MessageRow>, history: seq<Consolidation>,
    i: nat, n: nat, one: string -> Vector, stored: seq<EmbeddingRow>)
    requires i < n <= |history| && IsHistory(t, messages, history, n) && KeysKnown(rows, t, messages)
    requires Pointwise(s.lib.embed, one) && SameRows(stored, EmbeddingsAfter(s, rows, history, n))
    ensures TextsHeld(
              s, one, stored, history[i].added.entities, history[i].added.events, history[i].result.message)
  {
    HistorySoFar(t, messages, history, i, n);
    SourcesHoldTheirTexts(s, rows, t, messages, history, i, n, one, stored);
    TextsOfResult(s, history[i].result, history[i].added.entities, history[i].added.events,
                  (key, text) => HoldsText(s, one, stored, key, text));
  }
}
