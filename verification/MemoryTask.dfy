/** `consolidate_extracted_memory`: consolidation and embeddings in one transaction. */
module MemoryTask {
  import opened Common
  import opened MemoryModel
  import opened MemoryStore
  import opened ConsolidationService
  import opened ConsolidationHistory
  import opened Embeddings
  import opened EmbeddingRoundTrip
  import opened EmbeddingHistory

  /** The tables and the messages hold one more consolidation, and the embeddings table its rows in input order. */
  ghost predicate OneMore(
    s: Setup, c: Consolidation, t: Graph, messages: seq<MessageRow>, rows: seq<StoredEmbedding>,
    t': Graph, messages': seq<MessageRow>, rows': seq<StoredEmbedding>)
  {
    var sources := SourcesOf(s, c.result);
    var entries := Entries(s, sources, |sources|);
    var vectors := s.lib.embed(Texts(entries));
    && Recorded(c, t, messages)
    && t' == Append(t, c.added) && messages' == messages + [c.result.message]
    && WellIndexed(entries, sources) && |entries| <= |vectors|
    && Drafts(rows') == Drafts(rows) + RowsFor(s, c.userId, sources, entries, vectors)
  }

  /** The API answered with enough vectors, and the insert of the rows, if there are any, is not refused. */
  predicate EmbeddingsPass(s: Setup, r: ConsolidationResult, refused: bool) {
    var entries := Entries(s, SourcesOf(s, r), |SourcesOf(s, r)|);
    |entries| <= |s.lib.embed(Texts(entries))| && (entries == [] || !refused)
  }

  lemma ResultIsOneMore(
    service: ConsolidationService, s: Setup, c: Consolidation, content: string, t: Graph, messages: seq<MessageRow>,
    rows: seq<StoredEmbedding>, created: seq<StoredEmbedding>)
    requires service.Appended(messages, t, c.x, content, c.result, c.added) && c.userId == service.userId
    requires var entries := Entries(s, SourcesOf(s, c.result), |SourcesOf(s, c.result)|);
             var vectors := s.lib.embed(Texts(entries));
             && WellIndexed(entries, SourcesOf(s, c.result)) && |entries| <= |vectors|
             && Drafts(created) == RowsFor(s, c.userId, SourcesOf(s, c.result), entries, vectors)
    ensures c.result.message == MessageRow(c.result.message.id, content, c.userId)
    ensures OneMore(
              s, c, t, messages, rows, Append(t, c.added), messages + [c.result.message], rows + created)
  {
    assert Drafts(rows + created) == Drafts(rows) + Drafts(created);
  }

  /** The embedding service as the task creates it, with every argument left to its default. */
  function TaskSetup(lib: Library): Setup {
    Setup("text-embedding-3-small", "openai", 800, 200, 50, lib)
  }

  /** The body of the task: the consolidation, then the embeddings of its result. */
  method ConsolidateAndEmbed(
    store: Store, table: EmbeddingTable, lib: Library, userId: Uuid, x: Extraction, rawMessage: string,
    refusals: Refusals, embeddingsRefused: bool)
    returns (ok: bool, ghost c: Consolidation)
    requires Sound(store.Tables())
    modifies store, table
    ensures old(table.Valid()) ==> table.Valid()
    ensures c.x == x && c.userId == userId
    ensures ok <==> NothingRefused(x, refusals) && EmbeddingsPass(TaskSetup(lib), c.result, embeddingsRefused)
    ensures !ok ==> table.rows == old(table.rows)
    ensures ok ==>
              && c.result.message == MessageRow(c.result.message.id, rawMessage, userId) && Sound(store.Tables())
              && OneMore(TaskSetup(lib), c, old(store.Tables()), old(store.messages), old(table.rows),
                         store.Tables(), store.messages, table.rows)
  {
    ghost var t, messages, rows := store.Tables(), store.messages, table.rows;
    var consolidation := new ConsolidationService(store, userId);
    var result, added := consolidation.Consolidate(x, rawMessage, refusals);
    if result.None? {
      c := Consolidation(x, added, ConsolidationResult(MessageRow(0, "", 0), None, None), userId);
      return false, c;
    }
    c := Consolidation(x, added, result.value, userId);
    var embeddings := new EmbeddingGeneratorService(lib);
    var outcome := embeddings.GenerateConsolidationEmbeddings(result.value, userId, table, embeddingsRefused);
    ok := outcome.Stored?;
    if ok {
      ResultIsOneMore(consolidation, embeddings.setup, c, rawMessage, t, messages, rows, outcome.created);
    }
  }

  /** Inside session.begin(): any error, in the consolidation or in the embeddings, leaves every table as it was. */
  method ConsolidateExtractedMemory(
    store: Store, table: EmbeddingTable, lib: Library, userId: Uuid, x: Extraction, rawMessage: string,
    refusals: Refusals, embeddingsRefused: bool)
    returns (ok: bool, ghost c: Consolidation)
    requires Sound(store.Tables())
    modifies store, table
    ensures old(table.Valid()) ==> table.Valid()
    ensures Sound(store.Tables()) && c.x == x && c.userId == userId
    ensures ok <==> NothingRefused(x, refusals) && EmbeddingsPass(TaskSetup(lib), c.result, embeddingsRefused)
    ensures ok ==>
              && c.result.message == MessageRow(c.result.message.id, rawMessage, userId)
              && OneMore(TaskSetup(lib), c, old(store.Tables()), old(store.messages), old(table.rows),
                         store.Tables(), store.messages, table.rows)
    ensures !ok ==>
              && store.Tables() == old(store.Tables()) && store.messages == old(store.messages)
              && table.rows == old(table.rows)
  {
    var messages, entities, events, links, relations :=
      store.messages, store.entities, store.events, store.links, store.relations;
    ok, c := ConsolidateAndEmbed(store, table, lib, userId, x, rawMessage, refusals, embeddingsRefused);
    if !ok {
      store.messages, store.entities, store.events := messages, entities, events;
      store.links, store.relations := links, relations;
    }
  }

  // ---- Task runs make histories ----

  lemma {:induction false} HistoryPrefix(
    s: Setup, rows: seq<EmbeddingRow>, t: Graph, messages: seq<MessageRow>, history: seq<Consolidation>,
    c: Consolidation, n: nat)
    requires n <= |history| && OnePerText(s.lib.embed)
    ensures TablesAfter(t, history + [c], n) == TablesAfter(t, history, n)
    ensures MessagesAfter(messages, history + [c], n) == MessagesAfter(messages, history, n)
    ensures EmbeddingsAfter(s, rows, history + [c], n) == EmbeddingsAfter(s, rows, history, n)
    ensures IsHistory(t, messages, history, n) ==> IsHistory(t, messages, history + [c], n)
  {
    if n > 0 {
      HistoryPrefix(s, rows, t, messages, history, c, n - 1);
    }
  }

  /** What the tables, the messages and the embeddings table hold after a history. */
  ghost predicate Holds(
    s: Setup, t0: Graph, messages0: seq<MessageRow>, rows0: seq<EmbeddingRow>, history: seq<Consolidation>,
    t: Graph, messages: seq<MessageRow>, rows: seq<StoredEmbedding>)
    requires OnePerText(s.lib.embed)
  {
    && IsHistory(t0, messages0, history, |history|)
    && t == TablesAfter(t0, history, |history|)
    && messages == MessagesAfter(messages0, history, |history|)
    && Drafts(rows) == EmbeddingsAfter(s, rows0, history, |history|)
  }

  /** A task run that succeeds on what a history left makes the history one longer, in all the tables. */
  lemma RunExtendsHistory(
    s: Setup, t0: Graph, messages0: seq<MessageRow>, rows0: seq<EmbeddingRow>, history: seq<Consolidation>,
    t: Graph, messages: seq<MessageRow>, rows: seq<StoredEmbedding>, c: Consolidation,
    t': Graph, messages': seq<MessageRow>, rows': seq<StoredEmbedding>, one: string -> Vector)
    requires Pointwise(s.lib.embed, one)
    requires Holds(s, t0, messages0, rows0, history, t, messages, rows)
    requires OneMore(s, c, t, messages, rows, t', messages', rows')
    ensures Holds(s, t0, messages0, rows0, history + [c], t', messages', rows')
  {
    HistoryPrefix(s, rows0, t0, messages0, history, c, |history|);
    BatchEqualsPerSource(s, c.userId, SourcesOf(s, c.result), one);
  }

  /**
   * After any number of task runs, the full embeddings table holds for every entity its canonical text, for every
   * event its summary and for every message its content, each chunk by chunk and in order.
   */
  lemma {:induction false} TaskRunsEmbedEveryText(
    s: Setup, t0: Graph, messages0: seq<MessageRow>, rows0: seq<EmbeddingRow>, history: seq<Consolidation>,
    t: Graph, messages: seq<MessageRow>, rows: seq<StoredEmbedding>, one: string -> Vector, i: nat)
    requires Pointwise(s.lib.embed, one) && KeysKnown(rows0, t0, messages0) && i < |history|
    requires Holds(s, t0, messages0, rows0, history, t, messages, rows)
    ensures TextsHeld(
              s, one, Drafts(rows), history[i].added.entities, history[i].added.events, history[i].result.message)
  {
    EveryTextIsEmbedded(s, rows0, t0, messages0, history, i, |history|, one, Drafts(rows));
  }
}
