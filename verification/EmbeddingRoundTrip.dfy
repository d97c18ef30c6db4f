/** One batched call against one call per source, and reading the chunks of a source back from the rows. */
module EmbeddingRoundTrip {
  import opened Common
  import opened MemoryModel
  import opened ConsolidationService
  import opened Embeddings

  // ---- Batch equals per source ----

  /** The API embeds each text by itself and answers in the order of its input. */
  ghost predicate Pointwise(embed: seq<string> -> seq<Vector>, one: string -> Vector) {
    OnePerText(embed) && forall texts: seq<string> {:trigger embed(texts)} :: Agrees(embed(texts), texts, one)
  }

  ghost predicate OnePerText(embed: seq<string> -> seq<Vector>) {
    forall texts: seq<string> {:trigger embed(texts)} :: |embed(texts)| == |texts|
  }

  ghost predicate Agrees(vectors: seq<Vector>, texts: seq<string>, one: string -> Vector) {
    |vectors| == |texts| && forall k :: 0 <= k < |texts| ==> vectors[k] == one(texts[k])
  }

  /** The reference: split this source alone, embed its chunks in a call of their own, make its rows. */
  ghost function RowsAlone(s: Setup, userId: Uuid, source: Source): seq<EmbeddingRow>
    requires OnePerText(s.lib.embed)
  {
    var chunks := Chunks(s, source.text);
    var vectors := s.lib.embed(chunks);
    seq(|chunks|, j requires 0 <= j < |chunks| => RowOf(s, userId, source.key, j, |chunks|, vectors[j]))
  }

  ghost function AllRowsAlone(s: Setup, userId: Uuid, sources: seq<Source>, n: nat): seq<EmbeddingRow>
    requires n <= |sources| && OnePerText(s.lib.embed)
  {
    if n == 0 then [] else AllRowsAlone(s, userId, sources, n - 1) + RowsAlone(s, userId, sources[n - 1])
  }

  /** The rows of a list of entries when every text is embedded on its own. */
  ghost function PointRows(
    s: Setup, userId: Uuid, sources: seq<Source>, entries: seq<Entry>, one: string -> Vector): seq<EmbeddingRow>
    requires WellIndexed(entries, sources)
  {
    seq(|entries|, k requires 0 <= k < |entries| =>
      RowOf(s, userId, sources[entries[k].sourceIndex].key, entries[k].chunkIndex, entries[k].totalChunks,
            one(entries[k].text)))
  }

  lemma PointRowsConcat(
    s: Setup, userId: Uuid, sources: seq<Source>, x: seq<Entry>, y: seq<Entry>, one: string -> Vector)
    requires WellIndexed(x, sources) && WellIndexed(y, sources)
    ensures WellIndexed(x + y, sources)
    ensures PointRows(s, userId, sources, x + y, one)
         == PointRows(s, userId, sources, x, one) + PointRows(s, userId, sources, y, one)
  {
  }

  lemma PointRowsOfOne(s: Setup, userId: Uuid, sources: seq<Source>, i: nat, one: string -> Vector)
    requires i < |sources| && Pointwise(s.lib.embed, one)
    ensures WellIndexed(EntriesOf(s, sources, i), sources)
    ensures PointRows(s, userId, sources, EntriesOf(s, sources, i), one) == RowsAlone(s, userId, sources[i])
  {
  }

  lemma PointRowsStep(s: Setup, userId: Uuid, sources: seq<Source>, n: nat, one: string -> Vector)
    requires 0 < n <= |sources| && Pointwise(s.lib.embed, one)
    requires WellIndexed(Entries(s, sources, n - 1), sources)
    ensures WellIndexed(Entries(s, sources, n), sources)
    ensures PointRows(s, userId, sources, Entries(s, sources, n), one)
         == PointRows(s, userId, sources, Entries(s, sources, n - 1), one) + RowsAlone(s, userId, sources[n - 1])
  {
    PointRowsOfOne(s, userId, sources, n - 1, one);
    PointRowsConcat(s, userId, sources, Entries(s, sources, n - 1), EntriesOf(s, sources, n - 1), one);
  }

  lemma {:induction false} PointRowsAreAlone(
    s: Setup, userId: Uuid, sources: seq<Source>, n: nat, one: string -> Vector)
    requires n <= |sources| && Pointwise(s.lib.embed, one)
    ensures WellIndexed(Entries(s, sources, n), sources)
    ensures PointRows(s, userId, sources, Entries(s, sources, n), one) == AllRowsAlone(s, userId, sources, n)
  {
    if n == 0 {
      assert PointRows(s, userId, sources, [], one) == [];
    } else {
      PointRowsAreAlone(s, userId, sources, n - 1, one);
      PointRowsStep(s, userId, sources, n, one);
    }
  }

  /** The one flattened call yields, in order, the rows each source would have got from a call of its own. */
  lemma BatchEqualsPerSource(
    s: Setup, userId: Uuid, sources: seq<Source>, one: string -> Vector)
    requires Pointwise(s.lib.embed, one)
    ensures var entries := Entries(s, sources, |sources|);
            && WellIndexed(entries, sources)
            && |s.lib.embed(Texts(entries))| == |entries|
            && RowsFor(s, userId, sources, entries, s.lib.embed(Texts(entries)))
                 == AllRowsAlone(s, userId, sources, |sources|)
  {
    var entries := Entries(s, sources, |sources|);
    PointRowsAreAlone(s, userId, sources, |sources|, one);
    assert RowsFor(s, userId, sources, entries, s.lib.embed(Texts(entries)))
        == PointRows(s, userId, sources, entries, one);
  }

  // ---- Which rows there are ----

  /** Row `j` of source `i`. */
  ghost predicate IsRowOf(s: Setup, userId: Uuid, source: Source, one: string -> Vector, j: nat, row: EmbeddingRow) {
    var chunks := Chunks(s, source.text);
    j < |chunks| && row == RowOf(s, userId, source.key, j, |chunks|, one(chunks[j]))
  }

  /** Row of one of the first `n` sources. */
  ghost predicate IsRowAmong(
    s: Setup, userId: Uuid, sources: seq<Source>, n: nat, one: string -> Vector, row: EmbeddingRow)
    requires n <= |sources|
  {
    exists i: nat, j: nat :: i < n && IsRowOf(s, userId, sources[i], one, j, row)
  }

  ghost predicate IsRowOfSource(s: Setup, userId: Uuid, source: Source, one: string -> Vector, row: EmbeddingRow) {
    exists j: nat :: IsRowOf(s, userId, source, one, j, row)
  }

  lemma AmongOneMore(
    s: Setup, userId: Uuid, sources: seq<Source>, n: nat, one: string -> Vector, row: EmbeddingRow)
    requires 0 < n <= |sources|
    ensures IsRowAmong(s, userId, sources, n, one, row) <==>
              IsRowAmong(s, userId, sources, n - 1, one, row)
              || IsRowOfSource(s, userId, sources[n - 1], one, row)
  {
  }

  lemma {:induction false} RowsAreSourceRows(
    s: Setup, userId: Uuid, sources: seq<Source>, n: nat, one: string -> Vector, row: EmbeddingRow)
    requires n <= |sources| && Pointwise(s.lib.embed, one)
    ensures row in AllRowsAlone(s, userId, sources, n) <==> IsRowAmong(s, userId, sources, n, one, row)
  {
    if n > 0 {
      var before, own := AllRowsAlone(s, userId, sources, n - 1), RowsAlone(s, userId, sources[n - 1]);
      RowsAreSourceRows(s, userId, sources, n - 1, one, row);
      OneSourceRows(s, userId, sources[n - 1], one, row);
      AmongOneMore(s, userId, sources, n, one, row);
      assert row in before + own <==> row in before || row in own;
    }
  }

  lemma OneSourceRows(
    s: Setup, userId: Uuid, source: Source, one: string -> Vector, row: EmbeddingRow)
    requires Pointwise(s.lib.embed, one)
    ensures row in RowsAlone(s, userId, source) <==> IsRowOfSource(s, userId, source, one, row)
  {
    var alone, chunks := RowsAlone(s, userId, source), Chunks(s, source.text);
    assert Agrees(s.lib.embed(chunks), chunks, one);
    if j: nat :| IsRowOf(s, userId, source, one, j, row) {
      assert alone[j] == row;
    }
    if row in alone {
      var j :| 0 <= j < |alone| && alone[j] == row;
      assert IsRowOf(s, userId, source, one, j, row);
    }
  }

  // ---- Reading back ----

  ghost predicate KeysDistinct(sources: seq<Source>) {
    forall i, j :: 0 <= i < j < |sources| ==> sources[i].key != sources[j].key
  }

  /** Position of a chunk in its source; NULL stands for the only chunk. */
  function Position(row: EmbeddingRow): nat {
    row.chunkIndex.GetOr(0)
  }

  /** Some row with the key and position among the first `n`. */
  function FindRow(rows: seq<EmbeddingRow>, n: nat, key: Key, position: nat): Option<EmbeddingRow>
    requires n <= |rows|
  {
    if n == 0 then None
    else if rows[n - 1].key == key && Position(rows[n - 1]) == position then Some(rows[n - 1])
    else FindRow(rows, n - 1, key, position)
  }

  /** The chunk vectors of one embeddable, put in order by chunk_index and counted by total_chunks. */
  function Reassemble(rows: seq<EmbeddingRow>, key: Key): seq<Option<Vector>> {
    var first := FindRow(rows, |rows|, key, 0);
    if first.None? then []
    else
      seq(first.value.totalChunks.GetOr(1), j requires 0 <= j =>
        var row := FindRow(rows, |rows|, key, j);
        if row.Some? then Some(row.value.vector) else None)
  }

  /** The table holds the rows of the batch, in whatever order, and all its other rows belong to other sources. */
  ghost predicate HoldsBatch(stored: seq<EmbeddingRow>, batch: seq<EmbeddingRow>, sources: seq<Source>) {
    && (forall row :: row in batch ==> row in stored)
    && (forall row, i :: row in stored && 0 <= i < |sources| && row.key == sources[i].key ==> row in batch)
  }

  lemma {:induction false} FindRowFinds(rows: seq<EmbeddingRow>, n: nat, key: Key, position: nat)
    requires n <= |rows|
    ensures FindRow(rows, n, key, position).Some? ==>
              var row := FindRow(rows, n, key, position).value;
              row in rows && row.key == key && Position(row) == position
    ensures FindRow(rows, n, key, position).None? ==>
              forall k :: 0 <= k < n ==> !(rows[k].key == key && Position(rows[k]) == position)
  {
    if n > 0 {
      FindRowFinds(rows, n - 1, key, position);
    }
  }

  /** Whatever the order of the stored rows, the one found for a source and a position is that source's chunk. */
  lemma FoundIsSourceRow(
    s: Setup, userId: Uuid, sources: seq<Source>, one: string -> Vector, stored: seq<EmbeddingRow>, i: nat, j: nat)
    requires Pointwise(s.lib.embed, one) && KeysDistinct(sources) && i < |sources|
    requires HoldsBatch(stored, AllRowsAlone(s, userId, sources, |sources|), sources)
    ensures var chunks := Chunks(s, sources[i].text);
            FindRow(stored, |stored|, sources[i].key, j)
              == if j < |chunks| then Some(RowOf(s, userId, sources[i].key, j, |chunks|, one(chunks[j]))) else None
  {
    var chunks, found := Chunks(s, sources[i].text), FindRow(stored, |stored|, sources[i].key, j);
    FindRowFinds(stored, |stored|, sources[i].key, j);
    if j < |chunks| {
      var row := RowOf(s, userId, sources[i].key, j, |chunks|, one(chunks[j]));
      assert IsRowOf(s, userId, sources[i], one, j, row);
      RowsAreSourceRows(s, userId, sources, |sources|, one, row);
      assert row in stored;
    }
    if found.Some? {
      RowsAreSourceRows(s, userId, sources, |sources|, one, found.value);
      var i': nat, j': nat :| i' < |sources| && IsRowOf(s, userId, sources[i'], one, j', found.value);
      assert sources[i'].key == sources[i].key;
      assert i' == i && j' == j;
    }
  }

  /**
   * From the full table, in any order, the key of a source gives back exactly the vectors of its kept chunks in
   * order; a blank or fully filtered source has none.
   */
  lemma ChunksRoundTrip(
    s: Setup, userId: Uuid, sources: seq<Source>, one: string -> Vector, stored: seq<EmbeddingRow>, i: nat)
    requires Pointwise(s.lib.embed, one) && KeysDistinct(sources) && i < |sources|
    requires HoldsBatch(stored, AllRowsAlone(s, userId, sources, |sources|), sources)
    ensures var chunks := Chunks(s, sources[i].text);
            Reassemble(stored, sources[i].key)
              == seq(|chunks|, j requires 0 <= j < |chunks| => Some(one(chunks[j])))
  {
    var chunks := Chunks(s, sources[i].text);
    forall j: nat
      ensures FindRow(stored, |stored|, sources[i].key, j)
           == if j < |chunks| then Some(RowOf(s, userId, sources[i].key, j, |chunks|, one(chunks[j]))) else None
    {
      FoundIsSourceRow(s, userId, sources, one, stored, i, j);
    }
  }

  /**
   * What a row of the batch says: the vector of one chunk of the source whose key it carries, by which model and for
   * whom, and its place: 0..n-1 out of n, or NULL and NULL for the only chunk.
   */
  lemma RowDescribesItsChunk(
    s: Setup, userId: Uuid, sources: seq<Source>, one: string -> Vector, i: nat, row: EmbeddingRow)
    requires Pointwise(s.lib.embed, one) && KeysDistinct(sources) && i < |sources|
    requires row in AllRowsAlone(s, userId, sources, |sources|) && row.key == sources[i].key
    ensures var chunks := Chunks(s, sources[i].text);
            && Position(row) < |chunks| && row.vector == one(chunks[Position(row)])
            && row.modelVersion == s.model && row.modelProvider == s.provider && row.userId == userId
            && (|chunks| == 1 ==> row.chunkIndex == None && row.totalChunks == None)
            && (|chunks| > 1 ==> row.chunkIndex == Some(Position(row)) && row.totalChunks == Some(|chunks|))
  {
    RowsAreSourceRows(s, userId, sources, |sources|, one, row);
    var i': nat, j: nat :| i' < |sources| && IsRowOf(s, userId, sources[i'], one, j, row);
    assert i' == i;
  }

  /** No two rows of the batch share key and position, so every index occurs once. */
  lemma {:induction false} PositionsUnique(s: Setup, userId: Uuid, sources: seq<Source>, n: nat, k: nat, l: nat)
    requires n <= |sources| && KeysDistinct(sources)
    requires OnePerText(s.lib.embed)
    requires k < l < |AllRowsAlone(s, userId, sources, n)|
    ensures var rows := AllRowsAlone(s, userId, sources, n);
            rows[k].key == rows[l].key ==> Position(rows[k]) < Position(rows[l])
  {
    var before, own := AllRowsAlone(s, userId, sources, n - 1), RowsAlone(s, userId, sources[n - 1]);
    if l < |before| {
      PositionsUnique(s, userId, sources, n - 1, k, l);
    } else if k < |before| {
      KeyAmongEarlier(s, userId, sources, n - 1, k);
    }
  }

  lemma {:induction false} KeyAmongEarlier(s: Setup, userId: Uuid, sources: seq<Source>, n: nat, k: nat)
    requires n <= |sources| && OnePerText(s.lib.embed)
    requires k < |AllRowsAlone(s, userId, sources, n)|
    ensures exists i :: 0 <= i < n && sources[i].key == AllRowsAlone(s, userId, sources, n)[k].key
  {
    if k < |AllRowsAlone(s, userId, sources, n - 1)| {
      KeyAmongEarlier(s, userId, sources, n - 1, k);
    } else {
      assert sources[n - 1].key == AllRowsAlone(s, userId, sources, n)[k].key;
    }
  }

  // ---- From a consolidation to its embeddings ----

  /** The sources of a consolidation result never share a key. */
  lemma ConsolidationKeysDistinct(s: Setup, r: ConsolidationResult)
    requires EntityIdsDistinct(r.entities.GetOr([])) && EventIdsDistinct(r.events.GetOr([]))
    ensures KeysDistinct(SourcesOf(s, r))
  {
    var entities, events := r.entities.GetOr([]), r.events.GetOr([]);
    var sources := SourcesOf(s, r);
    forall i, j | 0 <= i < j < |sources| ensures sources[i].key != sources[j].key {
      if j < |entities| {
        assert sources[i] == EntitySource(s, entities[i]) && sources[j] == EntitySource(s, entities[j]);
      } else if |entities| <= i && j < |entities| + |events| {
        assert sources[i] == EventSource(events[i - |entities|]) && sources[j] == EventSource(events[j - |entities|]);
      }
    }
  }
}
