/** `EmbeddingGeneratorService`: one flat list of chunks, one embedding call, one row per chunk. */
module Embeddings {
  import opened Common
  import opened MemoryModel
  import opened ConsolidationService

  type Vector = seq<real>

  datatype EmbeddableType = ENTITIES | EVENTS | RAW_MESSAGE

  /** Tried by the splitter in this order. */
  const SEPARATORS: seq<string> := ["\n\n", "\n", ". ", "! ", "? ", ", ", " ", ""]

  /**
   * The tokenizer of a model, the splitter for separators, chunk size and overlap, str.isspace, the embedding API
   * and Entity.canonical_text: any functions at all.
   */
  datatype Library = Library(
    tokens: (string, string) -> nat,
    split: (seq<string>, int, int, string) -> seq<string>,
    isSpace: char -> bool,
    embed: seq<string> -> seq<Vector>,
    canonicalText: EntityRow -> string)

  datatype Setup = Setup(
    model: string, provider: string, chunkSize: int, chunkOverlap: int, minChunkTokens: int, lib: Library)
  {
    function Tokens(text: string): nat { lib.tokens(model, text) }

    function Split(text: string): seq<string> { lib.split(SEPARATORS, chunkSize, chunkOverlap, text) }
  }

  /** What an embedding belongs to: its type and exactly one of the two ids. */
  datatype Key = Key(kind: EmbeddableType, uuid: Option<Uuid>, id: Option<nat>)

  datatype Source = Source(text: string, key: Key)

  datatype EmbeddingRow = EmbeddingRow(
    key: Key,
    vector: Vector,
    modelVersion: string,
    modelProvider: string,
    userId: Uuid,
    chunkIndex: Option<nat>,
    totalChunks: Option<nat>)

  /** ck_exactly_one_id. */
  predicate ExactlyOneId(k: Key): (holds: bool)
    ensures holds <==> (k.uuid.None? <==> k.id.Some?)
  {
    (k.uuid.Some? && k.id.None?) || (k.uuid.None? && k.id.Some?)
  }

  // ---- Sources ----

  function EntitySource(s: Setup, e: EntityRow): Source {
    Source(s.lib.canonicalText(e), Key(ENTITIES, Some(e.id), None))
  }

  function EventSource(e: EventRow): Source {
    Source(e.event.summary, Key(EVENTS, Some(e.id), None))
  }

  function SourcesOf(s: Setup, r: ConsolidationResult): seq<Source> {
    var entities, events := r.entities.GetOr([]), r.events.GetOr([]);
    seq(|entities|, i requires 0 <= i < |entities| => EntitySource(s, entities[i]))
    + seq(|events|, i requires 0 <= i < |events| => EventSource(events[i]))
    + [Source(r.message.content, Key(RAW_MESSAGE, None, Some(r.message.id)))]
  }

  // ---- Chunks of one source ----

  /** `not text or not text.strip()`. */
  predicate Blank(s: Setup, text: string) {
    forall i :: 0 <= i < |text| ==> s.lib.isSpace(text[i])
  }

  /** The first `n` pieces without those below the minimum. */
  function LongEnough(s: Setup, pieces: seq<string>, n: nat): seq<string>
    requires n <= |pieces|
  {
    if n == 0 then []
    else if s.Tokens(pieces[n - 1]) < s.minChunkTokens then LongEnough(s, pieces, n - 1)
    else LongEnough(s, pieces, n - 1) + [pieces[n - 1]]
  }

  /** Filtering keeps every piece that is long enough, in order, and no other. */
  lemma {:induction false} LongEnoughExactly(s: Setup, pieces: seq<string>, n: nat, k: nat)
    requires k < n <= |pieces|
    ensures var kept := |LongEnough(s, pieces, k)|;
            if s.Tokens(pieces[k]) >= s.minChunkTokens
            then |LongEnough(s, pieces, k + 1)| == kept + 1
                 && kept < |LongEnough(s, pieces, n)| && LongEnough(s, pieces, n)[kept] == pieces[k]
            else |LongEnough(s, pieces, k + 1)| == kept
  {
    if k < n - 1 {
      LongEnoughExactly(s, pieces, n - 1, k);
    }
  }

  /** A short text is one chunk whatever its size; the minimum only filters what the splitter made. */
  function SplitInto(s: Setup, text: string): seq<string> {
    if s.Tokens(text) < s.chunkSize then [text]
    else LongEnough(s, s.Split(text), |s.Split(text)|)
  }

  function Chunks(s: Setup, text: string): seq<string> {
    if Blank(s, text) then [] else SplitInto(s, text)
  }

  /** Long enough to be kept. */
  predicate Keeps(s: Setup, piece: string) {
    s.lib.tokens(s.model, piece) >= s.minChunkTokens
  }

  /** `at` lists, in order, the places of the long enough ones of the first `n` pieces, and these are the chunks. */
  ghost predicate StandAt(s: Setup, chunks: seq<string>, pieces: seq<string>, n: nat, at: seq<nat>)
    requires n <= |pieces|
  {
    && |chunks| == |at|
    && (forall k :: 0 <= k < |at| ==> at[k] < n && chunks[k] == pieces[at[k]])
    && (forall k, l :: 0 <= k < l < |at| ==> at[k] < at[l])
    && (forall i: nat :: i < n ==> (i in at <==> Keeps(s, pieces[i])))
  }

  /** The chunks are the long enough ones among the pieces, in order and each as often as it occurs there. */
  ghost predicate AreLongEnoughOf(s: Setup, chunks: seq<string>, pieces: seq<string>) {
    exists at: seq<nat> :: StandAt(s, chunks, pieces, |pieces|, at)
  }

  lemma OnePlaceMore(s: Setup, chunks: seq<string>, pieces: seq<string>, n: nat, at: seq<nat>)
    requires n < |pieces| && StandAt(s, chunks, pieces, n, at)
    ensures Keeps(s, pieces[n]) ==> StandAt(s, chunks + [pieces[n]], pieces, n + 1, at + [n])
    ensures !Keeps(s, pieces[n]) ==> StandAt(s, chunks, pieces, n + 1, at)
  {
    assert forall i: nat :: i in at + [n] <==> i in at || i == n;
  }

  /** The places of the long enough ones among the first `n` pieces. */
  ghost function Places(s: Setup, pieces: seq<string>, n: nat): seq<nat>
    requires n <= |pieces|
  {
    if n == 0 then []
    else if Keeps(s, pieces[n - 1]) then Places(s, pieces, n - 1) + [n - 1]
    else Places(s, pieces, n - 1)
  }

  lemma {:induction false} LongEnoughPlaces(s: Setup, pieces: seq<string>, n: nat)
    requires n <= |pieces|
    ensures StandAt(s, LongEnough(s, pieces, n), pieces, n, Places(s, pieces, n))
  {
    if n > 0 {
      LongEnoughPlaces(s, pieces, n - 1);
      OnePlaceMore(s, LongEnough(s, pieces, n - 1), pieces, n - 1, Places(s, pieces, n - 1));
    }
  }

  lemma LongEnoughOfAll(s: Setup, pieces: seq<string>)
    ensures AreLongEnoughOf(s, LongEnough(s, pieces, |pieces|), pieces)
  {
    LongEnoughPlaces(s, pieces, |pieces|);
  }

  /** Which chunks a text gives, in terms of the tokenizer and the splitter alone. */
  lemma ChunksOfText(s: Setup, text: string)
    ensures (forall i :: 0 <= i < |text| ==> s.lib.isSpace(text[i])) ==> Chunks(s, text) == []
    ensures !(forall i :: 0 <= i < |text| ==> s.lib.isSpace(text[i])) ==>
              if s.lib.tokens(s.model, text) < s.chunkSize then Chunks(s, text) == [text]
              else
                AreLongEnoughOf(
                  s, Chunks(s, text),
                  s.lib.split(["\n\n", "\n", ". ", "! ", "? ", ", ", " ", ""], s.chunkSize, s.chunkOverlap, text))
  {
    LongEnoughOfAll(s, s.Split(text));
  }

  // ---- The flat list ----

  datatype Entry = Entry(text: string, sourceIndex: nat, chunkIndex: nat, totalChunks: nat)

  function EntriesOf(s: Setup, sources: seq<Source>, i: nat): seq<Entry>
    requires i < |sources|
  {
    var chunks := Chunks(s, sources[i].text);
    seq(|chunks|, j requires 0 <= j < |chunks| => Entry(chunks[j], i, j, |chunks|))
  }

  function Entries(s: Setup, sources: seq<Source>, n: nat): seq<Entry>
    requires n <= |sources|
  {
    if n == 0 then [] else Entries(s, sources, n - 1) + EntriesOf(s, sources, n - 1)
  }

  function Texts(entries: seq<Entry>): seq<string> {
    seq(|entries|, k requires 0 <= k < |entries| => entries[k].text)
  }

  /** The row of chunk `index` out of `total` of a source. */
  function RowOf(s: Setup, userId: Uuid, key: Key, index: nat, total: nat, vector: Vector): EmbeddingRow {
    EmbeddingRow(
      key, vector, s.model, s.provider, userId,
      if total > 1 then Some(index) else None,
      if total > 1 then Some(total) else None)
  }

  ghost predicate WellIndexed(entries: seq<Entry>, sources: seq<Source>) {
    forall k :: 0 <= k < |entries| ==> entries[k].sourceIndex < |sources|
  }

  /** One row per entry, the k-th vector going to the k-th entry. */
  ghost function RowsFor(
    s: Setup, userId: Uuid, sources: seq<Source>, entries: seq<Entry>, vectors: seq<Vector>): seq<EmbeddingRow>
    requires WellIndexed(entries, sources) && |entries| <= |vectors|
  {
    seq(|entries|, k requires 0 <= k < |entries| =>
      RowOf(s, userId, sources[entries[k].sourceIndex].key, entries[k].chunkIndex, entries[k].totalChunks, vectors[k]))
  }

  lemma {:induction false} EntriesWellIndexed(s: Setup, sources: seq<Source>, n: nat)
    requires n <= |sources|
    ensures WellIndexed(Entries(s, sources, n), sources)
  {
    if n > 0 {
      EntriesWellIndexed(s, sources, n - 1);
    }
  }

  /** Which texts a consolidation result gives and under which keys: entities first, then events, last the message. */
  lemma SourcesInOrder(s: Setup, r: ConsolidationResult)
    ensures var entities := match r.entities case Some(rows) => rows case None => [];
            var events := match r.events case Some(rows) => rows case None => [];
            var sources := SourcesOf(s, r);
            && |sources| == |entities| + |events| + 1
            && (forall k :: 0 <= k < |entities| ==>
                 sources[k] == Source(s.lib.canonicalText(entities[k]), Key(ENTITIES, Some(entities[k].id), None)))
            && (forall k :: 0 <= k < |events| ==>
                 sources[|entities| + k] == Source(events[k].event.summary, Key(EVENTS, Some(events[k].id), None)))
            && sources[|entities| + |events|]
                 == Source(r.message.content, Key(RAW_MESSAGE, None, Some(r.message.id)))
  {
  }

  lemma SourcesHaveExactlyOneId(s: Setup, r: ConsolidationResult)
    ensures forall i :: 0 <= i < |SourcesOf(s, r)| ==> ExactlyOneId(SourcesOf(s, r)[i].key)
  {
  }

  // ---- The table and the service ----

  datatype StoredEmbedding = StoredEmbedding(id: nat, row: EmbeddingRow)

  class EmbeddingTable {
    var rows: seq<StoredEmbedding>
    var nextId: nat

    /** Primary keys come from a sequence. */
    ghost predicate Valid()
      reads this
    {
      && (forall k :: 0 <= k < |rows| ==> rows[k].id < nextId)
      && (forall k, l :: 0 <= k < l < |rows| ==> rows[k].id != rows[l].id)
    }

    constructor ()
      ensures rows == [] && Valid()
    {
      rows, nextId := [], 1;
    }

    /**
     * Inserts all rows in input order, or none when the check constraint fails for one of them or the database
     * refuses for a reason outside this model.
     */
    method BulkCreate(drafts: seq<EmbeddingRow>, refused: bool) returns (ok: bool, created: seq<StoredEmbedding>)
      modifies this
      ensures ok <==> !refused && forall k :: 0 <= k < |drafts| ==> ExactlyOneId(drafts[k].key)
      ensures ok ==> |created| == |drafts| && forall k :: 0 <= k < |drafts| ==> created[k].row == drafts[k]
      ensures rows == if ok then old(rows) + created else old(rows)
      ensures old(Valid()) ==> Valid()
    {
      ok := !refused && forall k :: 0 <= k < |drafts| ==> ExactlyOneId(drafts[k].key);
      created := [];
      if ok {
        var first := nextId;
        created := seq(|drafts|, k requires 0 <= k < |drafts| => StoredEmbedding(first + k, drafts[k]));
        rows := rows + created;
        nextId := nextId + |drafts|;
      }
    }
  }

  /** Stored rows, or one of the two ways the code can raise: too few vectors, or an insert refused. */
  datatype Outcome = Stored(created: seq<StoredEmbedding>) | IndexFault | Refused

  class EmbeddingGeneratorService {
    const setup: Setup

    constructor (
      lib: Library,
      model: string := "text-embedding-3-small",
      provider: string := "openai",
      chunkSize: int := 800,
      chunkOverlap: int := 200,
      minChunkTokens: int := 50)
      ensures setup == Setup(model, provider, chunkSize, chunkOverlap, minChunkTokens, lib)
    {
      setup := Setup(model, provider, chunkSize, chunkOverlap, minChunkTokens, lib);
    }

    method SplitText(text: string) returns (chunks: seq<string>, total: nat)
      ensures chunks == SplitInto(setup, text) && total == |chunks|
      ensures setup.lib.tokens(setup.model, text) < setup.chunkSize ==> chunks == [text]
      ensures setup.lib.tokens(setup.model, text) >= setup.chunkSize ==>
                AreLongEnoughOf(
                  setup, chunks,
                  setup.lib.split(
                    ["\n\n", "\n", ". ", "! ", "? ", ", ", " ", ""], setup.chunkSize, setup.chunkOverlap, text))
    {
      if setup.Tokens(text) < setup.chunkSize {
        return [text], 1;
      }
      var pieces := setup.Split(text);
      chunks := [];
      for i := 0 to |pieces|
        invariant chunks == LongEnough(setup, pieces, i)
      {
        if setup.Tokens(pieces[i]) < setup.minChunkTokens {
          continue;
        }
        chunks := chunks + [pieces[i]];
      }
      LongEnoughOfAll(setup, pieces);
      total := |chunks|;
    }

    method CollectSources(r: ConsolidationResult) returns (sources: seq<Source>)
      ensures sources == SourcesOf(setup, r)
    {
      sources := [];
      var entities, events := r.entities.GetOr([]), r.events.GetOr([]);
      for i := 0 to |entities|
        invariant |sources| == i
        invariant forall k :: 0 <= k < i ==> sources[k] == EntitySource(setup, entities[k])
      {
        sources := sources + [EntitySource(setup, entities[i])];
      }
      for i := 0 to |events|
        invariant |sources| == |entities| + i
        invariant forall k :: 0 <= k < |entities| ==> sources[k] == EntitySource(setup, entities[k])
        invariant forall k :: 0 <= k < i ==> sources[|entities| + k] == EventSource(events[k])
      {
        sources := sources + [EventSource(events[i])];
      }
      sources := sources + [Source(r.message.content, Key(RAW_MESSAGE, None, Some(r.message.id)))];
    }

    /** The chunks of source `i`, each with its place. */
    method AppendChunks(entries: seq<Entry>, i: nat, chunks: seq<string>, total: nat) returns (more: seq<Entry>)
      ensures more == entries + seq(|chunks|, j requires 0 <= j < |chunks| => Entry(chunks[j], i, j, total))
    {
      var own: seq<Entry> := [];
      for j := 0 to |chunks|
        invariant |own| == j
        invariant forall k :: 0 <= k < j ==> own[k] == Entry(chunks[k], i, k, total)
      {
        own := own + [Entry(chunks[j], i, j, total)];
      }
      more := entries + own;
    }

    method CollectEntries(sources: seq<Source>) returns (entries: seq<Entry>)
      ensures entries == Entries(setup, sources, |sources|)
    {
      entries := [];
      for i := 0 to |sources|
        invariant entries == Entries(setup, sources, i)
      {
        if Blank(setup, sources[i].text) {
          assert EntriesOf(setup, sources, i) == [];
          continue;
        }
        var chunks, total := SplitText(sources[i].text);
        entries := AppendChunks(entries, i, chunks, total);
      }
    }

    /** One row per entry, or an index error as soon as a vector is missing. */
    method BuildRows(userId: Uuid, sources: seq<Source>, entries: seq<Entry>, vectors: seq<Vector>)
      returns (enough: bool, drafts: seq<EmbeddingRow>)
      requires WellIndexed(entries, sources)
      ensures enough <==> |entries| <= |vectors|
      ensures enough ==> drafts == RowsFor(setup, userId, sources, entries, vectors)
    {
      drafts := [];
      for k := 0 to |entries|
        invariant k <= |vectors|
        invariant |drafts| == k
        invariant forall l :: 0 <= l < k ==>
                    drafts[l] == RowOf(setup, userId, sources[entries[l].sourceIndex].key,
                                       entries[l].chunkIndex, entries[l].totalChunks, vectors[l])
      {
        if k >= |vectors| {
          return false, [];
        }
        var source := sources[entries[k].sourceIndex];
        drafts := drafts
          + [RowOf(setup, userId, source.key, entries[k].chunkIndex, entries[k].totalChunks, vectors[k])];
      }
      enough := true;
    }

    /** The id check never fails: only missing vectors and a refusal from outside stop the insert of the batch. */
    method GenerateConsolidationEmbeddings(
      r: ConsolidationResult, userId: Uuid, table: EmbeddingTable, refused: bool)
      returns (outcome: Outcome)
      modifies table
      ensures var entries := Entries(setup, SourcesOf(setup, r), |SourcesOf(setup, r)|);
              var vectors := setup.lib.embed(Texts(entries));
              && WellIndexed(entries, SourcesOf(setup, r))
              && (outcome.IndexFault? <==> |entries| > |vectors|)
              && (outcome.Refused? <==> |entries| <= |vectors| && entries != [] && refused)
              && (outcome.Stored? ==>
                   Drafts(outcome.created) == RowsFor(setup, userId, SourcesOf(setup, r), entries, vectors))
      ensures table.rows == if outcome.Stored? then old(table.rows) + outcome.created else old(table.rows)
      ensures old(table.Valid()) ==> table.Valid()
    {
      var sources := CollectSources(r);
      var entries := CollectEntries(sources);
      EntriesWellIndexed(setup, sources, |sources|);
      if entries == [] {
        return Stored([]);
      }
      var vectors := setup.lib.embed(Texts(entries));
      var enough, drafts := BuildRows(userId, sources, entries, vectors);
      if !enough {
        return IndexFault;
      }
      SourcesHaveExactlyOneId(setup, r);
      var ok, created := table.BulkCreate(drafts, refused);
      outcome := if ok then Stored(created) else Refused;
    }
  }

  function Drafts(created: seq<StoredEmbedding>): seq<EmbeddingRow> {
    seq(|created|, k requires 0 <= k < |created| => created[k].row)
  }
}
