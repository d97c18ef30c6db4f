# Verified model of the memory backend's core

The backend turns chat messages into a memory graph. This project models four parts of it in Dafny and proves
what they promise: the sliding-window rate limiter in front of the API, the consolidation of an extraction into
the tables, the generation of embeddings for what was consolidated, and the life of relation types from suggestion
to decision. `dafny verify dfyconfig.toml` checks everything.

| part | modules |
|---|---|
| rate limiter | `RateLimiter` (one call), `RateLimiterRuns` (one client over time), `RateLimiterOptimality` (against every other schedule), `RateLimiterClients` (interleaved clients), `RateLimiterAnswers` (every answer in terms of the requests), `RateLimiterClock` (clocks that step back), `RateLimiterMiddleware` (the object) |
| consolidation | `MemoryModel`, `MemoryStore` (tables), `ConsolidationGraph` (what is stored, how it is read), `ConsolidationTheorems`, `ConsolidationService` (the loops), `ConsolidationIsolation` (beside other consolidations), `ConsolidationHistory` (any number of them) |
| embeddings | `Embeddings` (the service), `EmbeddingRoundTrip` (one batch), `EmbeddingHistory` (the whole table), `EmbeddingRecord` (the validated object) |
| the task | `MemoryTask` (consolidation and embeddings in one transaction) |
| relation types | `RelationTypes` (steps), `RelationTypeRuns` (histories), `RelationTypeCommits` (what each transaction leaves), `RelationTypeNames` (unique names), `RelationTypeService` (the service and its transaction) |

Each class method is proved against a specification function; the theorems are lemmas about those functions, for
every input, run or reachable state.

## Main results

* **Rate limiter.** Under a clock that never steps back a request is let through exactly when its path is excluded or
  fewer than the limit of its own peer's requests were admitted in the window before it; who is turned away is told
  how long the oldest of those stays, and no other address matters. The advertised limit, for every client, in every
  window of the advertised length, at any real offset and in any interleaving, holds on all runs of a clock that steps
  back by at most a given amount exactly when that amount is zero, or the limit is at most one, or the window is
  empty; under every other setting a single step back, however small, can let one request too many through. With no
  step back pruning never changes a decision, and no schedule that respects the limit serves more requests of any
  prefix, or any k-th request earlier. Under any clock the length bound, the conservation of admissions and the
  justification of every rejection hold, and a call counts what the full history counts exactly when no evicted time
  is back inside the window. `retry_after` is the remaining wait rounded down: retrying earlier always fails, retrying
  exactly then works only if the wait is a whole number of seconds, and rejected traffic never lengthens it.
* **Consolidation.** Reading the stored rows back gives the extracted graph without dangling edges and self-loops
  exactly when no entity with events is overridden by a later one with the same temp id; with distinct temp ids the
  renaming is a bijection. This is so for every message of any sequence of consolidations, read from the full tables
  at any later time. The keys, references and the self-relation check hold for every extraction: a consolidation fails
  only if the database refuses an insert for a reason outside them. Of those reasons, `uq_relationship` is no obstacle
  under any clock exactly when the extraction relates no two temp ids twice in the same direction.
* **Embeddings.** The one batched call yields, in order, the rows each source would get alone. After any number of
  task runs, from the full table in any order, the key of an entity gives back the vectors of the chunks of its
  canonical text, that of an event those of its summary and that of a message those of its content, in order. A task
  run that fails leaves every table as it was.
* **Relation types.** Along every history of resolve, accept and reject transactions relationships name types that are
  accepted now, pending suggestions are for unaccepted types or the fallback, and the first committed decision on a
  suggestion's type settles it for good. After a committed accept every later resolve of the name uses the type. The
  unique name is violated exactly when a name is stored as given while its upper case is not.

## Assumptions

* `time.time()` is a parameter of every request. Lemmas that need it to be non-decreasing say so
  (`NonDecreasing`, `ClockNeverStepsBack`); times are real numbers, so floating-point rounding is not modelled.
* `bulk_create` returns its rows in input order. `insert(...).returning(...)` does not ask for that, so it is an
  explicit clause of the `BulkCreate` methods, and `ZipNeedsInputOrder` shows what depends on it.
* New ids, of rows and of messages, differ from all ids in their table; nothing else is known of them.
* The tokenizer, the splitter, whitespace, `canonical_text` and the embedding API are arbitrary functions. Only the
  results about batches and chunks assume that the API embeds each text by itself and answers in input order.
* `str.upper` is any function that maps `RELATES_TO` to itself.
* A raised error rolls the transaction back (`src/api/dependencies.py:33`, `src/api/dependencies.py:50`). Refusals of
  the database for reasons outside the model are inputs: `refused` of an insert, `Refusals` of a consolidation,
  `commits` of a relation-type step. Every contract says what happens with and without them.

## Where the code and its documentation differ

The model follows the code.

* An empty `exclude_paths` set selects the default exclusions, and a limit of zero or less makes `dispatch` raise an
  index error instead of rejecting (`src/api/rate_limiter.py:33`, `src/api/rate_limiter.py:56-60`).
* The class promises its limit without a condition (`src/api/rate_limiter.py:18-21`); `time.time()` may step back, and
  then only limits up to one and empty windows are safe (`WithinLimitIff`).
* `retry_after` is cut to whole seconds, so a client that waits exactly that long is usually rejected again, and can be
  told 0 (`src/api/rate_limiter.py:58-60`, `RetryAtOnceIsRejected`).
* The embedding call does not pass the service's model, so `model_version` names the constructor's model whatever the
  connector used (`src/domain/consolidation/services.py:302`, `src/domain/llm/services.py:60`).
* `min_chunk_tokens` is not applied to a text below `chunk_size`: it is kept whole however short it is
  (`src/domain/consolidation/services.py:281-282`).
* The first suggestion of a new relation name is filed under the fallback type and not under the type created for
  the name, so accepting that type does not settle it (`src/domain/memory/services.py:418-428`).
* Rejecting a relation type leaves the type as it was; only its pending suggestions change
  (`src/domain/memory/services.py:371-386`).
* Types are looked up in upper case and created as given, so a new name that is not upper case can be resolved once
  and then fails on the unique name (`src/domain/memory/repositories.py:406-414`, `src/domain/memory/repositories.py:441-444`).

## Model

| member | source | states |
|---|---|---|
| RateLimiterMiddleware.InMemoryRateLimiter.constructor | src/api/rate_limiter.py:23-40 | starts with an empty table and the given limits; given exclusions are kept, none or an empty set gives the four default paths |
| RateLimiterMiddleware.InMemoryRateLimiter.Handle | src/api/rate_limiter.py:42-67 | the in-place rewriting of the client's list is one step of the specification |
| RateLimiterMiddleware.InMemoryRateLimiter.Dispatch | src/api/rate_limiter.py:42-67 | admitted exactly when fewer than the limit of the peer's requests were admitted in the window; the admitted time ends the list kept under the peer address, or under "unknown" without one; every other list untouched; faults exactly for a non-positive limit |
| RateLimiterMiddleware.CreateApplicationLimiter | src/main.py:49 | the application's limiter: 100 requests in 60 seconds, four paths excluded |
| RateLimiterAnswers.AnswerOf | src/api/rate_limiter.py:42-67 | each of the four answers of every request of a run, exactly, by the paths, peers and times of the requests and the earlier answers |
| RateLimiterAnswers.RejectedWaitsForOldest | src/api/rate_limiter.py:56-61 | the number sent is, rounded down, the time until the oldest admitted request of the peer leaves the window |
| RateLimiterAnswers.AnswerDependsOnPeer | src/api/rate_limiter.py:47-64 | under any clock an answer depends on the earlier requests of the same peer only, where a missing address and "unknown" are one peer |
| RateLimiterAnswers.AnswerDependsOnAddress | src/api/rate_limiter.py:47-64 | for an address other than "unknown": on the earlier requests with the same client field only |
| RateLimiterAnswers.FirstOfAddressIsAdmitted | src/api/rate_limiter.py:47-64 | the first request of an address is admitted whatever others did, under any clock |
| RateLimiterClients.EveryClientWithinLimit | src/api/rate_limiter.py:18-21 | in every interleaved run, at most the limit per client in both half-open windows at every offset |
| RateLimiterClients.AdmittedIffRoom | src/api/rate_limiter.py:50-64 | a request of a run is admitted exactly when fewer than the limit of the client's admissions lie in its window |
| RateLimiterClients.TableIsPerClient | src/api/rate_limiter.py:47-64 | a client's list after an interleaved run is what its own requests alone leave |
| RateLimiterClients.AnswerIsPerClient | src/api/rate_limiter.py:47-64 | each answer is the one the client would get alone |
| RateLimiterClients.AdmittedTimesArePerClient | src/api/rate_limiter.py:47-64 | what a run admits of a client is what is admitted of it alone |
| RateLimiterClients.ExcludedLeavesNoTrace | src/api/rate_limiter.py:44-45 | exactly the excluded paths bypass the limiter and they leave no trace |
| RateLimiterClients.TableBounded | src/api/rate_limiter.py:53-64 | under any clock no list exceeds the limit; index fault exactly for a non-positive limit |
| RateLimiterClients.RetryTooEarlyInRun | src/api/rate_limiter.py:56-61 | in any interleaved run every request before now + r is rejected |
| RateLimiterClients.RetryInTimeInRun | src/api/rate_limiter.py:56-61 | at or after now + r + 1 a request is admitted unless the client was admitted in between |
| RateLimiterOptimality.GreedyIsLegal | src/api/rate_limiter.py:50-64 | the limiter's own schedule respects the limit in every window |
| RateLimiterOptimality.GreedyServesMost | src/api/rate_limiter.py:50-64 | no legal schedule serves more of any prefix of the arrivals |
| RateLimiterOptimality.GreedyServesEarliest | src/api/rate_limiter.py:50-64 | the k-th admission is never later than in any legal schedule |
| RateLimiterRuns.PruningIsInvisible | src/api/rate_limiter.py:50-53 | pruned list and complete log agree in every later window |
| RateLimiterRuns.AdmittedIffRoomInFullLog | src/api/rate_limiter.py:53-64 | the decision is the one the never-pruned log gives |
| RateLimiterRuns.StoredIsWindowOfLog | src/api/rate_limiter.py:51-64 | the stored list is the complete log cut to the window |
| RateLimiterRuns.StoredIsSorted | src/api/rate_limiter.py:51-64 | the stored list is sorted |
| RateLimiterRuns.SpanBound | src/api/rate_limiter.py:51-64 | at most the limit in any set of instants shorter than the window, as long as nothing evicted is revived |
| RateLimiterRuns.WindowBound | src/api/rate_limiter.py:51-64 | at most the limit in both half-open windows at every real offset, as long as nothing evicted is revived |
| RateLimiterRuns.NonDecreasingRevivesNothing | src/api/rate_limiter.py:48-53 | a non-decreasing clock never brings an evicted time back |
| RateLimiterRuns.LengthBound | src/api/rate_limiter.py:53-64 | stored list at most the limit under any clock |
| RateLimiterRuns.Conservation | src/api/rate_limiter.py:53-64 | stored plus evicted is admitted, under any clock |
| RateLimiterRuns.FaultIffNoBudget | src/api/rate_limiter.py:56-60 | the retry computation faults exactly for a non-positive limit |
| RateLimiterRuns.KeptIsLogLessRevived | src/api/rate_limiter.py:51-56 | under any clock a call counts the window of the log less the revived times |
| RateLimiterRuns.RejectionsAreJustified | src/api/rate_limiter.py:56-61 | under any clock the complete log fills the window when a request is refused |
| RateLimiterRuns.PruningExactIffNothingRevived | src/api/rate_limiter.py:51-56 | pruning is exact if and only if no evicted time is back in the window |
| RateLimiterRuns.ClockStepBackBreaksWindow | src/api/rate_limiter.py:48-64 | a run with a clock step back admits three in a window with limit two |
| RateLimiterRuns.RetryAfterIsFloorOfWait | src/api/rate_limiter.py:57-61 | retry_after is the wait rounded down, between 0 and the window |
| RateLimiterRuns.NextAdmittedIffReleased | src/api/rate_limiter.py:51-64 | after a rejection the next request is admitted exactly from the release on |
| RateLimiterRuns.RejectedTrafficNeverLengthensWait | src/api/rate_limiter.py:53-61 | any amount of rejected traffic leaves the list and the release as they were |
| RateLimiterRuns.RetryTooEarlyIsRejected | src/api/rate_limiter.py:56-61 | all requests before now + r are rejected |
| RateLimiterRuns.RetryInTimeIsAdmitted | src/api/rate_limiter.py:56-64 | one second past the wait suffices |
| RateLimiterRuns.AdvertisedWaitSufficesIffWhole | src/api/rate_limiter.py:57-61 | a request exactly `retry_after` seconds later is admitted if and only if the remaining wait is a whole number of seconds |
| RateLimiterRuns.RetryAtOnceIsRejected | src/api/rate_limiter.py:57-61 | a client told to wait 0 seconds and rejected again at once |
| RateLimiterClock.WithinLimitIff | src/api/rate_limiter.py:18-21 | the advertised limit holds on all runs of a clock with the given tolerance exactly when it never steps back, or the limit is at most one, or the window is empty |
| RateLimiterClock.WithinLimitUnderEveryClockIff | src/api/rate_limiter.py:18-21 | without any assumption on the clock, exactly the limits up to one and the empty windows hold |
| RateLimiterClock.ClientsWithinLimitIff | src/api/rate_limiter.py:18-21 | the same exact condition for every client of every interleaved run |
| RateLimiterClock.StepBackExceedsLimit | src/api/rate_limiter.py:48-64 | for a limit of two or more, every step back of whatever size has a run, non-decreasing but for that step, with limit plus one admissions in a window of either kind |
| RateLimiterClock.LimitOneStoresLast | src/api/rate_limiter.py:51-64 | with limit one the list holds the last admission and nothing else, under any clock |
| RateLimiterClock.LimitOneSeparates | src/api/rate_limiter.py:51-64 | with limit one all admissions are at least a window apart and in order, under any clock |
| RateLimiterClock.NoLimitNoLog | src/api/rate_limiter.py:56-61 | with a limit of zero or less nothing is ever admitted |
| RateLimiterClock.AnyClockWithinLimit | src/api/rate_limiter.py:48-64 | limits up to one and empty windows are kept under every clock |
| RateLimiterClock.HalfSecondStepBack | src/api/rate_limiter.py:48-64 | a run with a step back of half a second: three admissions in a window with limit two |
| MemoryStore.Store.BulkCreateEntities | src/domain/memory/repositories.py:62-68 | rows appended and returned in input order under new distinct ids; none if the insert is refused |
| MemoryStore.Store.BulkCreateEvents | src/domain/memory/repositories.py:150-155 | rows appended and returned in input order under new distinct ids; none if the insert is refused |
| MemoryStore.Store.BulkLinkEntities | src/domain/memory/repositories.py:157-162 | all links inserted, or none exactly when a key constraint fails or the insert is refused |
| MemoryStore.Store.BulkCreateRelations | src/domain/memory/repositories.py:197-202 | all relations inserted, or none exactly when a reference or the self-relation check fails or the insert is refused |
| MemoryStore.Store.CreateMessage | src/domain/memory/repositories.py:246-252 | one message appended under a new id, none if the insert is refused |
| ConsolidationService.ConsolidationService.ConsolidateEntities | src/domain/consolidation/services.py:49-71 | one row per extracted entity, in order, with its fields; fails exactly on a refusal |
| ConsolidationService.ConsolidationService.ExtractEntityEvents | src/domain/consolidation/services.py:75-110 | drafts are the flattened events; link k carries index k and the entity of event k |
| ConsolidationService.ConsolidationService.ConsolidateEntitiesEvents | src/domain/consolidation/services.py:113-149 | stores and links the flattened events; None exactly when there are none; fails exactly on a link constraint or a refusal |
| ConsolidationService.ConsolidationService.ConsolidateRelations | src/domain/consolidation/services.py:152-185 | stores the relations that survive both filters; fails exactly on a reference, the self-relation check or a refusal |
| ConsolidationService.ConsolidationService.MapTempIds | src/domain/consolidation/services.py:222-226 | the zip builds the temp id map |
| ConsolidationService.ConsolidationService.StoreEntities | src/domain/consolidation/services.py:215-226 | entities stored only if any, with the ids they get; fails exactly on a refusal |
| ConsolidationService.ConsolidationService.StoreEvents | src/domain/consolidation/services.py:228-233 | events stored only if any is listed; keys and references never fail, only a refusal does |
| ConsolidationService.ConsolidationService.StoreRelations | src/domain/consolidation/services.py:235-239 | relations stored only if any survives; references and the self-relation check never fail, only a refusal does |
| ConsolidationService.ConsolidationService.Consolidate | src/domain/consolidation/services.py:188-241 | succeeds exactly when no insert the extraction calls for is refused from outside the modelled keys and checks; then appends exactly one consolidation and keeps all tables sound |
| ConsolidationService.CallsFor | src/domain/consolidation/services.py:228-239 | events and relations are inserted exactly when the extraction by itself lists an event or a proper relation |
| ConsolidationService.AppendKeepsSound | src/domain/memory/models.py:128-136 | keys, references and checks survive appending any consolidation |
| ConsolidationGraph.TempIdsAreLastRows | src/domain/consolidation/services.py:223-226 | the map holds exactly the extracted temp ids, each sent to the last entity carrying it |
| ConsolidationGraph.EventsHangOnLast | src/domain/consolidation/services.py:86-136 | with repeated temp ids the last entity gets all events of the id and earlier ones none |
| ConsolidationGraph.FlattenConservesCount | src/domain/consolidation/services.py:86-108 | as many events as the mapped entities list |
| ConsolidationTheorems.EventsFaithfulIff | src/domain/consolidation/services.py:193-199 | events reach their own entity exactly when no entity with events is overridden |
| ConsolidationTheorems.EventsOfOnlyEntity | src/domain/consolidation/services.py:94-106 | an entity that shares its temp id with no other gets every event of its list, one by one in order, and none when it has no list |
| ConsolidationTheorems.RelationsRoundTrip | src/domain/consolidation/services.py:159-176 | stored relations read back are, in order, the extracted ones between two different extracted ids |
| ConsolidationTheorems.RelationsJoinLast | src/domain/consolidation/services.py:160-167 | with repeated temp ids relations attach to the last entity of an id, overridden entities have none |
| ConsolidationTheorems.GraphRoundTripIff | src/domain/consolidation/services.py:188-241 | reading the graph back gives the extraction minus dangling edges and self-loops, with the exact condition |
| ConsolidationTheorems.DistinctIdsGiveIsomorphism | src/domain/consolidation/services.py:215-239 | distinct temp ids: bijective renaming and isomorphic graphs |
| ConsolidationTheorems.ConstraintsAlwaysHold | src/domain/consolidation/services.py:86-185 | the links and relations built here refer to rows of the same consolidation, no link occurs twice and nothing relates to itself, whatever the temp ids |
| ConsolidationTheorems.RowsAreOwned | src/domain/consolidation/services.py:54-67 | every row carries the user, entities and events also the message |
| ConsolidationTheorems.EventsConserved | src/domain/consolidation/services.py:127-136 | links and events in bijection; counts add up |
| ConsolidationTheorems.ZipNeedsInputOrder | src/domain/consolidation/services.py:222-226 | the renaming is right exactly when rows come back in input order |
| ConsolidationIsolation.ConsolidationsDoNotInterfere | src/domain/memory/models.py:128-136 | the events linked to an earlier entity stay, and those linked to a new one read the same in the full tables |
| ConsolidationIsolation.RelationsDoNotInterfere | src/domain/memory/repositories.py:204-213 | the relations touching earlier entities stay, and those touching new ones read the same in the full table |
| ConsolidationIsolation.TouchingExactly | src/domain/memory/repositories.py:204-213 | exactly the relations with the entity at either end are listed |
| ConsolidationIsolation.UniqueUnderEveryClockIff | src/domain/memory/models.py:278-283 | uq_relationship holds whatever the clock reads at each insert exactly when the extraction relates no two temp ids twice in the same direction |
| ConsolidationHistory.HistoryStaysSound | src/domain/consolidation/services.py:188-241 | the tables are sound after any number of consolidations |
| ConsolidationHistory.HistoryKeepsEvents | src/domain/memory/models.py:128-136 | at every later time an entity has the events its consolidation stored |
| ConsolidationHistory.HistoryKeepsRelations | src/domain/memory/repositories.py:204-213 | at every later time the entities of a consolidation have the relations it stored |
| ConsolidationHistory.EntitiesOfMessage | src/domain/consolidation/services.py:54-67 | at every later time the entities of a message are exactly the rows its consolidation stored, in order |
| ConsolidationHistory.MessageReadsAsStored | src/domain/consolidation/services.py:188-241 | the graph of a message, read from the full tables, is the one its consolidation stored |
| ConsolidationHistory.HistoryRoundTripIff | src/domain/consolidation/services.py:188-241 | at every later time a message reads back from the full tables as its extraction, minus dangling edges and self-loops, exactly when that extraction overrides no entity with events |
| Embeddings.EmbeddingTable.BulkCreate | src/domain/memory/repositories.py:313-331 | all rows in input order under new keys, or none exactly when the id check fails or the insert is refused |
| Embeddings.EmbeddingGeneratorService.constructor | src/domain/consolidation/services.py:251-272 | the defaults of the service; splitter and tokenizer are called with its sizes, separators and model |
| Embeddings.EmbeddingGeneratorService.SplitText | src/domain/consolidation/services.py:278-296 | a text below chunk_size whole; otherwise, in order, those pieces of the splitter, called with the eight separators, the size and the overlap, that the model's tokenizer finds long enough |
| Embeddings.EmbeddingGeneratorService.CollectSources | src/domain/consolidation/services.py:322-344 | entities, events and message in order, each with its key |
| Embeddings.EmbeddingGeneratorService.AppendChunks | src/domain/consolidation/services.py:366-374 | one entry per chunk with its place and total |
| Embeddings.EmbeddingGeneratorService.CollectEntries | src/domain/consolidation/services.py:353-374 | the flat list of all chunks of all non-blank sources |
| Embeddings.EmbeddingGeneratorService.BuildRows | src/domain/consolidation/services.py:385-410 | one row per entry with its own vector; index error exactly when vectors run short |
| Embeddings.EmbeddingGeneratorService.GenerateConsolidationEmbeddings | src/domain/consolidation/services.py:307-422 | stores exactly the batch rows; index error exactly when vectors run short; the id check never fails; nothing stored on an error |
| Embeddings.LongEnoughExactly | src/domain/consolidation/services.py:286-296 | filtering keeps every long enough piece, in order, and no other |
| Embeddings.ChunksOfText | src/domain/consolidation/services.py:278-296 | the chunks of every text, in terms of the tokenizer and the splitter alone; none for a blank text |
| Embeddings.SourcesInOrder | src/domain/consolidation/services.py:324-344 | entities with their canonical text, events with their summary, last the message with its content, each under its own key |
| Embeddings.SourcesHaveExactlyOneId | src/domain/memory/models.py:346-350 | every source of every consolidation result satisfies the id check |
| EmbeddingRoundTrip.BatchEqualsPerSource | src/domain/consolidation/services.py:353-410 | the batch rows are, in order, those of one call per source |
| EmbeddingRoundTrip.RowsAreSourceRows | src/domain/consolidation/services.py:387-410 | a row is in the batch exactly when it is the row of one chunk of one source |
| EmbeddingRoundTrip.ChunksRoundTrip | src/domain/consolidation/services.py:361-410 | from a table that holds the batch among rows of other sources, in any order, a key gives back its kept chunks in order |
| EmbeddingRoundTrip.RowDescribesItsChunk | src/domain/consolidation/services.py:387-410 | a row carries the vector of one chunk of its own source, and index and total of that chunk, NULL and NULL for the only one |
| EmbeddingRoundTrip.PositionsUnique | src/domain/consolidation/services.py:366-374 | no index of a source occurs twice |
| EmbeddingRoundTrip.ConsolidationKeysDistinct | src/domain/consolidation/services.py:324-344 | the sources of a consolidation never share a key |
| EmbeddingHistory.SourcesBecomeKnown | src/domain/consolidation/services.py:324-344 | the sources of a consolidation are keyed by rows that were not there before it and are there after it |
| EmbeddingHistory.KeysStayKnown | src/api/tasks/tasks.py:22-30 | after any number of task runs every embedding row is keyed by a stored entity, event or message |
| EmbeddingHistory.TableHoldsBatch | src/api/tasks/tasks.py:22-30 | at every later time the rows keyed by the sources of a consolidation are exactly those of its own batch |
| EmbeddingHistory.ConsolidatedChunksRoundTrip | src/api/tasks/tasks.py:22-30 | after any number of task runs every entity, event and message gets its own chunks back from the full table |
| EmbeddingHistory.EveryTextIsEmbedded | src/domain/consolidation/services.py:326-344 | at every later time the key of an entity holds the vectors of its canonical text, of an event its summary, of a message its content |
| MemoryTask.ConsolidateAndEmbed | src/api/tasks/tasks.py:14-30 | with the default services: succeeds exactly when no insert is refused and vectors suffice; then adds one consolidation and its embedding rows |
| MemoryTask.ConsolidateExtractedMemory | src/api/dependencies.py:43-59 | the task in its transaction: any error leaves every table as it was |
| MemoryTask.RunExtendsHistory | src/api/tasks/tasks.py:14-30 | a task run that succeeds makes the history of consolidations one longer in all the tables |
| MemoryTask.TaskRunsEmbedEveryText | src/api/tasks/tasks.py:14-30 | after any number of task runs the embeddings table holds every text of every consolidation under its own key |
| EmbeddingRecord.NeverBothIds | src/domain/memory/models.py:361-373 | no sequence of assignments gives an object both ids; the table check holds exactly when one is set |
| EmbeddingRecord.AllowedIffOneIdRemains | src/domain/memory/models.py:361-373 | an assignment takes effect exactly when it leaves at most one id |
| EmbeddingRecord.ReachableIffAtMostOne | src/domain/memory/models.py:361-373 | the reachable states are exactly those with at most one id |
| EmbeddingRecord.Embedding.SetUuid | src/domain/memory/models.py:361-373 | guarded assignment of the UUID |
| EmbeddingRecord.Embedding.SetId | src/domain/memory/models.py:361-373 | guarded assignment of the integer id |
| RelationTypes.FindName | src/domain/memory/repositories.py:441-444 | a row with the name, or none has it |
| RelationTypes.FindId | src/domain/memory/repositories.py:446-447 | a row with the id, or none has it |
| RelationTypeService.EntityRelationTypeService.CreateType | src/domain/memory/repositories.py:398-414 | appends an unaccepted type under the name as given, or raises on the unique name |
| RelationTypeService.EntityRelationTypeService.GetOrCreateRelationType | src/domain/memory/services.py:265-291 | accepted type, or fallback after creating a missing one |
| RelationTypeService.EntityRelationTypeService.RecordSuggestion | src/domain/memory/services.py:322-335 | appends one pending suggestion |
| RelationTypeService.EntityRelationTypeService.ResolveAndCreateRelationship | src/domain/memory/services.py:399-443 | the four steps of a resolve |
| RelationTypeService.EntityRelationTypeService.AcceptRelationType | src/domain/memory/services.py:338-364 | accepts the type and its pending suggestions and returns the accepted row |
| RelationTypeService.EntityRelationTypeService.RejectRelationType | src/domain/memory/services.py:367-386 | rejects the pending suggestions of the type |
| RelationTypeService.EntityRelationTypeService.InTransaction | src/api/dependencies.py:26-40 | commits one step or leaves all tables alone; keeps the invariant and only adds |
| RelationTypeCommits.ResolveCommitted | src/domain/memory/services.py:399-443 | what a committed resolve leaves in all three tables, exactly |
| RelationTypeCommits.ResolveDrawsId | src/domain/memory/services.py:283-289 | every resolve of an unknown name draws an id, committed or not |
| RelationTypeCommits.AcceptCommitted | src/domain/memory/services.py:338-364 | a committed accept accepts that type and its pending suggestions and nothing else; not found exactly for an unknown id |
| RelationTypeCommits.RejectCommitted | src/domain/memory/services.py:367-386 | a committed reject settles the pending suggestions of the type and nothing else; not found exactly for an unknown id |
| RelationTypeCommits.AcceptedFromThenOn | src/domain/memory/services.py:342-345 | after a committed accept every later committed resolve of the name uses the type, whatever happened in between |
| RelationTypeRuns.ResolveOutcome | src/domain/memory/services.py:278-291 | exactly when a resolve fails and how, and which type it uses otherwise |
| RelationTypeRuns.ResolveReaches | src/domain/memory/services.py:283-289 | a type is created, unaccepted and as named, exactly when the upper-cased name is unknown |
| RelationTypeRuns.SuggestionTarget | src/domain/memory/services.py:416-434 | when a suggestion is recorded, and that it is filed under the asked type only if that existed before |
| RelationTypeRuns.DecisionOutcome | src/domain/memory/services.py:346-386 | what accept and reject change and leave, and when they fail |
| RelationTypeRuns.StepKeeps | src/domain/memory/services.py:437-458 | every transaction keeps the invariant and only adds, accepts and decides |
| RelationTypeRuns.InvariantAlways | src/domain/memory/services.py:417-458 | accepted-only history and pending invariant in every reachable state; nothing lost or un-accepted |
| RelationTypeRuns.RelationshipsNameAcceptedTypes | src/domain/memory/services.py:437-442 | a relationship names an accepted type at every later moment |
| RelationTypeRuns.AcceptedTypeNeverPendingAgain | src/domain/memory/services.py:351-362 | once accepted, no pending suggestion for the type reappears |
| RelationTypeRuns.AcceptedTypeIsUsedDirectly | src/domain/memory/services.py:342-345 | once accepted, every later resolve of the name uses the type and records no suggestion |
| RelationTypeRuns.StepDecides | src/domain/memory/services.py:354-386 | a status changes only by a committed decision on its own type |
| RelationTypeRuns.FirstDecisionWins | src/domain/memory/services.py:354-386 | the first committed decision on its type settles a suggestion for good |
| RelationTypeNames.ResolveErrorIff | src/domain/memory/services.py:414-443 | how a resolve transaction ends, for every input |
| RelationTypeNames.RepeatWorksIffUpperCase | src/domain/memory/repositories.py:406-444 | resolving a new name twice works exactly when it is its own upper case |
| RelationTypeNames.UpperCaseNeverFails | src/domain/memory/services.py:278-291 | with upper-case names and an accepted fallback no resolve fails because of types |
| RelationTypeNames.UpperCaseHistory | src/domain/memory/models.py:398-401 | the names after a history are the initial and the requested ones |

## Left out

- HTTP, authentication, the admin panel, logging, settings, the message broker: input and output without a hard property.
- The LLM call and the extraction prompt: an extraction is any value of its schema.
- Extractions with suggestions (`bulk_create_extracted_relation_types`): the code reads rows from a `.returning()` without columns, so what it stores is not determined by the repository.
- `search_similar` and the vector index: arithmetic of the database extension.
- `delete_by_embeddable`, the listing queries and `link_entity` outside consolidation: one-line statements.
- Column types and lengths (among them the free text the extraction puts into `events.timestamp`), importance scores, foreign keys to users and, for resolved relationships, entities: the database may refuse an insert for them, and the flags `refused`, `Refusals` and `commits` say that it does.
- `ck_valid_period`: `valid_to` is never set by the modelled code, so it always holds.
- BulkCreateEvents: which texts PostgreSQL accepts as a timestamp is not modelled; a text it does not accept is `refused`.
- BulkCreateRelations: `valid_from` is not a column of the model, so a violation of `uq_relationship` is `refused`; `UniqueUnderEveryClockIff` says when there can be none.
- ConsolidateRelations: as BulkCreateRelations.
- ConsolidateEntitiesEvents: as BulkCreateEvents.
- ConsolidationsDoNotInterfere: reads events in link order; `list_by_entity` sorts the same events by their timestamp.
- `EntityService`: `get_or_create_entity` calls a repository method that is not part of this model or of the repository.
- Writes through the admin views and the deletions, which can change any row: histories consist of service transactions.
- Concurrent transactions: each step sees the tables the previous one left. The rate limiter does not await between reading and recording, so its calls are atomic as modelled.
- Consolidate: refusals outside the modelled keys and checks are inputs, and temp ids mapped by position rely on `bulk_create` returning rows in input order, which is assumed and not derived.
- Reassemble: gives back the vectors of the kept chunks, because rows hold no text.
- Primary keys of suggestions and relationships: rows are told apart by their position.
