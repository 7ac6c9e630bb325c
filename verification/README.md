# A verified model of the retrieval backend

This Dafny project models the state-carrying logic of a retrieval-augmented question answering
backend and proves what it keeps. The relational database, Redis, the Vespa index, the embedding API
and every language model are maps, lists or oracles that may answer anything; the code around them
is modelled branch by branch. `dafny verify dfyconfig.toml` checks all of it.

| files | what they model |
|---|---|
| `text.dfy` | white space, `strip`, `find`, `join`; the non-white characters ("ink") of a text; small shared helpers |
| `simple_split.dfy`, `chunk_spans.dfy` | the overlap splitter and the recovery of chunk positions |
| `paragraph_chunker.dfy` | the rule-based chunker: splitting on blank lines, greedy packing |
| `semantic_chunker.dfy`, `semantic_packing.dfy`, `semantic_paths.dfy` | structural splitting, sections cut by a model, packing, the size filter, and which documents go which way |
| `ingest_spec.dfy`, `ingest_service.dfy`, `ingest_properties.dfy`, `ingest_convergence.dfy`, `ingest_gaps.dfy`, `ingest_fields.dfy`, `ingest_examples.dfy` | upsert ingestion with a chunk-level diff over the tables and the index, with any call raising, Redis down, rows left out of a read, and any embedding or index write lost |
| `backfill.dfy` | the paged re-indexing script |
| `cache_key.dfy`, `versioned_cache.dfy`, `cache_entries.dfy` | keys of the two caches, and their interleaved use, the one inside the other, under one version counter |
| `embedding_cache.dfy`, `embedder.dfy` | the LRU cache of embeddings; retries, batches and fallbacks |
| `citations.dfy`, `answer_gate.dfy`, `agent_turns.dfy`, `agent_replies.dfy` | citation markers, the tiers between agent and cache, whole turns of the three handlers |
| `session_memory.dfy` | the sliding window of conversation turns on either backend |
| `auth_spec.dfy`, `auth_router.dfy`, `auth_properties.dfy`, `auth_accounts.dfy` | accounts; refresh, reset and verification tokens; the administration of users as far as it touches them |

Code that updates fields or loops is a class or a method here, proved equal to a function of the old
state; the properties are lemmas about those functions. An "exactly when" lemma is an if-and-only-if
over all inputs. A digest is modelled by the text it is taken of and a random token or identifier by
one not seen before.

## Where the code and its documentation part

Each of these is a lemma below; the code was followed. A second name is a run, or an input, that shows it.

- Some configurations that validation accepts make the overlap splitter loop forever
  (`TerminatesExactlyWhen`); one is size 300, overlap 102, minimum 100 (`StandsStill`).
- A negative overlap is accepted too and drops characters (`LosslessExactlyWhen`). So is a chunk size
  that is not positive, with a yet smaller overlap; then the bounds on chunks and their number fail
  (`ChunkBoundsExactlyWhen`), and below 0 so do those of the semantic chunker
  (`SemanticChunksWithinExactlyWhen`, `RawChunksWithinExactlyWhen`).
- Recovered positions slice the document to the chunk's text for every document only without overlap
  (`FaithfulExactlyWhen`; `FaithfulWithoutSizeExactlyWhen` for such sizes). Those the rule-based chunker
  records leave out the blank lines between chunks (`InPlaceExactlyWhen`).
- The semantic chunker's minimum-size filter drops text (`LosslessExactlyWhenNothingShort`,
  `ShortTailIsLost`).
- When the embedding API answers a batch with too few vectors, ingestion reports success without the
  chunks lost there; and when the server returns only some of a document's rows, an update reports
  success with stale rows in place (`IngestSettlesExactlyWhen`, `UnreadRowStays`).
- An ingest that failed while embedding or saving is not repaired by repeating it, because the digest
  is on record already (`RetryRepairsExactlyWhen`, `EmbeddingFailureStays`).
- The graph builder is documented never to raise, but can while it connects; the rows saved just before
  are then not in the index, and repeating the ingest does not put them there (`IngestKeeps`,
  `GraphFailureStaysUnfed`).
- Not every ingest that changes the stored chunks bumps the cache version: an update that only removes
  chunks does not, nor one that raises after removing or saving some, nor any with Redis down
  (`UnbumpedChangeExactlyWhen`, `EmptyingIsUnbumped`). Deleting a document never does
  (`DeleteNeverBumps`).
- Rows that an update keeps also keep their old index, so a document's rows sorted by index need not be
  in the chunker's order (`InOrderExactlyWhen`).
- An update does not write the document's access level, though new chunks are fed under it
  (`AccessAgreesExactlyWhen`).
- The backfill advances by the page size it asked for, so a server that caps pages makes it skip rows
  (`VisitsAllExactlyWhen`).
- A bump does not orphan every result from before it: one retrieved before the change can be stored
  under the version after it (`StoreFreshExactlyWhen`, `OvertakenStoreSurvivesBump`), an answer begun
  after a bump can be drawn from such chunks (`AnswerOutlivesBump`), and a look-up whose version read
  fails can be served what was stored under the first version (`HitsAreEarlierStores`,
  `FailedReadIsServed`).
- A user whose identifier is empty or `public` shares cache entries with anonymous callers
  (`ApartFromAnonymousExactlyWhen`, `SharedExactlyWhen`).
- The answer cache is documented never to hold abstentions; it never holds the abstain message, but it
  can hold an agent's answer with an abstaining phrase (`AbstentionCachedExactlyWhen`,
  `AbstentionIsCached`).
- A number no search has shown is documented to be caught, but the results of all searches of a turn
  are counted together while each search numbers its own from 1 (`NothingMadeUpExactlyWhen`).
- The streaming handler judges confidence by a search of its own and counts a turn without any tool as
  one that searched, so it caches answers whose agent retrieved nothing, or nothing similar enough
  (`StreamedIsFitExactlyWhen`), and cites nothing (`StreamedUncitedExactlyWhen`, `ChatterIsCached`).
- A window of 0 turns is unbounded (`WindowBoundsExactlyWhen`).
- A user an administrator creates counts as verified without a verification token
  (`VerifiedExactlyWhen`).
- A reset token stays good after the password was reset or changed by other means
  (`RedeemedExactlyWhen`), and presenting a refresh token ends it even if its owner is inactive
  (`ExchangedExactlyWhen`).

## Model

| member | source | states |
|---|---|---|
| SimpleSplit.EndsAfterLastBoundary | ingestion/chunker.py:371-383 | the chunk ends just after the last sentence boundary of the search range, at the full size if there is none |
| SimpleSplit.PlacesFromEnd | ingestion/chunker.py:375-386 | Python's reading of places before the start or past the end, as an index and in a slice |
| SimpleSplit.FindChunkEnd | ingestion/chunker.py:374-383 | for any configuration and position, the backward search loop finds that end, or raises where Python's index is out of range |
| SimpleSplit.TerminatesExactlyWhen | ingestion/chunker.py:366-387 | for a validated configuration, the splitter ends on every text if and only if the overlap is within the least advance |
| SimpleSplit.StandsStill | ingestion/chunker.py:44-49 | a validated configuration and a text on which the position never changes after any number of iterations |
| SimpleSplit.Split | ingestion/chunker.py:356-387 | on every text on which the loop ends or raises, under any configuration, it does what the iteration specifies |
| SimpleSplit.SplitsAreChunks | ingestion/chunker.py:356-387 | under a configuration that ends on every text, what the iteration leaves behind is the recursively specified chunks |
| SimpleSplit.ChunkBoundsExactlyWhen | ingestion/chunker.py:44-49 | for every text no chunk is empty or longer than the chunk size plus one, and the chunks but one, times the least stride, are fewer than its characters, if and only if the chunk size is positive, which validation does not ask |
| SimpleSplit.RebuildsWhole | ingestion/chunker.py:366-387 | the first chunk and every later one without its overlap give back the text |
| SimpleSplit.LosslessExactlyWhen | ingestion/chunker.py:44-49 | that holds for every text if and only if the overlap is not negative |
| ChunkSpans.CreateChunkObjects | ingestion/chunker.py:405-452 | each chunk is placed where it is next found from the end of the one before, else right there |
| ChunkSpans.BeginsAtFirst | ingestion/chunker.py:420-431 | a span begins at the first occurrence of its chunk from the end of the span before, or right there if there is none |
| ChunkSpans.SpansInOrder | ingestion/chunker.py:420-450 | spans have their chunks' lengths, come in order and never overlap, for any chunks of any document |
| ChunkSpans.FaithfulExactlyWhen | ingestion/chunker.py:389-452 | with a positive chunk size, every span of a text slices it to its raw chunk if and only if there is no overlap or one chunk; with overlap 0 the spans tile the text |
| ChunkSpans.FaithfulWithoutSizeExactlyWhen | ingestion/chunker.py:44-49 | with any other size accepted, every text's spans do so if and only if the overlap is at most twice the size |
| ParagraphChunker.MatchIsLongest | ingestion/chunker.py:492 | the separator match is the longest run of white space with two newlines at that place, and exists if any does |
| ParagraphChunker.ParagraphsWellFormed | ingestion/chunker.py:492-497 | what is split off and kept is stripped, not empty and has no blank line inside |
| ParagraphChunker.SplittingUndoesJoining | ingestion/chunker.py:491-549 | splitting well-formed paragraphs joined by blank lines gives them back |
| ParagraphChunker.GreedyIsGrouping | ingestion/chunker.py:498-543 | the groups hold all paragraphs in order, each fits or is a lone paragraph, and none could have taken the next one's first paragraph |
| ParagraphChunker.PackFirst | ingestion/chunker.py:498-536 | the first group is at least as long as any admissible first group |
| ParagraphChunker.GreedyIsMinimal | ingestion/chunker.py:498-543 | no order-preserving grouping into admissible chunks has fewer chunks |
| ParagraphChunker.FillChunks | ingestion/chunker.py:494-543 | the loop emits exactly the greedy groups, numbered, with positions stepping back by the overlap |
| ParagraphChunker.ChunkDocument | ingestion/chunker.py:462-549 | every chunk of the document, with the total filled in |
| ParagraphChunker.PositionsExactly | ingestion/chunker.py:505-543 | a chunk starts where the one before it does, or the overlap before the end of that one if it is longer |
| ParagraphChunker.PartIsAtOffset | ingestion/chunker.py:499-503 | in a text joined with blank lines, each part stands at its offset |
| ParagraphChunker.InPlaceExactlyWhen | ingestion/chunker.py:505-543 | the recorded starts are the places of the chunks in the joined text if and only if there is at most one chunk, or the overlap is -2 |
| ParagraphChunker.RechunkingIsStable | ingestion/chunker.py:491-549 | the chunks joined by blank lines are the paragraphs so joined, and chunking that text again gives the same groups |
| ParagraphChunker.ChunksKeepInk | ingestion/chunker.py:462-549 | no character but white space is lost, repeated or moved |
| SemanticChunker.SplitOnStructure | ingestion/chunker.py:219-251 | the loop over six patterns computes the specified sections |
| SemanticChunker.PartsKeepText | ingestion/chunker.py:242-249 | splitting at whatever a pattern matches, with the matched separators kept, loses no character |
| SemanticChunker.SectionsInk | ingestion/chunker.py:219-251 | so the whole structural split keeps every character but white space, in order, whatever the patterns match |
| SemanticChunker.SectionsNotBlank | ingestion/chunker.py:219-251 | and leaves no blank section |
| SemanticPaths.NonBlankPicks | ingestion/chunker.py:248 | of the parts between and at matches, exactly those that are not blank are kept, in order |
| SemanticChunker.SemanticChunk | ingestion/chunker.py:170-217 | the packing loop, with long sections handed to the model; it raises exactly when the overlap splitter does on a section handed to it |
| SemanticChunker.SplitLongSection | ingestion/chunker.py:285-354 | a long section: the model's usable parts, else what the overlap splitter returns or raises |
| SemanticChunker.KeepValid | ingestion/chunker.py:330-343 | the model's parts within the two size limits |
| SemanticPaths.SplitExactly | ingestion/chunker.py:333 | splitting at a separator gives parts if and only if these make up the text with the separator between them and none but the separator's first occurrence ends a part |
| SemanticPaths.ValidPartsPicks | ingestion/chunker.py:333-343 | of the stripped parts of a reply, exactly those within the two bounds are kept, in order |
| SemanticPaths.SplitLongExactly | ingestion/chunker.py:285-354 | a long section becomes exactly those parts, unless there are none, no reply, over 20000 characters or the section is tabular: then what the overlap splitter makes of it |
| SemanticPacking.PackedIsLayout | ingestion/chunker.py:183-210 | the packed chunks are those of a layout: consecutive sections, none left out, each chunk as many as fit, and a section over the maximum size cut up |
| SemanticPacking.LayoutIsUnique | ingestion/chunker.py:183-210 | there is only one such layout of the sections |
| SemanticPaths.LongEnoughPicks | ingestion/chunker.py:212-217 | of the packed chunks, exactly those that reach the minimum size when stripped are kept, in order |
| SemanticChunker.SemanticChunksWithinExactlyWhen | ingestion/chunker.py:170-217 | for every document, whatever matches and whatever the model answers, every chunk is between the minimum size and the larger of chunk size plus one and the maximum size, if and only if the chunk size is not negative |
| SemanticChunker.PackedInk | ingestion/chunker.py:170-217 | without oversized sections, packing keeps the document's ink in order, before the filter |
| SemanticChunker.LosslessExactlyWhenNothingShort | ingestion/chunker.py:212-217 | the filter loses ink if and only if some packed chunk is below the minimum size |
| SemanticChunker.ShortTailIsLost | ingestion/chunker.py:212-217 | a section that fills a chunk and then a short one: the short one is lost, whatever the model |
| SemanticChunker.ChunkDocument | ingestion/chunker.py:84-168 | the chunk objects are placed for the semantic or the fallback chunks, by the code's conditions; it raises exactly when the fallback does |
| SemanticPaths.HandedExactly | ingestion/chunker.py:191-210 | a section is handed to the overlap splitter if and only if what it is cut into matters to the packing and no reply cuts it |
| SemanticPaths.TabularExactly | ingestion/chunker.py:253-283 | a text is tabular if and only if it has two lines and those of the first ten that are not blank hold three tabs each on average, or three commas |
| SemanticPaths.RawChunksExactly | ingestion/chunker.py:106-168 | a document that is not blank is chunked semantically if and only if that is configured, it is not tabular, over the chunk size and below 500000 characters, and the attempt, neither cut short nor raising, leaves chunks |
| SemanticChunker.RawChunksWithinExactlyWhen | ingestion/chunker.py:84-168 | on either path no raw chunk of any document is over the size bound, if and only if the chunk size is not negative |
| SemanticChunker.EveryDocumentIsChunked | ingestion/chunker.py:84-168 | a document gets a chunk if and only if it is not blank |
| IngestService.Service.GetDocumentBySource | agent/db_utils.py:157-166 | finds the document of a source |
| IngestService.Service.SaveChunks | agent/db_utils.py:225-254 | inserts the chunks as rows under fresh identifiers and changes no other row |
| IngestService.Service.FeedChunks | agent/vespa_client.py:68-92 | feeds the rows whose write is not lost, and counts them; what an entry then holds is in IngestFields.EntriesExactly |
| IngestService.Service.DeleteEntries | agent/vespa_client.py:95-131 | removes the entries whose delete is not lost |
| IngestService.Service.IngestDocument | ingestion/ingest_service.py:91-282 | skip, insert or diff-update: both stores, the version and the result are those of the specification, whatever call raises, whatever is lost and whatever rows are not read |
| IngestService.Service.UpdateDocument | ingestion/ingest_service.py:156-213 | the diff against the rows read: stale ones and their entries go, the document's row is rewritten, new chunks are saved |
| IngestService.Service.EmbedAndSave | ingestion/ingest_service.py:215-261 | embeds, saves what comes back, feeds it and bumps if Redis is up; or fails before changing anything, or in the graph builder after saving |
| IngestService.Service.DeleteDocument | agent/db_utils.py:331-349 | deletes rows, entries and the document's row, in that order |
| IngestFields.EntriesExactly | ingestion/ingest_service.py:219-261 | whatever raises and is lost, an entry that an ingest adds is of a row it adds, with the row's content, embedding and document, the title and source asked for, and the access level asked for, or "public" if that is empty; the entries it removes are those of stale rows whose delete is not lost |
| IngestFields.FedExactly | agent/vespa_client.py:68-92 | an ingest that does not fail feeds a new row if and only if its write is not lost |
| IngestFields.RowsExactly | agent/db_utils.py:225-254 | the rows it adds are the chunks that came back from the embedder, in order, each with its own content, index and vector |
| IngestFields.SurvivorsExactly | ingestion/ingest_service.py:215-230 | and those are the chunks whose embedding is not lost, each at its place among them |
| IngestFields.DocumentExactly | agent/db_utils.py:169-211 | an ingest that gets so far leaves the content and title asked for on the document's row, and the level asked for on a new one |
| IngestFields.DeletesExactly | agent/db_utils.py:331-349 | a delete removes the document's rows, its entries whose delete is not lost, and its own row, as far as it gets, and nothing else |
| IngestProperties.ToEmbedTexts | ingestion/ingest_service.py:156-204 | an update embeds each distinct content not yet stored, once, and nothing else |
| IngestProperties.IngestKeeps | ingestion/ingest_service.py:91-282 | an identifier in both stores keeps one content and document, whatever fails; with no lost write stores in step stay so if and only if the graph builder does not raise |
| IngestProperties.DeleteKeeps | agent/db_utils.py:331-349 | the same for deletes |
| IngestProperties.StoresAgreeInEveryRun | agent/vespa_client.py:68-131 | so in every state of every run of ingests, deletes and backfills; both hold the same identifiers if no write was lost and no graph builder raised |
| IngestConvergence.SkippedIngest | ingestion/ingest_service.py:136-143 | a skipped ingest changes nothing and the version asked for is on record |
| IngestConvergence.InsertedIngest | ingestion/ingest_service.py:219-254 | an inserted document holds the contents the embedder gave back, so exactly the chunker's if and only if none was lost there; all else is untouched |
| IngestConvergence.UpdatedIngest | ingestion/ingest_service.py:156-254 | an updated document holds the contents read and still wanted, those not read, and what came back of the rest; exactly the chunker's if and only if no stale row was left unread and nothing is lost for good; surviving rows keep identifier and embedding, other documents keep their rows |
| IngestConvergence.UnreadRowStays | agent/db_utils.py:293-301 | a stale row that is not read outlives an update that reports success |
| IngestConvergence.IngestSettlesExactlyWhen | ingestion/ingest_service.py:132-261 | an ingest that does not fail leaves every document with the chunker's contents of its version on record if and only if it is skipped, or everything sent to the embedder is stored afterwards and no row left unread is stale |
| IngestConvergence.SuccessfulRunsConverge | ingestion/ingest_service.py:132-261 | so every document has them after any run of such ingests |
| IngestConvergence.RepeatIsSkipped | ingestion/ingest_service.py:136-143 | an immediate repeat is skipped with no change |
| IngestConvergence.FailedEarly | ingestion/ingest_service.py:132-213 | a failure before the document's row is written leaves the old version on record |
| IngestConvergence.FailedLate | agent/db_utils.py:169-211 | a failure after it, while embedding, saving or building the graph, leaves the new version on record, and the document whole under the same condition; never if it failed while embedding or saving with all rows read |
| IngestConvergence.RetryRepairsExactlyWhen | ingestion/ingest_service.py:132-261 | a fault-free retry of a failed ingest leaves the document whole if and only if, for a late failure, it already was, and for an early one, what is on record is whole and the retry leaves no stale row unread |
| IngestConvergence.GraphFailureStaysUnfed | ingestion/graph_builder.py:144-156 | after the graph builder raised, the saved rows are not in the index and no later ingest of that version changes anything |
| IngestExamples.EmbeddingFailureStays | ingestion/ingest_service.py:132-261 | a first ingest that fails while embedding, and any later one of the same text: no row is ever stored |
| IngestGaps.UnbumpedUpdateExactlyWhen | ingestion/ingest_service.py:206-254 | an ingest of a changed source changes rows without bumping the version if and only if it removes or saves some and stops short of the bump, by a fault or for lack of new contents, or Redis is down |
| IngestGaps.UnbumpedInsertExactlyWhen | ingestion/ingest_service.py:219-254 | one of a new source does so if and only if it saves rows and then the graph builder raises or Redis is down |
| IngestGaps.UnbumpedChangeExactlyWhen | ingestion/ingest_service.py:132-261 | the two together, for every ingest, fault and loss, in terms of what is stored before it |
| IngestExamples.EmptyingIsUnbumped | ingestion/ingest_service.py:206-213 | an update to the empty text: all rows go, the version stays |
| IngestGaps.DeleteNeverBumps | agent/db_utils.py:331-349 | deleting a document leaves the version alone, and changes rows if and only if it has some and gets past its first two calls |
| IngestGaps.AccessAgreesExactlyWhen | agent/db_utils.py:169-211 | after an update, each entry has the level stored for its document, or "public" for an empty one, if and only if the level asked for is the one stored, both counting as "public" if empty, or no write of a new chunk got through |
| IngestGaps.InOrderExactlyWhen | agent/db_utils.py:293-301 | after an update, sorting a document's rows by index gives the chunker's order if and only if it does for the rows that stay and these fit in between the new ones |
| BackfillIndex.Indexer.FeedPage | scripts/backfill_vespa.py:47-72 | one page fed, in order, and its writes counted |
| BackfillIndex.Indexer.Backfill | scripts/backfill_vespa.py:38-75 | the loop ends, feeds the rows it visits and counts the writes |
| BackfillIndex.VisitsAllExactlyWhen | scripts/backfill_vespa.py:38-75 | every row is visited once and in order if and only if the server honours the page size or the table fits one page, and with a page size of 0 only if there is none |
| BackfillIndex.BackfillFeedsAll | scripts/backfill_vespa.py:28-79 | then the index holds every row whose write was not lost, under its document's current title and access |
| IngestFields.BackfilledExactly | scripts/backfill_vespa.py:47-72 | a backfilled entry has its row's content, embedding and document, and the title, source and access level of the document's row, "public" if that is empty |
| BackfillIndex.BackfillCountsAll | scripts/backfill_vespa.py:28-79 | with no lost write the total is the number of rows |
| BackfillIndex.BackfillRebuilds | scripts/backfill_vespa.py:28-79 | with no lost write the stores hold the same identifiers if and only if the index held no others before |
| CacheKey.NormalFormIsWords | agent/query_cache.py:65-69 | the normal form is the lower-cased maximal runs of word characters joined by blanks |
| CacheKey.NormalizeTwice | agent/query_cache.py:65-69 | normalization is idempotent |
| CacheKey.SameNormalFormExactlyWhen | agent/query_cache.py:57-69 | two queries normalize equally if and only if those runs agree |
| CacheKey.SameKeyExactlyWhen | agent/query_cache.py:101-104 | two keys are equal if and only if cache, version and limit are, the callers are the same or each none, empty or "public", and the queries have the same words; even when an identifier contains the separator |
| CacheKey.ApartFromAnonymousExactlyWhen | agent/query_cache.py:82-84 | so a user's entries are apart from the anonymous ones if and only if the identifier is neither empty nor the public scope's name |
| CacheKey.SharedExactlyWhen | agent/answer_cache.py:57-65 | in either cache, two callers get one key for the same query, limit and version if and only if their identifiers are equal or each is among none, empty and "public" |
| VersionedCache.Redis.Version | agent/query_cache.py:87-98 | the version, 0 when the server is down |
| VersionedCache.Redis.Get | agent/query_cache.py:107-128 | a hit is the stored payload under the current key; anything else is a miss |
| VersionedCache.Redis.Set | agent/answer_cache.py:98-120 | stores under the version read at that moment, or does nothing |
| VersionedCache.Redis.BumpVersion | agent/query_cache.py:149-160 | increments, or does nothing when the server is down |
| VersionedCache.RunKeeps | agent/query_cache.py:107-160 | in every interleaving of turns, agents' searches, ingests and expiries, with any commands failing, every entry and turn is accounted for by earlier retrievals and stores |
| VersionedCache.StoreFreshExactlyWhen | agent/tools.py:204-283 | in every interleaving a stored result is no older than the version it is stored under if and only if for every retrieval behind it, its own or that of cached chunks its agent was served, no bump came between that retrieval and the second version read, or the corpus did not change between it and the last such bump |
| VersionedCache.HitsAreEarlierStores | agent/query_cache.py:107-146 | a hit was stored earlier for the same words, caller and limit under the version read, chunks being what a retrieval gave, and is as fresh as that; a look-up or store whose version read failed meets only those under version 0 or with a failed read |
| CacheEntries.HeldExactlyWhen | agent/query_cache.py:131-146 | in every interleaving the server holds a store if and only if it went through and nothing has expired or replaced it since |
| CacheEntries.HitExactlyWhen | agent/query_cache.py:107-128 | in every interleaving a look-up is a hit on a store if and only if it goes through, the request is not a blank question, and that store, for the same request and the version read, is so held; anything else is a miss |
| VersionedCache.OvertakenStoreSurvivesBump | agent/query_cache.py:131-146 | an interleaving with a store that is not fresh, served to the next caller after the bump |
| VersionedCache.AnswerOutlivesBump | agent/answer_cache.py:98-120 | one where an answer begun after a bump, and stored before any other, is older than that bump |
| VersionedCache.FailedReadIsServed | agent/query_cache.py:87-98 | one where a failed version read is served what was stored before the bump |
| EmbeddingCache.Cache.Get | ingestion/embedder.py:298-304 | returns what is stored and makes the text the most recent |
| EmbeddingCache.Cache.Oldest | ingestion/embedder.py:306-319 | the minimum over the access times is the least recently used text |
| EmbeddingCache.Cache.EvictOldest | ingestion/embedder.py:306-315 | evicts that text when full and nothing else; raises only with room for nothing |
| EmbeddingCache.Cache.Put | ingestion/embedder.py:306-319 | stores the text as most recent within the size; the dictionaries keep equal keys |
| EmbeddingCache.Cache.CachedGenerate | ingestion/embedder.py:350-357 | for a deterministic generator, a caller cannot tell a hit from a miss |
| EmbeddingCache.RecentMeaning | ingestion/embedder.py:289-325 | the recency list has each text called once |
| EmbeddingCache.Cache.GenerateAll | ingestion/embedder.py:350-361 | a whole trace of calls, some raising: what each returns, and that the dictionaries hold the texts of the specified recency list |
| EmbeddingCache.HoldsMostRecent | ingestion/embedder.py:289-361 | after any calls, whichever raise, those are exactly the texts most recently returned, as many as fit |
| EmbeddingCache.LargerHoldsMore | ingestion/embedder.py:289-361 | on any trace, even with a generator that raises, a larger cache holds all a smaller one does |
| EmbeddingCache.LargerMissesNoMore | ingestion/embedder.py:350-357 | so it never misses more often |
| Embedder.Generator.GenerateEmbedding | ingestion/embedder.py:71-112 | the first usable answer, or the last error after all attempts; it slept exactly as long as the errors before ask, at most the delay times 2^(m-1)-1 |
| Embedder.Generator.SleepsBounded | ingestion/embedder.py:86-112 | what a round of attempts sleeps, doubling after each rate limit, is within that bound |
| Embedder.Generator.ProcessIndividually | ingestion/embedder.py:166-195 | a vector for every text, its own, or zero only for a blank text or after a whole failed round |
| Embedder.Generator.GenerateBatch | ingestion/embedder.py:114-164 | the first answer to the batch, and how long it slept before; after a failed round the last error decides between raising and going one by one |
| Embedder.Generator.EmbedBatch | ingestion/embedder.py:219-267 | the chunks of a batch, in order, each with a vector that the API gave for its place in the batch, or for it alone, or zero |
| Embedder.Generator.EmbedChunks | ingestion/embedder.py:197-269 | chunks come back in order, intact; for an API that, whenever it answers, gives every text the vector some function assigns to it, each comes back with the vector of its content, of the first characters up to the limit if it is longer, or with the zero vector if it is blank or a whole round failed; none is lost if and only if every answer had enough vectors; calls are at most ceil(n/b)*m + n*m |
| Embedder.AllInOrder | ingestion/embedder.py:197-269 | when none is lost they come back one for one |
| Citations.CitationsExactly | agent/citations.py:55-57 | a number is extracted if and only if it is written as digits of any script between brackets |
| Citations.MarkerIsFound | agent/citations.py:30 | the marker written for a chunk's number is read back as that number |
| Citations.AbstainsExactlyWhen | agent/citations.py:60-62 | an answer looks like an abstention if and only if one of the phrases occurs in it, in any case |
| Citations.RangeMeaning | agent/citations.py:76-82 | an answer has an extracted citation out of range if and only if it has one written |
| Citations.ValidExactlyWhen | agent/citations.py:71-97 | an answer is "ok" or passes exactly when what it cites is in range and it cites, or needs not to |
| AnswerGate.MaxCosineReached | agent/tools.py:40-44 | the similarity used is the maximum, and some chunk's |
| AnswerGate.ConfidentExactlyWhen | agent/tools.py:47-49 | retrieval is confident if and only if some chunk reaches the threshold |
| AnswerGate.GatedIsFit | agent/api.py:470-509 | what either gate lets into the cache came with confident chunks, cites, cites only them, and is neither message |
| AnswerGate.GroundedExactlyWhen | agent/groundedness.py:160-206 | which judgements make an answer cacheable, and the text that results of every judgement |
| AnswerGate.CachedExactlyWhen | agent/api.py:470-509 | exactly which turns are cached and as what; a judge that does not answer lets the response through uncached |
| AnswerGate.RepliesCiteWithin | agent/api.py:485-500 | after a search no reply cites a number beyond all that was retrieved |
| AnswerGate.NothingMadeUpExactlyWhen | agent/agent.py:92-104 | whatever the agent answers, no reply cites a number that no search has shown, if and only if at most one search of the turn found anything or what they found is not confident |
| AnswerGate.AbstentionCachedExactlyWhen | agent/groundedness.py:172-189 | some judgement gets an abstaining phrase cached if and only if the agent's own confident, correctly cited response has one |
| AnswerGate.AbstentionIsCached | agent/groundedness.py:172-189 | an answer with an abstaining phrase and a marker is cached as it is |
| AnswerGate.StreamedIsTraceable | agent/api.py:630-772 | what the streaming handler lets into the cache cites only what was retrieved, and cites if anything was |
| AnswerGate.StreamedIsFitExactlyWhen | agent/api.py:630-772 | it is as fit as the other handlers' if and only if the agent itself retrieved chunks, and with confidence |
| AnswerGate.StreamedUncitedExactlyWhen | agent/api.py:630-772 | exactly which answers of an agent that retrieved nothing it caches |
| AnswerGate.ChatterIsCached | agent/api.py:630-772 | twelve words from an agent that retrieved nothing are cached as they are |
| AgentTurns.Assistant.ExecuteAgent | agent/api.py:243-299 | every path, blocked, answered or raised, saves one turn with the text returned |
| AgentTurns.Assistant.Chat | agent/api.py:334-534 | the reply or internal error, the session and the cache after a turn, wherever it raises; administrators neither read nor write the cache |
| AgentTurns.Assistant.Stream | agent/api.py:538-860 | the same for the streaming handler, which remembers no declined or escalated question |
| AgentTurns.Assistant.RunAgentTurn | agent/conversation.py:29-135 | every path, blocked, cached, gated or raised, appends exactly one turn, with the text returned; that text is the gate's after the output guardrail, and only such text is cached |
| AgentTurns.Assistant.TryTurn | agent/conversation.py:50-130 | the guarded part; an exception comes before the session learns of the turn |
| AgentReplies.ChatReplyExactly | agent/api.py:334-534 | the chat handler answers what the cache holds, the decline, or an error; else the escalation text unless retrieval is confident, the agent's words if not from the search, and from the search those words, the judge's correction or the abstain message, by what they cite and how they are judged |
| AgentReplies.ChatEntriesExactly | agent/api.py:502-527 | exactly when it caches, for whom, and that what it caches is its reply |
| AgentReplies.ChatRemembersExactly | agent/api.py:243-299 | what the session is told: the cached answer, or the agent's words before the gate, even if the turn raises after |
| AgentReplies.StreamReplyExactly | agent/api.py:538-860 | the same for the reply of the streaming handler, whose confidence is that of a search of its own |
| AgentReplies.StreamEntriesExactly | agent/api.py:630-772 | exactly when that caches, and that what it caches is its reply |
| AgentReplies.StreamRemembersExactly | agent/api.py:538-860 | the session is told its reply, but no escalation and no question that ended early |
| AgentReplies.TurnReplyExactly | agent/conversation.py:29-135 | the same for the reply outside the HTTP layer: without confidence the abstain message, and the output guardrail last |
| AgentReplies.TurnEntriesExactly | agent/conversation.py:95-130 | exactly when that turn caches, and that what it caches is its reply |
| AgentTurns.RunTurns | agent/conversation.py:29-135 | after any run of turns over any sessions, every session's log is its own messages and the replies returned for them |
| AgentTurns.HistoryAfter | agent/session_memory.py:124-170 | so what a session then shows is its last messages and returned replies, as many turns as the window, and no more |
| AgentTurns.CachedAnswersAreFit | agent/api.py:502-509 | in every run of turns of all three handlers, bumps, expiries and outages, every cached answer was written by an earlier turn and was fit then (streamed: traceable after a confident search; outside the HTTP layer: before the output guardrail) |
| AgentTurns.HitsAreFit | agent/answer_cache.py:75-95 | a reply from the cache was so written for the same words, caller and version |
| AgentReplies.EntryExactlyWhen | agent/answer_cache.py:98-120 | in every run the cache holds an answer under a key if and only if an earlier turn put it there and nothing has replaced it or made it expire since |
| AgentReplies.FoundExactlyWhen | agent/answer_cache.py:75-95 | in every run a question is answered from the cache with a text if and only if the server is up, the question is not blank and a turn for the same words and caller, with no bump since, put that text there |
| SessionMemory.TrimsAgree | agent/session_memory.py:134-140 | the list trim and the in-process trim leave the same messages |
| SessionMemory.TrimKeepsWindow | agent/session_memory.py:204-208 | trimming after every turn keeps the window over the whole log |
| SessionMemory.BackendsAgree | agent/session_memory.py:124-140 | after any turns, trimmed one by one, either backend keeps the window over all of them |
| SessionMemory.WindowIsLastTurns | agent/session_memory.py:124-170 | which is the messages and replies of the last turns |
| SessionMemory.WindowBoundsExactlyWhen | agent/session_memory.py:124-140 | the window bounds what either backend keeps of any number of turns if and only if it is not 0 |
| SessionMemory.WindowAligned | agent/session_memory.py:142-159 | what is kept begins with a user's message |
| SessionMemory.Manager.UseRedis | agent/session_memory.py:69-96 | a failed first ping switches to the process for good |
| SessionMemory.Manager.CreateSession | agent/session_memory.py:103-122 | registers a session without changing any history |
| SessionMemory.Manager.AddTurn | agent/session_memory.py:124-140 | on either backend, the session's log grows by the turn and no other session changes |
| SessionMemory.Manager.GetMessages | agent/session_memory.py:142-159 | on either backend, the window over the session's log |
| SessionMemory.Manager.GetContextString | agent/session_memory.py:161-170 | that window, rendered |
| SessionMemory.RendersTurn | agent/session_memory.py:161-170 | each turn adds two lines, the user's message and then the assistant's reply, each with its role |
| SessionMemory.Manager.Expire | agent/session_memory.py:139 | a session's list running out in Redis forgets that session; the process forgets nothing |
| SessionMemory.Manager.ClearSession | agent/session_memory.py:178-184 | forgets that session and no other |
| AuthRouter.Router.BuildTokenResponse | agent/auth_router.py:103-127 | stores and returns a fresh refresh token, or raises |
| AuthRouter.Router.Register | agent/auth_router.py:133-198 | a new unverified user and then a verification token, or 409; either write may raise |
| AuthRouter.Router.Login | agent/auth_router.py:204-235 | the checks in order, then a token |
| AuthRouter.Router.Logout | agent/auth_router.py:241-251 | an active caller revokes the token presented, whoever owns it |
| AuthRouter.Router.RefreshToken | agent/auth_router.py:257-299 | rotation; the old token is revoked before its owner is looked at |
| AuthRouter.Router.ForgotPassword | agent/auth_router.py:305-336 | a reset token for a known address |
| AuthRouter.Router.ResetPassword | agent/auth_router.py:342-385 | password, token and all the user's sessions, written one after the other; any write may raise and leave the earlier ones |
| AuthRouter.Router.ChangePassword | agent/auth_router.py:391-413 | password, then all the user's sessions, likewise |
| AuthRouter.Router.VerifyEmail | agent/auth_router.py:419-454 | the user, then the token, likewise |
| AuthRouter.Router.ResendVerification | agent/auth_router.py:460-496 | another verification token for an unverified user |
| AuthRouter.Router.CreateUser | agent/users_router.py:104-130 | an administrator's new user, verified or not as asked, or 409 |
| AuthRouter.Router.SetActive | agent/users_router.py:191-205 | an administrator activates or deactivates a user |
| AuthRouter.Router.DeleteUser | agent/users_router.py:233-237 | an administrator removes a user |
| AuthProperties.AddressesUnique | agent/users_router.py:104-116 | in every run each address belongs to at most one user |
| AuthProperties.RunKeepsRows | agent/auth_router.py:241-454 | over any run, wherever its writes raise, revoked and used flags never go back, and owners and expiries never change |
| AuthProperties.LiveExactlyWhen | agent/auth_router.py:103-127 | a refresh token is live if and only if it was granted and has not been presented in time, logged out or cleared since |
| AuthProperties.ExchangedExactlyWhen | agent/auth_router.py:257-299 | it is exchanged if and only if it is live so, has not expired, its owner is active and both writes go through |
| AuthProperties.ExchangedOnce | agent/auth_router.py:257-299 | each refresh token is exchanged at most once |
| AuthProperties.ResetEndsSessions | agent/auth_router.py:342-413 | no refresh token granted before its owner's password reset or change is accepted after it |
| AuthProperties.SessionsBounded | agent/auth_router.py:204-299 | a user's live refresh tokens never outnumber the successful logins since the last reset or change |
| AuthProperties.UnusedExactlyWhen | agent/auth_router.py:305-336 | a reset or verification token is unused if and only if it was issued and no write has marked it used since |
| AuthProperties.RedeemedExactlyWhen | agent/auth_router.py:342-454 | it is accepted if and only if it is unused so and has not expired, a new password is long enough, and every write goes through |
| AuthProperties.RedeemedOnce | agent/auth_router.py:342-454 | each is redeemed at most once |
| AuthAccounts.FactExactlyWhen | agent/auth_router.py:133-454 | in every run a user has an address or password, or is active or verified, if and only if an earlier request, its write having gone through, brought that about and none has undone it since |
| AuthAccounts.VerifiedExactlyWhen | agent/users_router.py:33-130 | so a user is verified if and only if a verification token of theirs was once presented in time or an administrator created them so, and they have not been removed since |
| AuthAccounts.LoginExactlyWhen | agent/auth_router.py:204-235 | in every run a login is answered 401 unless the address is a user's and the password the one last set for them, then 403 unless they are active and verified since; otherwise it is issued a token if its write goes through |
| AuthAccounts.LoginNeedsVerification | agent/auth_router.py:204-235 | nobody logs in without being verified so |
| AuthAccounts.RegisterReply | agent/auth_router.py:133-198 | registering needs eight characters of password, an address no user has, and two writes |
| AuthAccounts.ChangeReply | agent/auth_router.py:391-413 | a change of password needs an active caller, a long enough new password, the password they have, and two writes |
| AuthAccounts.ResetReply | agent/auth_router.py:342-385 | a reset needs a long enough password, a token in the table, unused and in time, and three writes |
| AuthAccounts.VerifyReply | agent/auth_router.py:419-454 | a verification needs such a token and two writes |
| AuthAccounts.RefreshReply | agent/auth_router.py:257-299 | a refresh needs a token neither revoked nor expired, an active owner, and two writes |
| AuthAccounts.LogoutReply | agent/auth_router.py:241-251 | a logout needs an active caller and one write |
| AuthAccounts.MailReply | agent/auth_router.py:305-496 | a token is mailed if and only if some user has the address, and for a verification one who is not verified |
| AuthAccounts.MailedOwner | agent/auth_router.py:305-336 | and its row names that user |
| AuthAccounts.AdministrationReply | agent/users_router.py:104-237 | creating, switching and removing users needs an active administrator; creating also a long enough password and an address no user has |

## Left out

- FaithfulExactlyWhen: says which texts with a positive chunk size have faithful spans; for the other sizes FaithfulWithoutSizeExactlyWhen only says when all texts do.
- PartsKeepText: which texts the six structural patterns match is not modelled; everything here holds for any patterns.
- HoldsMostRecent: the clock is strictly increasing; ties between two accesses at the same instant are not modelled.
- CitationsExactly: the interpreter's limit on the length of integers.
- NormalFormIsWords: lower-casing is character by character and idempotent; case mappings that change a string's length are not modelled.
- EmbedChunks: a progress callback that raises, metadata timestamps, and the caching wrapper inside the one-by-one fallback.
- CachedAnswersAreFit: turns run one at a time here, and their interleaving with Redis commands is in VersionedCache.
- Chat: the Supabase log of messages, provenance metadata and tool lists; exceptions of the session store itself.
- Stream: as for Chat, and the order and framing of its events; the whole text stands for its pieces.
- HitsAreEarlierStores: what ingests do to the corpus is one counter there; which of them bump is in IngestGaps. What an agent learns from other tools than the document search has no date.
- IngestDocument: two ingests of one source at the same time; what the knowledge graph holds.
- DeleteEntries: the continuation paging of a selection delete is one delete per entry.
- Manager.GetMessages: malformed list items, and `session_exists`, which differs between the backends before the first turn by design.
- Register: roles are not modelled, nor the time of the last login; a write of theirs that raises counts as the next write of the request.
- CreateUser: when only the assignment of its roles raises, the user is created as here but the answer is the internal error.
- DeleteUser: the schema behind the tables is not part of this model; token rows of a removed user stay.
- RunKeepsRows: runs start from empty tables; tokens and identifiers are assumed never minted twice; reads that raise change nothing and are left out; access tokens are not modelled beyond their subject and role.
- Digests, bcrypt, JSON Web Tokens and random identifiers: assumed injective or fresh, without internals.
- HTTP routing, server-sent events, Celery, S3, Neo4j and Supabase transport: no logic beyond calls.
- Vespa ranking, reranking, cosine recovery in floating point: done by an external engine; similarities are reals here.
- Prompt texts, guardrail expressions, scope classification and query rewriting: oracles that may answer anything.
- File parsers, graph builder, settings store, evaluation and deployment scripts: single-branch facts or library calls.
