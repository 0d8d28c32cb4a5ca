# Kernolog core, modelled in Dafny

Kernolog watches the systemd journal and keeps a searchable history of it. A collector reads
journal records. The normaliser (`normalizer/core.py`) mines each message into a Drain3 template,
extracts the variable parts, prints it and sends it downstream. The engine (`engine.py`) routes each
processed record to one of three category stores (`error`, `warning`, `debug`) by its priority, and
hands a category's records over as soon as 16 are buffered, and every buffer once more than five
seconds have passed since the last flush of all buffers (records arriving meanwhile do not delay
it, and a flush on size does not reset that clock). A store (`storage.py`, `RelationalLogDB`) keeps:

- a SQLite file with three tables: templates, occurrences and parameters;
- a binary file of 384-dimensional template vectors.

Its writer caches each template text with its row id and vector index. Its search runs in two
phases. A broad phase takes the 20 best template vectors. A narrow phase re-encodes each candidate
with its latest parameters and re-ranks. The search shell (`shell.py`) turns each typed line into a
search of one store. The first-generation pipeline (`db.py`) does a simpler version of the same
job:

- it scrubs journal lines of timestamps, host names and PIDs;
- it counts repeats and emits counts or summaries every interval;
- it embeds the lines in batches into one index;
- it answers queries with a `k` and a display mode.

The model works on values wherever the source computes and on classes wherever it updates fields.

| module | file | models |
|---|---|---|
| `Wrappers` | wrappers.dfy | `Option` |
| `Text` | text.dfy | the Python `str` operations used: `find`, `in`, `replace`, `strip`, `split`, `join`, `lower`, `int(...)`, `str(n)` |
| `Lists` | lists.dfy | the stable `list.sort(key=..., reverse=True)`, slicing, `range` |
| `Events` | events.dfy | the record dictionary passed between the stages |
| `Normalizer` | normalizer.dfy | `LogNormalizer` as a class; `_extract_params` as an exact model of the anchored lazy regular expression and of its fallback |
| `Engine` | engine.dfy | the router as functions over a state value, plus the `Engine` class whose methods are proved against them |
| `Catalog` | catalog.dfy | the three tables, the vector count and the SQL queries the store issues |
| `Ingest` | ingest.dfy | `add_batch` and `_prepare_occ` as functions of the state before the call |
| `Storage` | storage.dfy | the `RelationalLogDB` class, its two files and the loops of `add_batch` and `search` |
| `Retrieval` | retrieval.dfy | hydration, highlighting, the broad phase, candidates, re-ranking and output of `search` |
| `Legacy` | legacy.dfy | `db.py`: `normalize_log`, the repeat cache, `repeat_flusher`, `embed_worker`, `search_query`, `parse_query_options` |
| `Shell` | shell.dfy | the command loop of `shell.py`, lines 19-80 |

The following are parameters of the model:

- **time**: integer microseconds;
- **the store's failures**: a function from call number to "raises";
- **the miner**: a function from message to `(cluster id, template)`;
- **the sentence encoder and the dot products**: two score functions, `coarse` for the stored
  vectors and `fine` for re-encoded texts.

## Model

| member | source | states |
|---|---|---|
| Text.IndexOf | storage.py:119 | A reported position is one where the pattern occurs. |
| Text.IndexOfLeftmost | storage.py:119 | No occurrence starts before the reported one, and none exists at all when none is reported. So `replace(p, x, 1)` rewrites the leftmost occurrence. |
| Text.StripTrims | normalizer/core.py:80 | `strip()` never lengthens and leaves no whitespace at either end. |
| Text.StripOfStripped | normalizer/core.py:80 | `strip()` is idempotent. |
| Text.LStripSuffix | normalizer/core.py:80 | `lstrip()` keeps a suffix that does not start with whitespace. |
| Text.RStripPrefix | normalizer/core.py:80 | `rstrip()` keeps a prefix that does not end with whitespace. |
| Text.FindChar | shell.py:25 | The position of the first separator, and none when the separator is absent. |
| Text.SplitOn | shell.py:25 | `split(sep, n)` gives between 1 and n + 1 parts. |
| Shell.SplitOnMaximal | shell.py:25 | The split goes as far as it may: with fewer than n + 1 parts, the last part holds no separator. |
| Lists.SortDescCorrect | storage.py:142-149 | The sort returns a permutation of its input in non-increasing key order. |
| Lists.InsertDescKeeps | storage.py:142-149 | Inserting one element adds exactly that element and keeps the order. |
| Lists.SortDescOfSorted | storage.py:142-149 | An already ordered list is returned as it is. |
| Lists.SortDescStable | storage.py:142-149 | The sort is stable: for every key value, the elements with that key come out in their input order. |
| Lists.SortedPrefixIsBest | storage.py:143-152 | A prefix of a list sorted by decreasing key is drawn from it, and nothing left out has a larger key than anything kept. |
| Lists.Prefix | storage.py:152 | `xs[:k]` is a prefix of `xs`; for `k >= 0` it has `min(k, len)` elements. |
| Lists.RangeCounts | storage.py:47 | Every position `0..n-1` of `enumerate` occurs exactly once. |
| Catalog.VectorCount | storage.py:28-30 | The vector count is the number of whole 1536-byte vectors in the file. |
| Catalog.VectorCountAfterAppend | storage.py:60-74 | Appending n vectors raises the count recovered from the file by exactly n, as `vec_count += len(vecs)` does. |
| Catalog.NextTemplateId | storage.py:67-68 | `lastrowid` of a new template row exceeds every existing id. |
| Catalog.MaxIdOfDense | storage.py:67-68 | In tables a writer built from empty files, the largest rowid is the number of rows. |
| Catalog.LoadCacheSynced | storage.py:39-41 | A writer opened on such tables starts in sync: every row is cached under its text with its id and vector index, and every entry names its row. |
| Catalog.ApplyUpdatesSpec | storage.py:77 | The UPDATEs change only `last_seen` and `count`. A row's count grows by one per UPDATE naming it, and its `last_seen` is that of the last such UPDATE. |
| Catalog.TemplateWithVector | storage.py:103 | `fetchone()` of the template query returns a row with that vector index, the first such row in table order, and nothing exactly when no row has that index. |
| Catalog.Latest | storage.py:106 | The latest occurrence query returns a row of that template with the largest timestamp, and nothing exactly when the template has no occurrence. |
| Ingest.StampsIncrease | storage.py:49 | Later batch items get strictly later timestamps. |
| Ingest.Hits | storage.py:52-55 | The cache hits are positions whose text is cached. |
| Ingest.BatchMap | storage.py:56-58 | `batch_map` pairs each uncached item's position with its text. |
| Ingest.NovelSpec | storage.py:57 | The new texts are pairwise distinct and none was cached. Each is some item's text, and every uncached item's text is among them. |
| Ingest.NovelInFirstSeenOrder | storage.py:57 | The new texts come in the order in which the batch first mentions them. |
| Ingest.HitsAndMissesPartition | storage.py:47-58 | Every position is either a hit or in `batch_map`, never both. |
| Ingest.OrderIsPermutation | storage.py:47-73 | The order in which occurrence rows are built (hits first, then the new texts' items) is a rearrangement of the batch positions. |
| Ingest.OrderCoversBatchOnce | storage.py:47-73 | Every batch position gets exactly one occurrence row. |
| Ingest.MissesAreFirsts | storage.py:64-73 | The second loop visits exactly the positions in `batch_map`. |
| Ingest.FinalCacheSpec | storage.py:64-69 | New texts are cached with consecutive ids and vector indices. Old entries are kept. |
| Ingest.CacheAfterBatch | storage.py:64-69 | After a call every batch text is cached and earlier entries are unchanged. The k-th new text holds `(next id + k, vec_count + k)`, so no vector index is skipped or reused. |
| Ingest.FinalOld | storage.py:69 | A text is cached after the call exactly when it was cached before or is new. |
| Ingest.FinalNew | storage.py:65-69 | The k-th new text was not cached before and is cached afterwards as `(next id + k, vec_count + k)`. |
| Ingest.EmptyBatchIsNoop | storage.py:43-79 | An empty batch changes nothing. |
| Ingest.OccurrenceIdsDistinct | storage.py:47-84 | The occurrence ids of one call are pairwise distinct, and each is the timestamp of its own batch position. |
| Ingest.EveryItemHasItsOccurrence | storage.py:47-84 | Each item has a row with its timestamp as id and timestamp, its template's id and its priority (6 when missing). |
| Ingest.TemplatesAfterKeys | storage.py:77 | The UPDATEs keep every row's id, text and vector index. |
| Ingest.RowAfter | storage.py:65-68 | After a commit, old rows keep their id, text and vector index, and new rows take the next ones in order. |
| Ingest.UpdatesOfRow | storage.py:52-54 | In sync, a row is bumped once per batch item carrying its text, and its `last_seen` becomes the stamp of the last such item. |
| Ingest.UpdatesNameOldRows | storage.py:52-54 | No UPDATE names a row INSERTed by the same call. |
| Ingest.TemplateRowAfterCommit | storage.py:64-79 | Each template row after a commit is known exactly. An old row gains one count per mention, with `last_seen` at the last mention. A new row has count 1 and `first_seen = last_seen = base_time`, however often the batch repeats its text. |
| Ingest.DenseAfterCommit | storage.py:64-68 | A commit in sync keeps the rows numbered `1..n` with vector indices `0..n-1`. |
| Ingest.SyncedAfterCommit | storage.py:60-79 | After a commit the writer is in sync again: cache, rows and vector count agree. |
| Ingest.CachedTextsKept | storage.py:52-69 | Every template text stays cached whatever the outcome, so no new text is already a row. That is why the UNIQUE constraint is never violated. |
| Ingest.PrimaryKeyKept | storage.py:76-79 | A committed batch keeps the occurrence ids unique. A rolled-back batch leaves the tables exactly as they were. |
| Ingest.ParametersStayAttached | storage.py:78-79 | After a commit every parameter row still belongs to an occurrence. |
| Ingest.NewParameterAttached | storage.py:81-84 | Each new parameter row belongs to one of the batch's own occurrence rows. |
| Ingest.ParamValuesOfParamsFor | storage.py:84 | Reading one occurrence's parameter rows back by position returns its parameters in list order. |
| Ingest.ParamsRoundTrip | storage.py:81-84 | After a commit, the parameter query the search issues (line 113) for an item's occurrence returns exactly that item's parameters, in order. |
| Storage.PrepareOcc | storage.py:81-84 | The occurrence row and parameter rows of one item: id from the timestamp, priority defaulting to 6, one row per parameter at its list position. |
| Storage.SplitBatch | storage.py:47-58 | The first loop builds exactly `updates`, `unique_texts`, `batch_map` and the hits' rows. |
| Storage.Commit | storage.py:43-79 | The body of `add_batch` on values computes `AddBatchSpec`. |
| Storage.LoadCacheCachesAll | storage.py:39-41 | `_load_cache` caches every row's text. |
| Storage.NextIdAfterInsert | storage.py:67-68 | Each INSERT's rowid is one more than the previous one. |
| Storage.InsertedRowIds | storage.py:65-68 | The k-th INSERT of a call gets rowid `next id + k`. |
| Storage.KeepsValid | storage.py:43-79 | `add_batch` keeps the store's invariant, committed or not: texts cached, occurrence ids unique, parameters attached. |
| Storage.LogDB.constructor | storage.py:11-30 | Only a writer loads the cache. The vector count comes from the file when it exists and is 0 otherwise. |
| Storage.LogDB.AddBatch | storage.py:43-79 | A writer's vector file grows by one vector per new text. The cache and `vec_count` follow whatever the commit does. The tables take the rows and UPDATEs only when the commit holds. A reader fails on any non-empty batch and changes nothing. |
| Storage.LogDB.Search | storage.py:86-159 | The vector count is refreshed from the file, the cache is untouched, and the output is `SearchResult` of the tables. |
| Storage.GatherCandidates | storage.py:101-128 | The candidate loop builds `Candidates` over the top indices. |
| Storage.ScoreCandidates | storage.py:132-140 | Each candidate is paired with its re-ranking score. |
| Storage.RenderHits | storage.py:151-156 | One output line per shown candidate. |
| Storage.Answer | storage.py:94-159 | Search of a non-empty store: gather, score, rank, cut to `k`, render. |
| Retrieval.Hydrate | storage.py:117-121 | The hydration loop computes `Hydrated`. |
| Retrieval.HighlightParams | storage.py:161-166 | `_highlight_params` fills the template as hydration does, with each value wrapped in the bold yellow codes. |
| Retrieval.EmphasisedAll | storage.py:163 | Each parameter is wrapped in the emphasis codes. |
| Retrieval.FirstParamFillsLeftmost | storage.py:119 | The first parameter replaces the leftmost placeholder. |
| Retrieval.FillAppends | storage.py:119-120 | With no placeholder left, a value is appended after a space. |
| Retrieval.NoPlaceholderAcrossSpace | storage.py:120 | Joining two placeholder-free texts with a space creates no placeholder. |
| Retrieval.HydratedHasNoPlaceholder | storage.py:117-121 | Hydrating a placeholder-free template with placeholder-free values leaves no placeholder. |
| Retrieval.HydratedAppends | storage.py:117-121 | Such a template gets its values appended, each after a space. |
| Retrieval.NoParamsKeepTemplate | storage.py:108-127 | Without parameters, both the hydrated and the displayed text are the template. |
| Retrieval.ScoreAll | storage.py:136-140 | Each candidate gets the re-ranking score of its hydrated text. |
| Retrieval.Relevant | storage.py:145 | The relevance filter never adds candidates. |
| Retrieval.RelevantSpec | storage.py:145 | With recency bias, a candidate survives exactly when its score exceeds 0.15. |
| Retrieval.HitsOf | storage.py:151-156 | One hit line per shown candidate, in order. |
| Retrieval.TopIndicesBest | storage.py:95-99 | The broad phase keeps `min(20, vec_count)` distinct stored indices, and no index left out scores higher than one kept. |
| Retrieval.CandidatesBound | storage.py:101-128 | At most one candidate per index, and exactly one each when every index has its row. |
| Retrieval.DenseHasCandidate | storage.py:103-104 | In tables a writer built, every stored vector index has its template row. |
| Retrieval.DenseCandidates | storage.py:101-128 | Over such tables every broad-phase index yields its candidate. |
| Retrieval.RankSpec | storage.py:142-149 | With recency bias, the relevant candidates newest first (a permutation of them). Otherwise all candidates, best re-ranked score first (a permutation of them). |
| Retrieval.RankLength | storage.py:142-149 | Ranking never adds candidates and, without recency bias, drops none. |
| Retrieval.EmptyStoreNotice | storage.py:92 | An empty store answers with the notice alone. |
| Retrieval.SearchBound | storage.py:95-156 | A search of a non-empty store returns only hits: at most `k` and at most `min(20, vec_count)`. When every vector has its row and no filter applies, it returns exactly `min(k, 20, vec_count)`. |
| Retrieval.SearchAtMost | storage.py:95-156 | The upper bounds of `SearchBound`. |
| Retrieval.SearchExactly | storage.py:95-156 | The exact count of `SearchBound`. |
| Retrieval.SearchOrder | storage.py:142-156 | The hits come out by time, newest first and all above the relevance floor, with recency bias, or by re-ranked score otherwise. |
| Retrieval.SearchShowsBest | storage.py:142-156 | The hits are `min(k, survivors)` of the candidates that survive ranking (all of them, or those above the floor with recency bias), and no survivor left out is newer (recency) or better re-ranked (otherwise) than a hit shown. |
| Normalizer.MatchSound | normalizer/core.py:60-66 | What the anchored match returns fills the template back into the matched message. |
| Normalizer.MatchComplete | normalizer/core.py:60-66 | If any filling of the template yields the message, the anchored match succeeds. |
| Normalizer.AnchoredExtraction | normalizer/core.py:57-66 | When the message fits the template, the match path is taken. There is one parameter per marker, and they rebuild the message. |
| Normalizer.FallbackExtraction | normalizer/core.py:64-72 | The fallback runs only when no filling fits, and it compares the token lists. |
| Normalizer.DifferingSpec | normalizer/core.py:67-72 | With equal token counts there are no parameters exactly when the tokens agree. Every parameter is a raw token where the template's differs. |
| Normalizer.DifferingInOrder | normalizer/core.py:67-72 | With equal token counts the parameters are the raw tokens at exactly the positions where the template's token differs, each once, in position order. |
| Normalizer.PyStrOfNonText | normalizer/core.py:80 | `str` of a `null` message is "None" and of a byte array a "[...]" list display; neither is blank or has anything to strip. |
| Normalizer.AdmitSpec | normalizer/core.py:77-84 | `process_log` goes on exactly when a record has a message key whose value is not a blank text; a `null` or a byte array goes on as "None" or its list display. It works on the stripped `str` of the value, which is non-empty and already stripped. Priority defaults to 6 and unit to "sys". |
| Normalizer.Output | normalizer/core.py:122-130 | The record sent downstream carries the template, the extracted parameters, the priority, the stripped original and the unit. |
| Normalizer.LogNormalizer.constructor | normalizer/core.py:14-22 | No cluster printed yet, nothing queued, printed or alerted. |
| Normalizer.LogNormalizer.TriggerAlert | normalizer/core.py:132-136 | The alert is attempted and a failing notifier is swallowed. |
| Normalizer.LogNormalizer.ProcessLog | normalizer/core.py:77-130 | An early return changes nothing. Otherwise the whole new state is given: the cluster is marked printed. A new template line is printed on first sighting, and the log line, cut to 100 characters, only on first sighting or at priority 4 or more severe. An alert goes out at priority 3 or more severe, and the record is queued when there is an output queue. |
| Engine.CategoryMatchesLabel | engine.py:26-27 | A record goes to the error store exactly when the normaliser labels it ERROR, and likewise for warning/WARN and debug/INFO. |
| Engine.FlushEmptyIsNoop | engine.py:45-48 | Flushing an empty buffer calls nothing and changes nothing. |
| Engine.FlushSpec | engine.py:45-48 | A flush hands the whole buffer to its store and clears it only if `add_batch` returned. Other buffers and the clock are untouched, and nothing pending is lost. |
| Engine.FlushEachSpec | engine.py:42 | Flushing in turn loses nothing, and on success leaves every buffer flushed. |
| Engine.TimeCheckSpec | engine.py:41-43 | Within the interval nothing happens. After more than 5 s every buffer is flushed and the flush time is reset, unless a store raised; the check crashes exactly at the first store call that raises, and not at all if none does. |
| Engine.AppendSpec | engine.py:35-36 | A record joins the end of its own category's buffer only. |
| Engine.StepStopsOnlyAtSentinel | engine.py:32-33 | The loop stops on the sentinel exactly, without touching the state. |
| Engine.StepConserves | engine.py:29-43 | One iteration appends its record to the pending records of its category. Nothing pending is lost or reordered. |
| Engine.StepKeepsBuffersBelowBatchSize | engine.py:36-38 | While running, no buffer reaches 16 records. |
| Engine.RunStopsAtSentinel | engine.py:29-43 | The loop ends at the first sentinel, crashes exactly at the first store call that raises (none of the calls before it raised), or runs to the end of the input; a store that never raises never crashes it. |
| Engine.RunConserves | engine.py:29-48 | For each category, what the store accepted followed by what is still buffered is exactly that category's arrivals, in arrival order. |
| Engine.RunKeepsBuffersBelowBatchSize | engine.py:29-43 | No buffer ever reaches the batch size while the loop runs. |
| Engine.Engine.constructor | engine.py:23-24 | Three empty buffers and the flush time set to now. |
| Engine.Engine.FlushCategory | engine.py:45-48 | `_flush` computes `Flush` on the object's state. |
| Engine.Engine.FlushAll | engine.py:42 | The loop over the buffers computes `FlushEach`. |
| Engine.Engine.CheckInterval | engine.py:41-43 | The interval check computes `TimeCheck`. |
| Engine.Engine.StepOnce | engine.py:31-43 | One loop pass computes `Step`. |
| Engine.Engine.Process | engine.py:29-43 | The whole loop computes `Run`, so `RunConserves` and `RunStopsAtSentinel` hold of the object. |
| Legacy.RunOf | db.py:61 | The longest prefix of one character class. |
| Legacy.MatchLength | db.py:61 | A header match never exceeds the line. |
| Legacy.PidLength | db.py:64 | A PID marker never exceeds the line. |
| Legacy.StripMatched | db.py:61 | A line the header pattern matches loses exactly the matched prefix. |
| Legacy.HeaderRemoved | db.py:60-61 | For any whitespace runs and any number lengths, a journal header (month, day, clock time, host) is removed and the message kept. |
| Legacy.RemovePidsPlain | db.py:64 | Text without a `[` passes the PID substitution unchanged. |
| Legacy.RemovePidsMarker | db.py:64 | A bracketed digit run vanishes. |
| Legacy.PidsRemoved | db.py:63-64 | A PID marker between bracket-free text is removed. |
| Legacy.CollapseSingleSpaced | db.py:67 | Collapsing leaves only single spaces. |
| Legacy.CollapseSingle | db.py:67 | Single-spaced text is unchanged by collapsing. |
| Legacy.NormalizedIsTidy | db.py:48-69 | A normalised line has no whitespace at its ends and only single spaces inside. |
| Legacy.NormalizeFixpoint | db.py:48-69 | `normalize_log` leaves a tidy, bracket-free, header-free line unchanged. |
| Legacy.DocumentedExample | db.py:52-55 | The docstring example normalises to the documented result. |
| Legacy.Count | db.py:101-104 | Counting a line raises its count by exactly one and appends it to the key order when new. The empty normalisation counts nothing. |
| Legacy.CountLeavesOthers | db.py:104 | Other lines keep their counts, and no line is counted that was not before. |
| Legacy.CountKeepsShape | db.py:97-104 | Counting keeps every key non-empty, counted at least once and listed once. |
| Legacy.RepeatCache.constructor | db.py:41 | The cache starts empty. |
| Legacy.RepeatCache.Items | db.py:138 | `items()` lists each key in insertion order with its count. |
| Legacy.RepeatCache.Observe | db.py:97-104 | The watcher's counting step computes `Count` on the cache. |
| Legacy.RepeatCache.Drain | db.py:137-139 | The items are taken out, all non-empty and counted at least once, and the cache is cleared. |
| Legacy.PeriodicSpec | db.py:142-156 | A periodic flush sends one tuple per non-empty message with consecutive ids. Each carries the message when it was counted once, and its summary otherwise. |
| Legacy.EmitPeriodic | db.py:142-156 | The flush loop computes `Periodic`. |
| Legacy.FinalMatchesPeriodic | db.py:158-168 | Once a periodic flush has run, the shutdown flush sends what a periodic flush would. |
| Legacy.FinalCrash | db.py:158-168 | The shutdown flush raises exactly when no periodic flush ran and some message was counted more than once. The tuples sent before that have consecutive ids. |
| Legacy.EmitFinal | db.py:163-168 | The shutdown loop computes `FinalFlush`. |
| Legacy.RepeatFlusher.constructor | db.py:127 | `next_id` starts at 0 with nothing sent. |
| Legacy.RepeatFlusher.Tick | db.py:134-156 | A periodic round drains the cache and sends its items, numbered on from `next_id`. |
| Legacy.RepeatFlusher.Shutdown | db.py:158-168 | The final round drains the cache and sends what `FinalFlush` gives. |
| Legacy.ConsecutiveAcrossFlushes | db.py:127-156 | Successive flushes number their tuples 0, 1, 2, ... without gaps. |
| Legacy.LogIndex.constructor | db.py:34-37 | An empty index with empty metadata. |
| Legacy.Zip | db.py:193 | `zip` of the three batch lists. |
| Legacy.ZipAt | db.py:193-194 | The i-th metadata entry carries the i-th id, text and timestamp. |
| Legacy.ZipBatch | db.py:192-194 | The metadata loop computes `Zip`. |
| Legacy.EmbedWorker.constructor | db.py:178-180 | Three empty batch lists. |
| Legacy.EmbedWorker.ProcessBatch | db.py:182-202 | An empty batch adds nothing. Otherwise the batch is added to the metadata only when embedding succeeds, and the lists are cleared either way. |
| Legacy.EmbedWorker.Receive | db.py:204-219 | A timeout flushes the partial batch. A line joins the batch, which is flushed on reaching 16. |
| Legacy.RenderAll | db.py:257-262 | One line per kept hit, in order. |
| Legacy.ShownSpec | db.py:250-256 | Hits with an index outside the metadata are dropped. When FAISS names only stored vectors, only the padding is dropped. |
| Legacy.SearchAnswerSpec | db.py:237-267 | An encoding failure or an empty index gives one line. Otherwise at most as many lines as hits returned, in raw mode each the text of a stored entry. |
| Legacy.RawLines | db.py:257-258 | In raw mode every line is a stored text. |
| Legacy.SearchQuery | db.py:225-267 | The output loop computes `SearchAnswer`. |
| Legacy.PlainSnoc | db.py:320-321 | A word joins the query text unless it is an option. |
| Legacy.ScanWordsSpec | db.py:298-323 | `k` is 5 unless a `k=` word parses; then the last such word decides, falling back to 5 when it is not positive. The mode is the last valid `display=` value, lower-cased, else pretty. The query text is the remaining words in order. |
| Legacy.ParseQueryOptions | db.py:288-324 | The parsing loop computes `QueryOptions`. |
| Shell.AnyInIff | shell.py:32 | `any(w in s ...)` holds exactly when some keyword occurs. |
| Shell.RecencyIff | shell.py:41 | Recency holds exactly when some keyword occurs in the lower-cased query. |
| Shell.CleanQuery | shell.py:44-47 | The cleaning loop computes the search text. The query is untouched without recency and never lengthened. |
| Text.ReplaceAll | shell.py:47 | Replacing every occurrence of a pattern by something no longer (the keyword removal replaces it by the empty text) never lengthens the text. |
| Shell.RemoveKeywordShrinks | shell.py:47 | One cleaning pass never lengthens and leaves a stripped text. |
| Shell.CleanedTrimmed | shell.py:44-47 | The cleaned query is no longer than the query and stripped. |
| Shell.SplitJoin | shell.py:25 | The parts of `line.split(" ", 2)` joined by spaces give the line back. |
| Shell.SplitOnShape | shell.py:25 | Only the last part can hold a space. |
| Shell.ClassifyCommandWord | shell.py:21-29 | A blank line is skipped. The first word, in any case, decides quit, clear and search. |
| Shell.SearchCommandIsNotOther | shell.py:29-74 | A search line never acts as another command. |
| Shell.ShortSearch | shell.py:30-38 | A short search line prints the usage, unless it has two parts and the second holds a keyword. That line raises `IndexError`. |
| Shell.SearchCategory | shell.py:38-74 | A three-part line searches exactly when its category, in any case, is a store. Otherwise it reports the unknown category. |
| Shell.SearchChoice | shell.py:41-64 | A query of only time keywords searches the broad text with `k = 10` and recency. Any other query searches its cleaned text with `k = 5`, with recency exactly when it mentions a keyword. |
| Shell.ClassifyAll | shell.py:20-76 | One action per line typed. |
| Shell.Session | shell.py:19-80 | The command loop computes `Transcript` of the actions. |
| Shell.TranscriptShape | shell.py:20-23 | Blank lines leave no trace, and only the last action can end the session. |
| Shell.QuitStops | shell.py:28 | Nothing typed after `exit` or `quit` is acted on. |

## Left out

The model follows the code where the code and its documentation disagree:

- **A failing `add_batch` stops the engine.** `add_batch` is called without a `try` (engine.py:47),
  and the loop only catches `queue.Empty`. So a store that raises ends `Engine.process`, with the
  buffer left uncleared (`Crashed` in `Engine.Status`). The buffer is not cleared and dropped.
- **Repeats inside one batch do not bump a new text.** A new text is INSERTed with count 1 and
  `last_seen = base_time` (storage.py:67), however often the same batch repeats it. Only texts
  that were cached before the call are bumped (`Ingest.TemplateRowAfterCommit`).

Two crashes of the code are modelled rather than corrected:

- the `UnboundLocalError` of the shutdown flush in db.py at line 166 (`Legacy.FinalCrash`);
- the `IndexError` of a two-part `search` line in shell.py at line 38 (`Shell.ShortSearch`).

Left out of the model, with the reason:

- Threads, queues, locks, `shutdown_event` and the sleeping loops: the model is sequential. Each
  loop iteration is one call, with the queue's answer as a parameter.
- The clock: `time.time()` and `datetime.now()` are parameters. Times are integer microseconds
  rather than floats, so `int(ts * 1000000)` is exact.
- The `time.time()` stamp in the tuples `repeat_flusher` emits.
- Drain3's template mining: it is the oracle `miner`.
- The sentence encoder, the vector file's contents, `np.dot` and FAISS: they are score oracles or
  neighbour functions.
- The order `np.argpartition` gives the top indices is unspecified in the source; the model picks
  best first.
- SQLite's order among equal timestamps in `ORDER BY timestamp DESC LIMIT 1`: the model takes the
  first such row in table order.
- The formatting of floats and times in output lines (`strftime`, milliseconds, `:.2f`, `:.3f`):
  a hit line keeps its score and timestamp as values, and `search_query`'s pretty line is a
  parameter.
- Unicode: `\d`, `\s`, `isspace` and `lower()` are modelled on ASCII digits, Python's whitespace
  set and ASCII letters.
- Storage.LogDB.AddBatch: requires the UNIQUE(text) constraint not to be violated (`Valid`). A
  writer's cache always knows every row's text, so the constraint does not fail for a writer that
  opened the file itself.
- `_init_schema`, `PRAGMA journal_mode`, `os.makedirs`, file paths, `close()` and `Engine.stop()`:
  they are set-up and tear-down with no effect on the modelled state.
- Printing, the ANSI colours of the normaliser and the shell, and `notify-send`: the normaliser
  keeps the printed lines and the alerts as sequences; the shell records each action it takes.
- The shell's model loading, the construction of its three reader stores and the `search` calls
  themselves: an action records the call's category, text, `k` and recency flag.
- `KeyboardInterrupt` in the shell.
- The collector (collector/core.py) and boot.py are not part of this model. The message value the
  normaliser receives is modelled as what `journalctl -o json` writes for it: a text, `null`, or an
  array of byte values. Other JSON values (numbers, objects) are not modelled as messages.
- The `try`/`except` in `_extract_params`: no operation in it raises on text.
- The legacy `main`, its model initialisation and its journal subprocess.
