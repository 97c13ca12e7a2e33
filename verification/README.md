# Verification models for ZTOQ

ZTOQ moves test-management data from Zephyr Scale to qTest.  This project models the parts
of it whose behaviour is hard to see from one function body, and proves what they guarantee
for every input, run or interleaving.  `dafny verify dfyconfig.toml` checks all of it.

| files | what they model |
|---|---|
| `Schema`, `Cascades`, `Store`, `CompleteRuns`, `ProjectImport`, `ImportTheorems`, `ImportConditions`, `ReadBack` | the SQLite store: its foreign keys with CASCADE and SET NULL, `INSERT OR REPLACE`, and `save_project_data` on top of them |
| `StableSort`, `FolderOrder` | the stable sort by id length that orders folders before saving |
| `SessionPool`, `PoolProtocol`, `PoolTheorems` | the HTTP connection pool: its lock regions as a class over lists with identity, and all interleavings of clients, cleanup threads and `close_all` over them |
| `Batches`, `Packing`, `Grouping`, `Similarity`, `Adaptive` | the batching strategies |
| `Paging`, `OffsetPaging` | keyset and offset paging over tables that change between queries |
| `Cache`, `CachedQuery` | the query cache; the `cached_query` decorator and its keys |
| `MigrationChecks`, `Dashboard`, `PlanTree` | the relationship and count validators, the activity feed, index names in execution plans |
| `Wrappers`, `Numbers`, `Sequences` | optional values and call results, minimum and maximum, slices |

How the model stands to the code:

* A database is a map from (table, id) to rows.  A row keeps its UNIQUE key and its foreign
  keys; all other columns are one opaque value.  `Schema.InsertOrReplace` deletes the rows
  that conflict by id or key, everything that depends on them through CASCADE columns, and
  the references to them in SET NULL columns; it stores the new row and then checks its
  foreign keys.  A failing statement changes nothing, and ends the import.
* Pool lists are numbered, and a client holds the number of the list it captured.  Each step
  of `PoolProtocol` is one lock region, or one close outside the lock.  A cleanup may start at
  any moment, and several may overlap.  What the code does not store (which list a session was
  created under, where it is) is kept as history.
* Floats are `real`, and `int()` truncates.  The square roots in the similarity score are
  squared away.  Clock readings are parameters.
* A call that can raise returns a `Result`.

Where the code does not do what its documentation or its comments say:

* Sorting folders by id length is said to handle parent-child relationships.  A parent whose id
  is longer than its child's is saved too late.  Into an empty database the import then fails
  (`LongerParentFails`); over stored rows it can also come to its end, report both folders and
  have lost the child (`ImportCanLoseRows`).  `ImportIsCompleteIff` says exactly when an import
  stores all it fetched, over any database; `FolderIdsDecide` says it in terms of folder ids for
  a fetch that refers only to itself, `FreshImportSucceedsIff` for an empty database.
* The similarity strategy tests its batch cap after adding, so a cap of 1 gives batches of 2:
  `SimilarityBatches` says exactly when, `TwoAlike` gives an input.
* The adaptive controller cannot leave batch size 1 again: `OneIsForever`.
* A session handed out by the pool can be closed already: `ClosedSessionCanBeHandedOut` is a run,
  `ClosedSessionIsHandedOutIff` says exactly when.
* `cached_query` takes a time to live and does not use it; the cache-wide one applies, and the
  model has only that one.  Its keys can clash (`KeywordArgumentsClash`): `KeysAgreeIff` says
  exactly which calls share a key, and `OwnResultsIff` that calls are served only their own
  results exactly when none in use do.
* After the TTL is raised, whether a cleanup ran before can show (`RaisingTtlShowsCleanup`):
  `CleanupIsVisibleIff` says exactly when.
* A count that cannot be read silences the count validator for its kind and all later ones:
  `ReportedIff` says exactly what is reported, `UnreadableCountHidesMissing` gives an input.
* Offset paging over a changing table can skip a row that was there throughout
  (`OffsetPagingSkipsRows`): `OffsetReadsIff` says exactly which rows are read,
  `NothingGoneNothingMissed` what a caller can check, and `MissedIffFellPast` which rows
  deletions make it miss.  It can also read a row twice (`OffsetPagingRepeatsRows`):
  `OffsetReadsTimes` says how often.

## Model

| member | source | states |
|---|---|---|
| Schema.Closure | ztoq/database_manager.py:151-346 | deleting rows takes along a set that contains them and is closed under the CASCADE columns of the schema |
| Schema.ClosureIsLeast | ztoq/database_manager.py:151-346 | and it takes no row that is not forced: the set is the least such |
| Cascades.GoesIff | ztoq/database_manager.py:151-346 | exactly which rows go with a deletion, by table: a folder with its project or parent, an execution with its project, test case or cycle, a validation issue with its project or rule, any other row with its project |
| Cascades.FoldersTakeFolders | ztoq/database_manager.py:165-173 | deleting folders takes along exactly the folders below them |
| Cascades.LeavesTakeNothing | ztoq/database_manager.py:180-346 | deleting statuses, priorities, environments, plans, executions, issues or reports takes nothing along |
| Cascades.StaysWith | ztoq/database_manager.py:253-343 | a row that stays keeps its key, its columns and all references but those to a folder, priority or environment that goes |
| Cascades.FolderSavedAgain | ztoq/database_manager.py:451-469 | saving a stored folder again costs exactly the folders below it; test cases and all other rows stay and lose exactly the references to these |
| Cascades.ReplacesSameIdOrKey | ztoq/database_manager.py:153-310 | a replacement removes the old row with the same key in projects, test cases, cycles and plans |
| Cascades.AcceptedIff | ztoq/database_manager.py:440-449 | a row is accepted exactly when its foreign keys, named one by one, are those of rows that are there after the replacement |
| Schema.ReplaceKeepsIntegrity | ztoq/database_manager.py:440-449 | an INSERT OR REPLACE that commits leaves unique keys unique and every foreign key resolved, for every database and row |
| Schema.IgnoreKeepsIntegrity | ztoq/database_manager.py:844-858 | the same for the INSERT OR IGNORE of the placeholder project |
| Schema.ReplaceSpares | ztoq/database_manager.py:460-469 | rows that refer only to one another and conflict with nothing survive a replacement unchanged, cascades included |
| Schema.NothingRefersToRemoved | ztoq/database_manager.py:618-664 | after a replacement no remaining row refers to what was replaced |
| Store.SaveAllKeepsIntegrity | ztoq/database_manager.py:863-919 | however a sequence of saves goes, failing half-way included, integrity holds |
| Store.SaveStep | ztoq/database_manager.py:863-919 | each next row of a loadable sequence is accepted, disturbs no row saved before it, and is referred to by no row outside the sequence |
| Store.SaveAllSucceeds | ztoq/database_manager.py:863-919 | no foreign-key check fails on a loadable sequence, whatever the database held; at the end the sequence is stored exactly |
| Store.ResaveIsIdentity | ztoq/database_manager.py:863-919 | saving it again, through all the intermediate deletions, ends in the same database |
| Store.UnrelatedRowsSurvive | ztoq/database_manager.py:863-919 | rows unconnected with what is saved come through any run unchanged |
| CompleteRuns.CompleteIffSupported | ztoq/database_manager.py:863-919 | over any database, a run comes to its end with every row stored as given if and only if each foreign key refers to a row saved no later, or to a stored row that no replacement deletes, itself or by a cascade |
| CompleteRuns.OthersAreKept | ztoq/database_manager.py:863-919 | after such a run, what is stored besides the saved rows is among the rows that no replacement deletes |
| CompleteRuns.FreshSaveSucceedsIff | ztoq/database_manager.py:863-919 | so into an empty database a save succeeds if and only if every foreign key refers to a row at or before its own |
| StableSort.SortSorts | ztoq/database_manager.py:868 | sorting permutes and orders by the key |
| StableSort.SortOrders | ztoq/database_manager.py:868 | in the sorted list one element stands at or before the first occurrence of another if and only if its key is smaller, or equal and it already did: the sort is stable, on lists with repetitions too |
| FolderOrder.SortPutsParentsFirstIff | ztoq/database_manager.py:864-871 | the sort by id length puts every parent first if and only if parents have shorter ids (or as long, fetched earlier) |
| ProjectImport.DatabaseManager.SaveRow | ztoq/database_manager.py:451-469 | one save is one committed replacement, or an integrity error that changes nothing |
| ProjectImport.DatabaseManager.SaveEach | ztoq/database_manager.py:869-870 | the loop over a fetched list saves its rows in order up to the first error |
| ProjectImport.DatabaseManager.SaveProjectRow | ztoq/database_manager.py:837-859 | the project row is replaced, put in as a placeholder, or left alone |
| ProjectImport.DatabaseManager.SaveProjectData | ztoq/database_manager.py:816-921 | the sections run in order on top of the project row, and the counts are returned only if all of it succeeded |
| ImportTheorems.ConsistentIsLoadable | ztoq/database_manager.py:861-919 | the order of the sections makes every reference of a consistent fetch reach back |
| ImportTheorems.ImportSucceeds | ztoq/database_manager.py:816-921 | importing a consistent fetch fails no foreign-key check on any of the three project paths, and nothing else refers to the fetched rows afterwards |
| ImportTheorems.ImportIsIdempotent | ztoq/database_manager.py:816-921 | importing the same fetch twice leaves the database as importing it once does, whatever older rows there were |
| ImportTheorems.FetchIsStored | ztoq/database_manager.py:816-921 | every fetched row is stored exactly as fetched, on every path |
| ReadBack.FetchIsReadBack | ztoq/database_manager.py:451-814 | every fetched item is read back from its row with the same id, key, columns and references |
| ReadBack.ProjectIsReadBack | ztoq/database_manager.py:432-449 | and so is a fetched project |
| ReadBack.CountsAreLengths | ztoq/database_manager.py:833-921 | the counts are, for exactly the kinds fetched, the numbers of items fetched |
| ReadBack.ProjectCounted | ztoq/database_manager.py:837-859 | and one project unless fetching it failed or found nothing |
| ImportTheorems.ImportedProjectIsTheFetch | ztoq/database_manager.py:837-841 | when the project row is replaced, the project's rows afterwards are the fetched ones, all and only |
| ImportTheorems.CountsAreRowsStored | ztoq/database_manager.py:833-921 | each count returned is then the number of rows the project has in that table |
| ImportTheorems.ImportKeepsIntegrity | ztoq/database_manager.py:816-921 | no fetch, complete or not, and no failure breaks integrity |
| ImportTheorems.ImportSparesOthers | ztoq/database_manager.py:816-921 | other projects' rows come through unchanged unless they share an id or key or are referred to across |
| ImportConditions.ImportIsCompleteIff | ztoq/database_manager.py:816-921 | over any database, an import stores every fetched row if and only if each foreign key refers to a row saved no later or to a stored row that no replacement deletes; references to rows stored before are covered |
| ImportConditions.FolderIdsDecide | ztoq/database_manager.py:864-871 | for a fetch whose references resolve within it: over any database it is stored completely if and only if every parent has a shorter id than its child (or as long, fetched no later) |
| ImportConditions.ImportCanLoseRows | ztoq/database_manager.py:864-871 | an input on which the import succeeds, counts two folders, and has lost one |
| ImportConditions.FreshImportSucceedsIff | ztoq/database_manager.py:833-919 | into an empty database an import succeeds if and only if references resolve within the fetch, parents have shorter ids, and the project row is fetched or a placeholder (or there is nothing to save) |
| ImportConditions.LongerParentFails | ztoq/database_manager.py:867-868 | an input on which sorting by id length is not enough |
| SessionPool.ConnectionPool.GetPoolFor | ztoq/connection_pool.py:182-199 | the URL's registered list, or a fresh one, with the pool count updated |
| SessionPool.ConnectionPool.Take | ztoq/connection_pool.py:222-231 | the last session of the captured list, or a new one, and the metrics |
| SessionPool.ConnectionPool.Put | ztoq/connection_pool.py:246-257 | back into the captured list, or closed if that is full |
| SessionPool.ConnectionPool.DetachIdle | ztoq/connection_pool.py:305-317 | every registered list is copied and unregistered; non-empty ones get a fresh list under their URL; old lists keep their sessions |
| SessionPool.ConnectionPool.Close | ztoq/connection_pool.py:320-325 | one copied session is closed |
| SessionPool.ConnectionPool.RecordCleanup | ztoq/connection_pool.py:328-332 | the pool count is brought up to date |
| SessionPool.ConnectionPool.CloseAll | ztoq/connection_pool.py:336-350 | all sessions in registered lists are closed and nothing stays registered |
| PoolTheorems.StepKeepsInvariant | ztoq/connection_pool.py:182-350 | every lock region, by any thread, keeps the invariant |
| PoolTheorems.InvariantHolds | ztoq/connection_pool.py:182-350 | it holds in every state of every interleaving |
| PoolTheorems.NoSessionIsCheckedOutTwice | ztoq/connection_pool.py:222-257 | a session is in one list slot or with one client, never both nor twice, and no list outgrows the limit |
| PoolTheorems.SessionsServeOneUrl | ztoq/connection_pool.py:216-257 | whoever uses a session at whatever time uses it for the same base URL |
| PoolTheorems.GivenBackIff | ztoq/connection_pool.py:246-257 | a session given back is kept if and only if its list is below the limit; otherwise it is closed, and the list is at the limit |
| PoolTheorems.HandedOutIs | ztoq/connection_pool.py:222-231 | the session handed out is the last of the captured list, or a new one exactly if that is empty |
| PoolTheorems.CleanupRegisters | ztoq/connection_pool.py:305-317 | a URL keeps a registered list through a cleanup if and only if that had a session in it; the new one is empty |
| PoolTheorems.FailedSessionNeverReturns | ztoq/connection_pool.py:233-257 | a session whose client's request failed is never pooled or used again |
| PoolTheorems.RegisteredSessionsAreOpen | ztoq/connection_pool.py:301-348 | a session in a registered list is neither closed nor waiting to be closed by a cleanup |
| PoolTheorems.ClosedSessionIsHandedOutIff | ztoq/connection_pool.py:217-348 | the session a client is handed is closed, or about to be, if and only if an earlier cleanup or close_all took the client's list down while that session was in it |
| PoolTheorems.ClosedSessionNeedsDetachedList | ztoq/connection_pool.py:217-231 | so it can happen only if the list was detached after this client captured it |
| PoolTheorems.ClosedSessionCanBeHandedOut | ztoq/connection_pool.py:217-325 | an interleaving in which that happens |
| PoolTheorems.SessionsAreAccountedFor | ztoq/connection_pool.py:123-350 | created sessions are those in lists, with clients, dropped on errors or closed for want of room; created plus reused is the number of checkouts; the pool count is right when no cleanup is under way |
| Batches.ChunksFlatten | ztoq/batch_strategies.py:568-570 | fixed-size chunks are the input cut into pieces of 1 to m entities |
| Batches.ChunksAreLong | ztoq/batch_strategies.py:568-570 | all but the last have m |
| Batches.ChunksCount | ztoq/database_connection_manager.py:716-729 | there are ceil(n / m) of them |
| Batches.FixedBatches | ztoq/batch_strategies.py:568-570 | the range loop makes these chunks |
| Batches.CreateBatches | ztoq/batch_strategies.py:530-585 | fixed, calculated or single batches of the entities, sorted if there is a key: nothing lost, none empty, each of the size asked for within bounds |
| Batches.ArrangedSorts | ztoq/batch_strategies.py:560-563 | with a key the entities are batched in the order of their keys, descending if reversed |
| Batches.ArrangedIsStable | ztoq/batch_strategies.py:560-563 | and equals keep their order in either direction |
| Batches.ClampedIs | ztoq/batch_strategies.py:574-577 | a calculated size is used as it is from 1 to what remains, and else the nearer of the two |
| Packing.TimeBatches | ztoq/batch_strategies.py:147-198 | batches are the entities in order, each fits the limit or is a single entity, and with no negative times no other packing uses fewer |
| Packing.SizeBatches | ztoq/batch_strategies.py:80-123 | the same over integer sizes |
| Packing.StaysAhead | ztoq/batch_strategies.py:98-121 | started anywhere further along, the greedy packing needs no more batches than any other packing |
| Packing.FullPackingIsUnique | ztoq/batch_strategies.py:98-121 | only one packing leaves no batch with room for the next entity, so the contracts determine the result |
| Packing.UnitPackingIsChunking | ztoq/batch_strategies.py:74-123 | with sizes all 1, size packing is fixed chunking |
| Grouping.GroupByType | ztoq/batch_strategies.py:354-360 | one group per type with its entities in order, keys in first-occurrence order |
| Grouping.TypeBatches | ztoq/batch_strategies.py:340-373 | the groups become batches in key order, split when over the cap |
| Grouping.SplitIsFull | ztoq/batch_strategies.py:364-371 | a group is cut only if it is over the cap, and then into full batches but for the last |
| Grouping.TypesInFirstOccurrenceOrder | ztoq/batch_strategies.py:355-364 | types come in the order of their first entities |
| Grouping.GroupedIsUniform | ztoq/batch_strategies.py:362-371 | no batch is empty, mixes types or exceeds the cap |
| Grouping.GroupingIsStable | ztoq/batch_strategies.py:354-373 | restricted to one type, the batches read in the input's order with nothing lost or added |
| Grouping.GroupingKeepsEntities | ztoq/batch_strategies.py:354-373 | the multiset of entities is kept |
| Similarity.Collect | ztoq/batch_strategies.py:429-453 | the search stops at the cap with the first similar indices |
| Similarity.SimilarFromIsCollected | ztoq/batch_strategies.py:429-453 | these are in ascending order, none similar left out before the last of them, and all there are unless the cap stopped the search |
| Similarity.PoppedTakes | ztoq/batch_strategies.py:457-458 | popping in descending order takes what stood at the collected indices |
| Similarity.PoppedLeaves | ztoq/batch_strategies.py:457-458 | and leaves what stood elsewhere |
| Similarity.Clusters | ztoq/batch_strategies.py:418-462 | the batches are exactly each first entity with the first similar ones left, popped last first; the multiset is kept, members are similar to their batch's first, batches stay within max(2, cap), and a batch below the cap left nothing similar behind |
| Similarity.SimilarityBatches | ztoq/batch_strategies.py:404-462 | it raises exactly when an entity without features comes first while others are left; the cap itself is respected if and only if it is not 1 or no entity is similar to an earlier one |
| Similarity.SimilarIff | ztoq/batch_strategies.py:434-445 | an entity is similar if and only if 1 - d / n reaches the threshold, d being the root of the summed squared differences of the common features and n that of the number of the reference's |
| Similarity.TwoAlike | ztoq/batch_strategies.py:440-453 | an input on which a cap of 1 is exceeded |
| Adaptive.AdaptiveBatchStrategy.Adapt | ztoq/batch_strategies.py:254-273 | the size follows the rule and the history records size and time, so that the size is always where the recorded times lead |
| Adaptive.AdaptiveBatchStrategy.Split | ztoq/batch_strategies.py:247-252 | batches of the current size |
| Adaptive.SizeStaysInBounds | ztoq/batch_strategies.py:305-306 | on every run the size stays between minimum and maximum |
| Adaptive.OneAdaptIsEnough | ztoq/batch_strategies.py:305-306 | wherever it started, one adaptation brings it there |
| Adaptive.OverrunShrinks | ztoq/batch_strategies.py:288-292 | an overrun takes off at least a tenth and at most about a half, strictly until the minimum |
| Adaptive.OverrunScales | ztoq/batch_strategies.py:288-292 | from 10/9 to twice the target, an overrun makes the size its multiple by target over time, rounded down, but at least the minimum |
| Adaptive.LongOverrunHalves | ztoq/batch_strategies.py:288-292 | beyond, it halves it |
| Adaptive.ShortOverrunTakesATenth | ztoq/batch_strategies.py:288-292 | and below, it takes a tenth off |
| Adaptive.SteadyStays | ztoq/batch_strategies.py:301-303 | from 0.8 of the target to the target the size stays |
| Adaptive.GainScales | ztoq/batch_strategies.py:294-300 | below, the size becomes its multiple by (target * rate + time) over time, rounded down, but at most the maximum |
| Adaptive.SmallGainAddsATenth | ztoq/batch_strategies.py:294-300 | with at least a tenth added |
| Adaptive.LargeGainAddsAHalf | ztoq/batch_strategies.py:294-300 | and at most a half |
| Adaptive.OverrunsDecay | ztoq/batch_strategies.py:288-306 | k overruns in a row bring the size to at most max(minimum, 0.9^k times the start) |
| Adaptive.OverrunsReachMin | ztoq/batch_strategies.py:288-306 | as many overruns as the distance reach the minimum |
| Adaptive.FastGrows | ztoq/batch_strategies.py:294-300 | a fast batch never lowers the size, and exactly when it raises it; always from 10 on |
| Adaptive.FastRunReachesMax | ztoq/batch_strategies.py:294-306 | from 10 on, fast batches reach the maximum one by one or faster |
| Adaptive.OneIsForever | ztoq/batch_strategies.py:287-306 | a size of 1 is never left, whatever the times |
| Paging.ProcessLargeResultSet | ztoq/db_optimization_impl.py:235-262 | keyset paging over a changing table ends once the table rests; keys ascend strictly, and every key there throughout is processed; on a fixed table it is exactly the matching rows, and their number |
| Paging.PageReads | ztoq/database_optimizations.py:318-328 | a page skips no matching key between its start and its end |
| Paging.PageIsFirst | ztoq/database_optimizations.py:318-328 | a page is the first matching rows from its start, as many as its size allows |
| Paging.PageLeavesRest | ztoq/database_optimizations.py:323-326 | beyond a page's last key lies exactly what the page left |
| OffsetPaging.ChunkedFetch | ztoq/database_optimizations.py:281-289 | the pages of consecutive offsets up to the first empty one, each from the table as it then is; on a fixed table, exactly the matching rows in order |
| OffsetPaging.ExecuteInBatches | ztoq/database_connection_manager.py:711-732 | the results for these pages up to an empty or a short one |
| OffsetPaging.FixedPages | ztoq/database_connection_manager.py:711-732 | on a fixed table either exit leaves exactly the chunks of the matching rows, ceil(n / b) of them |
| OffsetPaging.OffsetReadsIff | ztoq/database_optimizations.py:281-289 | a row there throughout is read if and only if some query's offsets cover the number of matching rows then before it |
| OffsetPaging.OffsetReadsTimes | ztoq/database_optimizations.py:281-289 | and as often as queries do |
| OffsetPaging.ReadOnce | ztoq/database_optimizations.py:281-289 | at most once if no matching row with a smaller key appears between queries |
| OffsetPaging.OffsetPagingRepeatsRows | ztoq/database_optimizations.py:281-289 | a run on which one does, and a row is read twice |
| OffsetPaging.NothingGoneNothingMissed | ztoq/database_optimizations.py:281-289 | if no matching row with a smaller key disappears between queries, a row there throughout is read, whichever exit is taken |
| OffsetPaging.MissedFellPast | ztoq/database_optimizations.py:281-289 | only a row that falls from beyond the next offset to before it is missed |
| OffsetPaging.MissedIffFellPast | ztoq/database_optimizations.py:281-289 | and where none appear before it, every such row is |
| OffsetPaging.OffsetPagingSkipsRows | ztoq/database_optimizations.py:281-289 | a run on which a row there throughout is never read, however many queries are made |
| Cache.QueryCache.Fetch | ztoq/database_optimizations.py:58-78 | the value if present and not expired; an expired entry is deleted |
| Cache.QueryCache.Put | ztoq/database_optimizations.py:80-90 | the value with the time |
| Cache.QueryCache.Drop | ztoq/database_optimizations.py:92-102 | the key's entry goes |
| Cache.QueryCache.DropPattern | ztoq/database_optimizations.py:104-119 | exactly the entries whose key contains the pattern go |
| Cache.QueryCache.RemoveExpired | ztoq/database_optimizations.py:126-136 | exactly the expired entries go |
| Cache.QueryCache.OptimizeForReads | ztoq/db_optimization_helpers.py:217-221 | the TTL becomes 600 seconds, entries stay |
| Cache.QueryCache.OptimizeForWrites | ztoq/db_optimization_helpers.py:224-228 | the TTL becomes 60 seconds, entries stay |
| Cache.QueryCache.Call | ztoq/database_optimizations.py:158-176 | a decorated call returns what is cached and not None, or computes and caches, whatever happens to the cache while it computes |
| CachedQuery.CallIsRun | ztoq/database_optimizations.py:158-176 | such a call does to the cache what its look-up, what happens meanwhile and its store do, and returns what it found or else its function's result |
| CachedQuery.NextCallIsServed | ztoq/database_optimizations.py:165-176 | what it stored, if not None, is what the next call with that key returns within the TTL, whatever its own function would give |
| CachedQuery.NextCallComputes | ztoq/database_optimizations.py:165-176 | beyond the TTL, and after a None, the function runs again and its result is stored |
| Cache.GetAfterSet | ztoq/database_optimizations.py:68-90 | a value is found until its age exceeds the TTL, and not after |
| Cache.ContainsIff | ztoq/database_optimizations.py:114-116 | a key matches a pattern if and only if it has it somewhere inside |
| Cache.EntryIsLastSet | ztoq/database_optimizations.py:58-136 | on every run, an entry is present if and only if the history has a last set that no get or cleanup found expired |
| Cache.GetIsHistoryUnlessEvicted | ztoq/database_optimizations.py:58-136 | the exact value of get on every run, whatever happens to clock and TTL |
| Cache.GetIsHistory | ztoq/database_optimizations.py:58-136 | with a monotone clock and a TTL never raised, get returns the last set since the last covering invalidation, if young enough |
| Cache.GetIsNeverWrong | ztoq/database_optimizations.py:58-78 | a value returned is always the one the history gives |
| Cache.CleanupIsVisibleIff | ztoq/database_optimizations.py:58-136 | on every run, whatever happens to clock and TTL, a cleanup inserted anywhere changes a later get if and only if it removed an entry, not caught otherwise, that has come back to life since |
| Cache.CleanupIsInvisible | ztoq/database_optimizations.py:126-136 | with a monotone clock and a TTL never raised it changes none |
| Cache.RaisingTtlShowsCleanup | ztoq/db_optimization_helpers.py:217-221 | unless the TTL is raised |
| CachedQuery.StalenessIsBounded | ztoq/database_optimizations.py:156-176 | over every interleaving of look-ups and stores, a decorated call returns a new result or one that a call with the same pieces stored no longer ago than the TTL, and never a cached None |
| CachedQuery.OwnResultsIff | ztoq/database_optimizations.py:156-176 | calls are given only their own recent results, on every run, if and only if no two of the calls in use have the same pieces |
| CachedQuery.KeysAgreeIff | ztoq/database_optimizations.py:160-163 | any two calls share a key if and only if their names, arguments, keyword names and values, cut at colons, read the same |
| CachedQuery.ColonFreeKeysAgreeIff | ztoq/database_optimizations.py:160-163 | without colons in them: if and only if they read the same, keyword arguments counted as two each |
| CachedQuery.JoinIsInjective | ztoq/database_optimizations.py:160-163 | colon-free parts are read back from the key |
| CachedQuery.KeywordArgumentsClash | ztoq/database_optimizations.py:160-163 | a keyword argument and two positional ones share a key |
| MigrationChecks.ValidateRelation | ztoq/data_comparison.py:157-224 | the mismatches up to the first exception; empty if and only if every call made succeeded and every mapped pair agrees |
| MigrationChecks.CleanIffHomomorphism | ztoq/data_comparison.py:157-360 | without exceptions, silence means exactly that the mapping is a homomorphism on its domain |
| MigrationChecks.ReportIs | ztoq/data_comparison.py:157-224 | every mismatch before the first exception is reported, in order, and the exception ends the report |
| MigrationChecks.ValidateCounts | ztoq/data_comparison.py:44-92 | the loop lists the kinds that lack mappings and how many |
| MigrationChecks.ListedIffReported | ztoq/data_comparison.py:59-92 | a kind is listed if and only if it was compared and has more entities than mappings, with exactly the difference |
| MigrationChecks.ListedOnce | ztoq/data_comparison.py:59-92 | each once and in order |
| MigrationChecks.ComparedIffReadableSoFar | ztoq/data_comparison.py:525-575 | a kind is compared if and only if its count and all earlier ones were readable |
| MigrationChecks.ReportedIff | ztoq/data_comparison.py:59-92 | a kind is reported if and only if its entities' count and the earlier ones were readable and they outnumber the mappings, of which none count if their counts were not readable so far |
| MigrationChecks.UnreadableCountHidesMissing | ztoq/data_comparison.py:525-575 | an input on which an unreadable count hides that no test case is mapped |
| MigrationChecks.EveryEntityIsMapped | ztoq/data_comparison.py:59-63 | as many mappings as entities, with distinct sources among them, map every entity |
| MigrationChecks.CleanMigrationIsComplete | ztoq/data_comparison.py:136-155 | if all validators are silent and all counts readable, every test case and run sits under the images of what it belongs to |
| Dashboard.GetRecentActivity | ztoq/migration_dashboard.py:284-375 | the loops, the sort and the cut make the merge; an exception at an issue keeps the ones before it |
| Dashboard.ReadableRows | ztoq/migration_dashboard.py:327-364 | the issues kept are the readable ones at the front, whether cut to the limit before or after |
| Dashboard.MergedIsTopOfBoth | ztoq/migration_dashboard.py:286-375 | limiting each query loses nothing: the timestamps shown are those of sorting everything and cutting once |
| Dashboard.NothingNewerIsLeftOut | ztoq/migration_dashboard.py:371-375 | nothing left out is newer than anything shown |
| Dashboard.ShownIsStored | ztoq/migration_dashboard.py:286-367 | everything shown is stored, as often as it is shown |
| PlanTree.Findings.Extract | ztoq/db_indexing.py:507-535 | extraction appends a tree's index names and tables in pre-order to what was there |
| PlanTree.ExtractsInPreOrder | ztoq/db_indexing.py:507-535 | these are the names and tables of the nodes in pre-order, each as often as it occurs, and the tables scanned sequentially twice |
| PlanTree.UsesIffExtracted | ztoq/db_indexing.py:813-825 | the search finds a name if and only if extraction lists it |

## Left out

- The async pool, HTTP itself, retries, the CLI, the dashboard's pages, logging and metrics export.
- `failed_connections`: it is incremented outside the lock, so updates can be lost.
- `get_metrics` hands out the registered lists themselves; callers that change them are not part of this model.
- A session's `close` that raises: the model only records that it was called.
- JSON columns, display names and dates of stored rows: they do not take part in any constraint.
- `save_all_projects_data`, the plan and report tables' own writers, and reading rows back.
- Sort keys other than ones ordered like integers.
- Arguments of decorated calls: two whose `str` is the same are the same to the model, as to the cache.
- Negative batch caps, an `AdaptiveBatchStrategy` with a minimum or an initial size below 1, an empty size range or a target time of 0 or less.
- Float rounding in sizes, times and similarities.
- Severity levels, messages and ids of validation issues.
- The custom field and attachment validators, and the database managers behind the validators; the PostgreSQL one turns failed reads into empty answers, which a validator cannot tell from real ones.
- Rows that `processor` changes while a page is being processed, other than through the table states of the model, and exceptions it raises.
- None timestamps in the activity feed.
- `estimate_processing_time`, `configure_optimal_batch_size`, field validation, the table printer and index recommendations: they would add easier members only.
