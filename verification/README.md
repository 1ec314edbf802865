# Verified model of the data service core

A Dafny model of the parts of the service that keep state under failures and concurrency, with
proofs about every run:

- **PII cache.** `AccountMapInMemory` (two hash maps and a watermark), the snapshot and incremental
  paging loops, the startup retries, the background loop, and the table they read. `SyncProtocol`
  puts them into one machine in which inserts, single queries and failures interleave;
  `SyncProtocol.LoadsAreRuns` and `SyncLoop.LoopIsRun` prove that the loops of the code take the steps
  of the machine, failures included. `LoadBatches` tells from the batch lengths what a load applies,
  with rows arriving at any time.
- **Trino engine.** The lock-protected `_engine` field, and a machine with a program counter for
  every query thread, every awaiting caller and every close, where `dispose` happens after the lock.
- **Dynamic routes.** Concurrent create/update/delete requests, each with its own session, flushing
  under the unique constraint and audited after the route commit (`RouteStore`); what each request
  does, told from its payload and the table (`RouteRequests`); what the stored rows must satisfy and
  which committed updates keep it (`RouteContracts`); runs that end badly (`RouteRaces`); SQL validation
  around an abstract parser; typed parameters; execution with pagination; request schema and URL; who
  may call what.
- **PII rows.** The in-place mapping of result rows and the reverse lookup of tokens.
- **Text.** Strip, split and join, comma lists, the `%(x)s` to `:x` rewrite, slash trimming.

`Wrappers.dfy` holds Option and Result. The other files are one module each, named after what they
model. All lemmas switch automatic induction off, so every induction is written out.

`dafny verify dfyconfig.toml` checks the project.

## Assumptions

- The mapping table only grows, in the order of the query `(created_at, customer_id)`; `created_at` is
  never null and `customer_id` is the primary key. Equal times are allowed; statements that need
  distinct times say so. A query sees the rows committed before it.
- `Engine.dispose` does not raise and the factory makes a fresh engine each time.
- The SQL library (`SqlLibrary`), the text conversions of the language (`Library`, including casefold
  and ISO dates), `str.lower` and int() of digits are function parameters. What is needed of them is
  a hypothesis where it is used: a stable printer (`SqlSafety.Stable`) for running a stored route, ISO
  formats that parse back (`DynamicParameters.IsoInverts`, `ReadsBack`), no ASCII capital after
  `lower` (`RouteSchema.LowersAscii`).
- A database flush waits for transactions that changed the same row or key, and an UPDATE sends only the
  columns whose value changed since the row was loaded; two JSON objects are equal whatever the order
  of their keys. A commit that reaches the database but is reported as an error is a successful commit
  followed by an error.

## What the proofs found

- A load that meets a short, non-empty batch and then a non-empty one skips rows, reports success and
  moves the watermark past them (`ShortPageSkipsRows`). With distinct times this is the only way to
  lose a row (`CacheAgreesWithTable`, both directions). If each batch before the last is full, a load
  applies exactly the next rows behind its filter, whatever arrives meanwhile and also for equal times
  (`LoadAppliesStretch`).
- A pass that stops inside a group of rows with equal `created_at` loses the rest of the group, because
  the watermark test is strict (`RoundsRefineSnapshot`, `RecoverableIffOnTrack`, both directions).
- When two tokens share a value, the reverse lookup finds only the later one
  (`ReverseLookupIsComplete`, both directions).
- A query that is still queued when the client is closed makes an engine that nobody disposes
  (`EarlyCloseLeaks` is such a run, `LateQueryLeaks` all of its kind); all engines are disposed at the
  end exactly when none is current (`QuiescentDisposal`).
- The PostgreSQL rewrite also changes `%(x)s` inside a string literal (`RewriteOfRendering`, both
  directions).
- A create, update or delete whose audit raises, or that times out there, answers with an error although
  the change is committed (`LateErrorLeavesRoute`); a request that ends in an error leaves nothing exactly
  when its route commit had not happened (`UniqueRoutesAndErrors`). The same holds for a request that
  goes on behind a timeout of its answer (`TimedOutRequestStoresRoute`).
- Two updates that load the same row, each accepted, can leave SQL and definitions that do not match
  (`RaceLosesContract`), or a paginated route that defines `page` (`RaceReservesName`). Every table along a
  run keeps these properties exactly when every committed update fits the row it is written to
  (`TablesMeetIffCommitsFit`); `Fits` says what that means for what the update loaded, wants and finds.
- An integer too large for a float makes the float cast raise OverflowError, which no handler turns into
  a client error: exactly for such an int in the JSON of a lab test (`LabTestEscapesExactly`,
  `LargeIntEscapes`), as a default in a write request (`DefaultCheckIsExact`), or as the first default that
  is not accepted in a stored definition (`ExecutionEscapesExactly`). The values of a request to a route
  never cause it, and no route that the service itself stored does (`StoredRoutesNeverEscape`).
- A length rule with a negative minimum that sets the last character aside raises IndexError on an empty
  text, and the rows stay rewritten up to there (`MapPiiFields`).
- The validator's list of forbidden nodes has no `exp.Into`; what is proved is that no listed node occurs,
  not that accepted SQL is read-only.
- The docstring of the background loop lists the sync before the sleep; the code sleeps first, and the
  model follows the code.

## Model

| member | source | states |
|---|---|---|
| AccountMap.AccountMapInMemory.constructor | app/services/account_map_in_memory.py:8-11 | a new cache is empty and has no watermark |
| AccountMap.AccountMapInMemory.UpdateLastSyncedAt | app/services/account_map_in_memory.py:18-21 | only the watermark moves, and only forward |
| AccountMap.AccountMapInMemory.AddRecord | app/services/account_map_in_memory.py:31-36 | one record enters both maps and may advance the watermark |
| AccountMap.AccountMapInMemory.AddRecords | app/services/account_map_in_memory.py:38-40 | the loop is the in-order fold of single additions |
| AccountMap.AccountMapInMemory.Clear | app/services/account_map_in_memory.py:42-45 | maps and watermark are reset together |
| AccountMap.AddAllConcat | app/services/account_map_in_memory.py:38-40 | adding in two batches is adding the concatenation |
| AccountMap.ReplayIsBuild | app/services/account_map_in_memory.py:31-45 | any history of calls leaves the build of the records added since the last clear, whatever came before |
| AccountMap.BuildKeys | app/services/account_map_in_memory.py:31-33 | the keys of the maps are exactly the tokens and the values of the records |
| AccountMap.BuildKeepsLastWriters | app/services/account_map_in_memory.py:31-33 | a record decides an entry of either map exactly when no later one has its token (its value) |
| AccountMap.WatermarkIsMaximum | app/services/account_map_in_memory.py:14-21 | the watermark is the maximum created_at, and is attained |
| AccountMap.HistoryLaws | app/services/account_map_in_memory.py:18-49 | after every history: size counts distinct tokens since the last clear, the watermark is the maximum since then, the maps' values are the other map's keys |
| AccountMap.CrossKeys | app/services/account_map_in_memory.py:31-33 | the values of each map lie in the key set of the other |
| AccountMap.ReverseThenForward | app/services/account_map_in_memory.py:31-33 | with distinct tokens, going from a value to its token and back returns the value |
| AccountMap.InversesIffDistinctValues | app/services/account_map_in_memory.py:31-33 | with distinct tokens the maps are mutual inverses exactly when the values are distinct |
| MappingTable.MappingSession.GetMappingsBatch | app/repositories/sqlalchemy/account_map.py:51-84 | one query answers with the slice of the filtered, ordered rows, or fails, and uses up one answer |
| MappingTable.NewerIsSuffix | app/repositories/sqlalchemy/account_map.py:67-70 | the strict filter keeps exactly a suffix of the ordered table |
| MappingTable.Batches | app/repositories/sqlalchemy/account_map.py:86-94 | the chunks put together are the input; all but the last are full, none is empty |
| SnapshotLoad.LoadPiiMappingSnapshot | app/services/pii_mapping_snapshot.py:5-32 | the loop leaves the cache, report and query count of the paging function started from a cleared cache |
| SnapshotLoad.LoadPiiMappingIncremental | app/services/pii_mapping_snapshot.py:35-65 | same for a pass over the rows later than the watermark; nothing happens without a watermark |
| SnapshotLoad.InitializeAccountMapInMemory | app/dependencies/services.py:91-135 | fails exactly when every attempt fails; otherwise the cache is what the first successful attempt loads alone |
| SnapshotLoad.RunPiiCacheSyncLoop | app/services/pii_cache_sync.py:13-69 | the loop leaves the cache of the specified rounds; what these are is stated by `SyncLoop.LoopIsRun` and `StopEndsLoop` |
| SnapshotLoad.PagesOfIsCeiling | app/services/pii_mapping_snapshot.py:18-32 | the page count used below is ceil(n / batch_size) |
| SnapshotLoad.FrozenLoad | app/services/pii_mapping_snapshot.py:18-32 | over a table that does not change, every newer row is applied once and in order, their number is returned, after ceil(n / batch_size) + 1 queries |
| SnapshotLoad.SnapshotOfFrozenTable | app/services/pii_mapping_snapshot.py:5-32 | a snapshot of an unchanging table is the last-writer-wins build of all its rows |
| SnapshotLoad.PrefixWatermark | app/services/pii_mapping_snapshot.py:46 | the watermark of a loaded prefix is its last time, and the strict filter resumes right behind it exactly when the split is clean |
| SnapshotLoad.IncrementalRefinesSnapshot | app/services/pii_mapping_snapshot.py:35-65 | one pass over the rest of an unchanging table rebuilds the full snapshot exactly when the loaded rows do not end inside a group of equal times |
| SnapshotLoad.KeptRowsRebuild | app/services/pii_mapping_snapshot.py:50-65 | leaving out rows of the table is always visible in the cache |
| SnapshotLoad.ShortPageSkipsRows | app/services/pii_mapping_snapshot.py:28-30 | rows that arrive behind a short first batch are skipped by a load that reports success |
| SyncProtocol.BatchIsStretch | app/repositories/sqlalchemy/account_map.py:67-71 | what a query returns is a contiguous stretch of the table at cut + offset |
| SyncProtocol.StepKeepsInv | app/services/pii_mapping_snapshot.py:16-65 | every insert, query, failure and start keeps: the cache is the build of a prefix, or a first lost row is absent, below the watermark and behind all later queries |
| SyncProtocol.FetchKeepsInv | app/services/pii_mapping_snapshot.py:53-63 | applying a batch in order extends the prefix; out of order it never brings a lost row back |
| SyncProtocol.RunKeepsInv | app/services/pii_mapping_snapshot.py:16-65 | the invariant over every run |
| SyncProtocol.CacheAgreesWithTable | app/services/pii_mapping_snapshot.py:16-65 | over every run the cache holds only table rows, and with distinct times holds every row up to the watermark exactly when no load since the last clear fetched on after a short batch |
| SyncProtocol.PassesCannotRepair | app/services/pii_cache_sync.py:32-67 | once off track, no schedule of passes ever rebuilds the table |
| SyncProtocol.OnePass | app/services/pii_cache_sync.py:43-53 | from an idle cache on track one pass rebuilds the snapshot of the current table |
| SyncProtocol.RecoverableIffOnTrack | app/services/pii_cache_sync.py:32-67 | in every reachable state, passes can still rebuild the fresh snapshot exactly when nothing is lost and the next row is later than the watermark or about to be fetched |
| SyncProtocol.LoopFollowsMachine | app/services/pii_mapping_snapshot.py:52-63 | the code's paging loop, run on the answers of the machine's queries, leaves the machine's cache and returns the machine's count or raises where a query of the machine fails |
| SyncProtocol.LoadsAreRuns | app/services/pii_mapping_snapshot.py:5-65 | a snapshot and a pass of the code are runs of the machine, in the cache that they leave and in what they return or raise |
| SyncProtocol.FreshIffAllApplied | app/services/pii_mapping_snapshot.py:16-65 | at any point of any run the cache is the fresh snapshot exactly when nothing was lost and all rows were applied |
| SyncProtocol.FreshIffBatchesAddUp | app/services/pii_mapping_snapshot.py:50-65 | with distinct times and rows arriving at any time: at every query of a load the cache is the fresh snapshot exactly when no load fetched on after a short batch and the batch lengths add up to the rows later than its start |
| SyncLoop.LoopIsRun | app/services/pii_cache_sync.py:32-67 | for all rounds, rows arriving at any time and any query failing: the cache that the loop leaves is the one that the machine reaches by one pass after the other, so a pass that raises ends its round only |
| SyncLoop.StopEndsLoop | app/services/pii_cache_sync.py:32-41 | rounds behind the stop event change nothing |
| SyncLoop.PassExtends | app/services/pii_mapping_snapshot.py:46-65 | a pass over a loaded prefix, answered `good` times before its session fails, extends it by that many batches, or loses the next row exactly when it goes on inside a group of equal times |
| SyncLoop.RoundsRefineSnapshot | app/services/pii_cache_sync.py:32-67 | from a non-empty startup snapshot, after any number of rounds with inserts between them, each completing or raising at some query: the cache holds exactly the rows that full batches reach exactly when no round goes on loading inside a group of equal times, and is the fresh snapshot exactly when besides they reach all rows |
| SyncLoop.CompletedRoundReachesAll | app/services/pii_mapping_snapshot.py:50-65 | a round whose session answers ceil(n / batch_size) + 1 queries reaches all n rows |
| LoadBatches.SnapshotAppliesPrefix | app/services/pii_mapping_snapshot.py:16-32 | over every run, any times: at every query of a snapshot, if each batch before the last was full, exactly the first `loaded` rows were applied; the cache is the build of the whole table exactly when besides `loaded` is its length |
| LoadBatches.LoadAppliesStretch | app/services/pii_mapping_snapshot.py:18-32 | any load of any cache, rows arriving at any time, any times: if each batch before the last was full, exactly the next `loaded` rows behind the filter were applied, no gap and no duplicate; and only then, if the cache had none of the rows asked for |
| LoadBatches.PassExtendsPrefix | app/services/pii_mapping_snapshot.py:46-65 | a pass over a loaded prefix, rows arriving at any time, any times: the cache ends as the prefix extended by the rows loaded exactly when each batch before the last was full and, unless nothing was found, the strict filter starts at the next row |
| EngineLifecycle.TrinoPythonClient.constructor | app/infrastructure/trino/client.py:60-62 | no engine at first |
| EngineLifecycle.TrinoPythonClient.GetEngine | app/infrastructure/trino/client.py:131-135 | returns the current engine, making one only when there is none |
| EngineLifecycle.TrinoPythonClient.DisposeEngine | app/infrastructure/trino/client.py:169-173 | disposes its argument and clears the field only if it held that engine |
| EngineLifecycle.TrinoPythonClient.DisposeCurrentEngine | app/infrastructure/trino/client.py:175-180 | clears the field and disposes whatever it held |
| EngineLifecycle.TrinoPythonClient.CloseSync | app/infrastructure/trino/client.py:182-188 | same at close, nothing if there is no engine |
| EngineLifecycle.TrinoPythonClient.ExecuteSync | app/infrastructure/trino/client.py:114-129 | a query alone keeps its engine on success and retires it on failure |
| EngineLifecycle.StepKeepsDebts | app/infrastructure/trino/client.py:114-188 | every step keeps: held engines exist, owed and disposed ones were cleared, cleared ones are disposed or owed |
| EngineLifecycle.RunKeepsInv | app/infrastructure/trino/client.py:64-188 | the accounting over every interleaving; engines that left the field stay recorded |
| EngineLifecycle.CurrentEngineIsLive | app/infrastructure/trino/client.py:131-135 | the engine in the field was never disposed and nobody is about to; an engine still held elsewhere is an older one that was cleared |
| EngineLifecycle.RetiredNeverReturns | app/infrastructure/trino/client.py:169-188 | an engine that stopped being current never is again |
| EngineLifecycle.WhoClears | app/infrastructure/trino/client.py:169-188 | in every reachable state with a current engine, a step empties the field exactly when it is the lock of a timeout, of a close, or of a thread that failed on this very engine |
| EngineLifecycle.RetiredIsDisposed | app/infrastructure/trino/client.py:127-188 | over every interleaving, the engine on which a query fails and the engine that is current at the lock of a timeout or a close is given up by that very task and disposed once the task is finished; a timeout or a close leaves the field empty |
| EngineLifecycle.ThreadsFollowTheProgram | app/infrastructure/trino/client.py:64-188 | over every interleaving each thread, caller and close has taken exactly the steps of its program that lead to where it is, in order |
| EngineLifecycle.EngineAccounting | app/infrastructure/trino/client.py:131-188 | engines made = cleared + current, each cleared once; an engine is current exactly when it is neither disposed nor owed a dispose |
| EngineLifecycle.DisposedUnderAQuery | app/infrastructure/trino/client.py:114-129 | the engine of a query that is still waiting was disposed, or is about to be, only because another query on it failed or another caller's timeout or a close took it |
| EngineLifecycle.QuiescentDisposal | app/infrastructure/trino/client.py:182-188 | when all threads are done, every engine made is disposed exactly when none is current |
| EngineLifecycle.CloseIsFinal | app/infrastructure/trino/client.py:182-188 | after a close behind which no thread asks for an engine, the quiescent state has all engines disposed |
| EngineLifecycle.LateQueryLeaks | app/infrastructure/trino/client.py:111-135 | in every reachable state with a finished close, no current engine and one queued query, that query makes an engine that stays undisposed |
| EngineLifecycle.EarlyCloseLeaks | app/infrastructure/trino/client.py:111-135 | the run in which a client is closed before the thread of its query starts |
| Strings.StripTrims | app/services/query_engine/dynamic_parameters.py:257 | strip yields a trimmed string of old characters, and is the identity exactly on trimmed ones |
| Strings.StripIsExact | app/services/query_engine/dynamic_parameters.py:257 | strip(s) is exactly the trimmed text that s is with spaces put on both sides |
| Strings.SplitConcat | app/services/query_engine/dynamic_parameters.py:257 | splitting around one separator splits both sides on their own |
| Strings.SplitParts | app/services/query_engine/dynamic_parameters.py:257 | parts hold no separator and join back to the string |
| Strings.SplitOfJoin | app/services/query_engine/dynamic_parameters.py:257 | joining separator-free parts and splitting returns them |
| Strings.SplitIsDelimited | app/schemas/dynamic_route.py:68 | the parts are exactly the stretches between separators or ends |
| PlaceholderRewrite.MatchIsPlaceholder | app/services/query_engine/sql_safety.py:101 | a match of the pattern is the text of a placeholder with an identifier |
| PlaceholderRewrite.PlaceholderMatches | app/services/query_engine/sql_safety.py:101 | every placeholder text matches, with its name and length |
| PlaceholderRewrite.RewriteIsClean | app/services/query_engine/sql_safety.py:100-104 | no pyformat placeholder is left anywhere in the output |
| PlaceholderRewrite.RewriteFixesClean | app/services/query_engine/sql_safety.py:100-104 | a text is changed, and then shortened, exactly when the pattern occurs in it |
| PlaceholderRewrite.RewriteIsIdempotent | app/services/query_engine/sql_safety.py:100-104 | rewriting twice is rewriting once |
| PlaceholderRewrite.RewriteSplits | app/services/query_engine/sql_safety.py:100-104 | the text before and behind a placeholder is rewritten on its own and keeps its place |
| PlaceholderRewrite.RewriteOfRendering | app/services/query_engine/sql_safety.py:98-104 | a rendering becomes the same fragments with named binds exactly when no other fragment contains the pattern |
| SqlSafety.WalkVisitsAll | app/services/query_engine/sql_safety.py:141 | the walk visits exactly the nodes of the tree, at every depth |
| SqlSafety.ValidateCharacters | app/services/query_engine/sql_safety.py:124-132 | accepts exactly the texts whose control characters are all allowed ones |
| SqlSafety.CollectPlaceholders | app/services/query_engine/sql_safety.py:108-116 | yields the set of placeholder names, or stops exactly when one is no identifier |
| SqlSafety.Validate | app/services/query_engine/sql_safety.py:60-121 | the pipeline computes the specified outcome, with the same order of errors |
| SqlSafety.ValidationIsExact | app/services/query_engine/sql_safety.py:60-127 | validation yields a canonical text and names exactly when the text is safe and not blank and parses to one SELECT without a listed node at any depth, the canonical text is that tree printed (rewritten for PostgreSQL), and it parses to such a SELECT with exactly these placeholders, all identifiers |
| SqlSafety.FirstCheckDecides | app/services/query_engine/sql_safety.py:60-127 | otherwise the first check in order that fails decides the error |
| SqlSafety.AcceptedSqlHasNoListedNode | app/services/query_engine/sql_safety.py:96-121 | accepted SQL reparses to a SELECT without a listed node at any depth, its names are its placeholders and identifiers, a PostgreSQL text has no pyformat left |
| DynamicParameters.CastStringListLoop | app/services/query_engine/dynamic_parameters.py:248-264 | the loop computes the specified cast |
| DynamicParameters.StringListIgnoresRepeats | app/services/query_engine/dynamic_parameters.py:248-264 | casting repeated values and casting their comma-join succeed together with the same result |
| DynamicParameters.StringListFixedPoints | app/services/query_engine/dynamic_parameters.py:248-264 | results are non-empty lists of non-empty, trimmed, comma-free items, and exactly such lists are unchanged, joined or not |
| DynamicParameters.CastIsProjection | app/services/query_engine/dynamic_parameters.py:180-264 | for every type a cast yields a value of the type, and the values of the type are exactly the fixed points |
| DynamicParameters.ListCastIsExact | app/services/query_engine/dynamic_parameters.py:248-264 | a list cast yields exactly the stripped parts between the commas of all texts, in order, and fails when there is an empty one |
| DynamicParameters.CastIsWhatIsRead | app/services/query_engine/dynamic_parameters.py:180-239 | for every type a cast yields exactly what the value denotes: itself, or what its text stands for, and for a float also an int |
| DynamicParameters.DefaultCheckIsExact | app/services/query_engine/dynamic_parameters.py:68-77 | a default is accepted exactly when there is none, or it is optional and casts to a value of the type; an OverflowError escapes exactly for an int too large for an optional float |
| DynamicParameters.CheckIsFirst | app/services/query_engine/dynamic_routes.py:323-327 | loading definitions ends as the check of the first one that is not accepted |
| DynamicParameters.ShownBindsBack | app/services/query_engine/dynamic_parameters.py:180-264 | supplying the query text of any value of the declared type binds exactly that value |
| DynamicParameters.JsonBindsBack | app/services/query_engine/dynamic_parameters.py:171-177 | so does supplying the value itself in the JSON of a lab test, lists included |
| DynamicParameters.ContractIsExact | app/services/query_engine/dynamic_parameters.py:80-105 | SQL and definitions agree exactly when they have the same names, all identifiers; a bad name is reported first |
| DynamicParameters.StoredDefaultCastsTheSame | app/services/query_engine/dynamic_routes.py:311-332 | writing a definition as JSON and reading it back changes neither its validity nor its default |
| DynamicParameters.StoredDefinitionsStayAccepted | app/services/query_engine/dynamic_routes.py:311-332 | the JSON column keeps the names and the acceptance of all definitions |
| DynamicParameters.CastParameterValues | app/services/query_engine/dynamic_parameters.py:110-148 | the loop computes the specified binding of all definitions |
| DynamicParameters.CastIsExact | app/services/query_engine/dynamic_parameters.py:110-148 | succeeds exactly when only declared names are supplied and every definition accepts its values; each name gets its own definition's value; otherwise the first failure in order is reported |
| DynamicParameters.BindIsExact | app/services/query_engine/dynamic_parameters.py:121-148 | a definition binds exactly what the one supplied value, the list of all values, or the default of an omitted parameter denotes; missing is reported exactly for an omitted required one |
| DynamicParameters.QueryAppends | app/services/query_engine/dynamic_parameters.py:168-169 | one more pair of the query string adds its text behind the values of its key and changes no other |
| DynamicParameters.EscapesExactly | app/services/query_engine/dynamic_parameters.py:199-205 | an accepted definition lets an OverflowError escape exactly when a float is supplied as one int that is too large |
| DynamicParameters.QueryNeverEscapes | app/services/query_engine/dynamic_parameters.py:168-169 | casting the query parameters of a request never lets one escape |
| DynamicParameters.LabTestEscapesExactly | app/services/query_engine/dynamic_parameters.py:171-177 | casting JSON values lets one escape exactly for a float given as a too large int, directly or as the only item of a list |
| DynamicParameters.LargeIntEscapes | app/services/query_engine/dynamic_parameters.py:199-205 | an input for which it escapes |
| DynamicParameters.BoundValuesHaveTheirKind | app/services/query_engine/dynamic_parameters.py:121-148 | an accepted definition never fails on omission; a bound value is of the declared type and a fixed point of the cast, or null for an omitted optional without default |
| RouteSchema.PaddingIsIgnored | app/schemas/dynamic_route.py:48-51 | a prefix with spaces around it is normalised to the lowered prefix |
| RouteSchema.SegmentsIffChecks | app/schemas/dynamic_route.py:60-71 | splitting into non-empty segments is the same demand as the table's three path constraints |
| RouteSchema.AcceptedPathsAreExact | app/schemas/dynamic_route.py:60-71 | a path is accepted exactly when it has 1 to 500 characters, no space or slash at an end, no two slashes in a row, and no stretch between slashes that is one or two dots |
| RouteSchema.AcceptedSatisfiesChecks | app/models/dynamic_route.py:44-59 | an accepted prefix and path satisfy all four CHECK constraints |
| RouteSchema.ApiPathIsInjective | app/schemas/dynamic_route.py:94-97 | accepted routes share a URL only if equal, and cutting at the first slash gives prefix and path back |
| RouteSchema.AcceptedUrlIsFree | app/schemas/dynamic_route.py:28-58 | the URL of an accepted route is never below that of the management endpoints |
| RoutePermission.MatchIsFirstSegment | app/dependencies/auth.py:106-111 | over all paths the trim-and-prefix test says that the first segment is the username |
| RoutePermission.RegularUserOwnsFirstSegment | app/dependencies/auth.py:93-111 | a regular user is allowed on {api_prefix}/p/q exactly when p is the lowercased username |
| RoutePermission.AllowedOnAllPaths | app/dependencies/auth.py:93-152 | over all request paths and API prefixes a regular user is allowed exactly when the first segment behind the prefix is the username; an administrator always is |
| PiiMapping.TokenLengthRule | app/services/query_engine/pii_rules.py:18-38 | a cell is replaced exactly when its text is a 32-character token of the cache, alone or followed by one character, which then follows the value |
| PiiMapping.ExceedsRule | app/services/query_engine/pii_rules.py:41-68 | same for the minimum-length rule, any minimum, with and without the last character set aside |
| PiiMapping.MapRowIsMapped | app/services/query_engine/pii_mapper.py:38-57 | each ruled non-null cell holds the text that its transformer yields, or null when it yields none; every other cell and all keys stay |
| PiiMapping.MapRowFields | app/services/query_engine/pii_mapper.py:38-57 | the inner loop rewrites one row in place and appends its misses in rule order, up to the first rule that raises |
| PiiMapping.MapPiiFields | app/services/query_engine/pii_mapper.py:22-59 | the rows end as `MapRowIsMapped` says, and the misses are, in row and rule order, exactly the column and original value of each cell without a mapping; an empty rule set is refused; an IndexError is raised exactly when some cell causes one, and leaves the rows rewritten up to it |
| PiiMapping.MappingIsExact | app/services/query_engine/pii_mapper.py:37-59 | the same of the specification function, for any rows and rules |
| PiiMapping.RowConserves | app/services/query_engine/pii_mapper.py:38-57 | in a row, non-null cells before = non-null cells after + misses |
| PiiMapping.MappingConserves | app/services/query_engine/pii_mapper.py:37-59 | same over the first n rows, for every n |
| PiiMapping.MappingConcat | app/services/query_engine/pii_mapper.py:37-59 | mapping pages one after the other is mapping all rows at once, rows and misses |
| PiiMapping.ReverseLookupIsExact | app/services/query_engine/base_service.py:21-39 | a 32-character token is returned exactly when the forward rule maps it to a requested value and it is the last row with that value |
| PiiMapping.ReverseLookupIsComplete | app/services/query_engine/base_service.py:21-39 | all tokens of every request are found exactly when no 32-character token shares its value with a later row |
| PiiMapping.LookupKeepsTheFilter | app/services/query_engine/base_service.py:21-39 | the lookup returns exactly the tokens whose value is requested up to case; when there is none it returns the one text that matches nothing, and only an empty request has no filter |
| RouteStore.StepKeepsInv | app/services/query_engine/dynamic_routes.py:68-188 | every step of every request keeps: committed keys are unique, and flushed changes fit the table and each other |
| RouteStore.LogIsCommits | app/api/v1/endpoints/dynamic_routes.py:60-70 | the committed changes are exactly those of the requests whose route commit is among the events |
| RouteStore.UniqueRoutesAndErrors | app/api/v1/endpoints/dynamic_routes.py:108-135 | over every interleaving (prefix, path) is unique, the table is exactly the composition of the committed changes, one for each request, every success is among them, and a request whose caller was told an error, even if it goes on behind a timeout, has left nothing exactly when its route commit has not happened |
| RouteStore.CommittedChangesAreAsked | app/services/query_engine/dynamic_routes.py:94-108 | each committed change is what its request asked for: a create adds the vetted payload, an update writes the columns it changed, a delete removes |
| RouteRequests.CreateWritesPayload | app/services/query_engine/dynamic_routes.py:94-108 | over every interleaving a committed create had passed the checks and stored, under a new id, each column of its payload, the canonical text of its SQL and its definitions |
| RouteRequests.UpdateWritesPayload | app/services/query_engine/dynamic_routes.py:157-168 | over every interleaving a committed update had passed the checks and, in each column, wrote its value where that differs from the row it had loaded and kept the value of the table else |
| RouteRequests.VettedIffPasses | app/services/query_engine/dynamic_routes.py:74-78 | the checks are: the SQL validates, and its placeholders are exactly the names of the definitions, all identifiers |
| RouteRequests.LoadedRowsWereStored | app/services/query_engine/dynamic_routes.py:123-136 | over every interleaving what an update or a delete has loaded is a row that was in the table under its id |
| RouteRequests.FailuresHaveTheirCause | app/services/query_engine/dynamic_routes.py:74-151 | over every interleaving each step fails exactly for its cause: an id that is not in the table, a payload that does not pass the checks, another stored route with this prefix and path, a lab test, commit or audit that fails |
| RouteRequests.FlushFailsFor | app/services/query_engine/dynamic_routes.py:107-115 | a flush fails exactly for a stored route with the prefix and path that would be written, or for a row that is gone |
| RouteRequests.RequestsFollowTheProgram | app/services/query_engine/dynamic_routes.py:68-188 | over every interleaving each request that has not failed has taken exactly the steps that lead to where it is, in order; no check is skipped |
| RouteRequests.CommittedChangesPassedLab | app/services/query_engine/dynamic_routes.py:265-275 | over every interleaving a committed change that asked for a lab test has lab-test parameters that its definitions accept |
| RouteRequests.RequestsCanGoOn | app/services/query_engine/dynamic_routes.py:68-188 | over every interleaving no request is stuck: it can take a step of its own, or waits for another that has flushed a change to the same row or route and can commit |
| RouteRequests.BlockedByFlushed | app/models/dynamic_route.py:39-43 | a flush waits exactly while another request has flushed and not committed a change to the same row, or one that gives a row the same prefix and path or takes them from one |
| RouteRequests.StoredUrlsAreFree | app/schemas/dynamic_route.py:28-58 | over every interleaving no stored route is below the URL of the management endpoints, and its prefix has 3 to 50 of the allowed characters |
| RouteStore.CommitsChangeOneRow | app/api/v1/endpoints/dynamic_routes.py:109-134 | a create adds one id, an update keeps the ids and touches one row, a delete removes its row if it is still there; no other step, neither audit commit included, changes a row |
| RouteContracts.VettedMeets | app/services/query_engine/dynamic_routes.py:74-78 | a payload that passes the schema, SQL validation and the contract asks for a row with accepted columns, matching names and no reserved name |
| RouteContracts.MergedMeetsIffFits | app/services/query_engine/dynamic_routes.py:157-168 | the row that an update writes has matching names (no reserved name) exactly when the update fits: in terms of which columns it changes, and across dialects when the SQL passes the last checks in the merged dialect with the merged names |
| RouteContracts.UndisturbedUpdateFits | app/services/query_engine/dynamic_routes.py:136-168 | an update of a row whose SQL, definitions, dialect and response type are as loaded fits |
| RouteContracts.TablesMeetIffCommitsFit | app/services/query_engine/dynamic_routes.py:68-188 | over every interleaving: in every table along the run each row's definition names are the placeholders of its SQL (no paginated row has a reserved name) exactly when every committed update fitted its row |
| RouteContracts.StoredRowsAreWellFormed | app/models/dynamic_route.py:38-59 | over every interleaving each stored row satisfies the CHECK constraints and has accepted definitions with distinct names, and no two rows share a URL |
| RouteRaces.LateErrorLeavesRoute | app/api/v1/endpoints/dynamic_routes.py:61-69 | for every payload that would be created: an audit that raises or an abort behind the commit answers with an error and leaves the route stored |
| RouteRaces.TimedOutRequestStoresRoute | app/middlewares/timeout.py:28-53 | for every such payload: a request whose caller got a timeout and that goes on stores the route |
| RouteRaces.Races | app/services/query_engine/dynamic_routes.py:136-168 | for all payloads: two updates that load the same row before either writes leave the second merged over the first |
| RouteRaces.RaceBreaksIffUnfit | app/services/query_engine/dynamic_routes.py:157-168 | such a race breaks a property exactly when the second update does not fit the row of the first |
| RouteRaces.RaceLosesContract | app/services/query_engine/dynamic_routes.py:157-168 | for every SQL library and all payloads that pass: an update of the SQL and one that keeps it and changes the definitions to other names race to a row whose definitions do not match its SQL |
| RouteRaces.RaceReservesName | app/schemas/dynamic_route.py:84-92 | for every SQL library and all payloads that pass: an update that paginates and one that defines a reserved name race to a paginated route with that name |
| RouteRaces.ContractRaceExists | app/services/query_engine/dynamic_routes.py:157-168 | the first race with `SELECT :a`, `SELECT :b` and `SELECT :a` of another type |
| RouteRaces.ReservedRaceExists | app/schemas/dynamic_route.py:84-92 | the second race with `SELECT :a`, the same paginated, and `SELECT :page` |
| RouteExecution.BoundKeysAreExact | app/services/query_engine/dynamic_routes.py:190-243 | whatever is stored and requested, each statement sent wraps a text without a listed node, and its bound keys are the placeholders of the text sent exactly when the parser reads the count or page wrapper as adding none but the reserved two |
| RouteExecution.PagingLeavesTheRest | app/services/query_engine/dynamic_routes.py:350-356 | taking out page and page_size leaves every other parameter as supplied |
| RouteExecution.EveryDefinitionGetsItsValue | app/services/query_engine/dynamic_routes.py:201-243 | on a row without reserved names every call binds each definition to its own value, of its type or null when omitted |
| RouteExecution.StoredRoutesBindTheirValues | app/schemas/dynamic_route.py:84-92 | over every interleaving in which each committed update kept the reserved names free, every call of every stored route does so, and no page query has a definition with a reserved name |
| RouteExecution.ExecutionEscapesExactly | app/services/query_engine/dynamic_routes.py:201-212 | over any stored row and request an OverflowError leaves the execution exactly when the SQL validates and the first stored definition that is not accepted overflows |
| RouteExecution.StoredRoutesNeverEscape | app/services/query_engine/dynamic_routes.py:320-332 | over every interleaving none leaves the execution of a stored route |
| RouteExecution.WindowsAreInRange | app/services/query_engine/dynamic_routes.py:360-382 | a page query has page >= 1, 1 <= size <= 1000 and the offset of that page |
| RouteExecution.PaginationIsExact | app/services/query_engine/dynamic_routes.py:335-382 | page and size are the numbers of their one text, from 1 on and up to 1000, or 1 and 100 when omitted; otherwise the page is reported before the size |
| RouteExecution.PreparationIsExact | app/services/query_engine/dynamic_routes.py:201-213 | a request is prepared exactly when the stored SQL validates with the names of the stored definitions, these are accepted, the pagination is in range, the other parameters bind and the client is configured, and then to exactly this text, values and page |
| RouteExecution.DataRouteAnswers | app/services/query_engine/dynamic_routes.py:258-308 | a data route sends its text once and answers the served rows: without a PII column as they are and with no misses, and else with the cells of that column mapped by the token-length rule or null, all other cells as served, and the misses in order; otherwise the error of the client or of the missing mapper |
| RouteExecution.PagedRouteAnswers | app/services/query_engine/dynamic_routes.py:215-256 | a paginated route counts first, selects its window behind a valid total only, and answers the rows of the window in the same way |
| RouteExecution.PageTextBindsItsWindow | app/services/query_engine/dynamic_routes.py:227-240 | the select limits its rows to the value bound to one name, the page size, behind the offset bound to the other; all other values stay as bound |
| RouteExecution.TotalIsFirstMatch | app/services/query_engine/dynamic_routes.py:385-392 | the total is the value of the first column that is called total in any case |
| RouteExecution.LookupIsExact | app/repositories/sqlalchemy/dynamic_route.py:18-29 | with unique keys the lookup finds exactly the row of this prefix and path |
| RouteExecution.ConsistentRowRunsIffStable | app/services/query_engine/dynamic_routes.py:201-206 | a consistent row revalidates to itself exactly when the printer is stable on it, and then is never refused and sends the stored text |
| RouteExecution.RegularUserRunsOwnRoutes | app/api/v1/endpoints/dynamic_execute.py:21-35 | a regular user is turned away exactly from foreign prefixes, whatever the table holds |
| RouteExecution.AllowedRequestsRun | app/api/v1/endpoints/dynamic_execute.py:21-35 | whoever is let in gets the answer of the stored row or learns that there is none; an administrator always is |
| RouteExecution.StoredRoutesExecute | app/services/query_engine/dynamic_routes.py:190-263 | over every interleaving in which each committed update fitted its row, each stored route is found by its key, never refused for its SQL or definitions, and sends the stored text with the declared parameters |
| RouteExecution.TotalPagesIsCeiling | app/services/query_engine/dynamic_routes.py:246 | total_pages is the least number of pages with room for all rows |
| RouteExecution.PagesPartition | app/services/query_engine/dynamic_routes.py:231-246 | pages 1 to total_pages put together are all rows; all but the last are full, the last is not empty, later ones are |
| RouteExecution.PageAnswer | app/services/query_engine/dynamic_routes.py:215-256 | the answer to the request for page n holds the rows of that page as `DataRouteAnswers` says, the total and the page count |
| RouteExecution.AllPagesAreTheWholeResult | app/services/query_engine/dynamic_routes.py:215-256 | the answers for all pages put together are the whole result as `DataRouteAnswers` says: each cell of the PII column mapped or null, all other cells as served, the misses of all rows in order |

## Left out

- SQL parsing, printing and the driver: parameters of the model. `text()` of SQLAlchemy finds the binds of a statement; the model compares bound keys with the placeholders that the parser finds in the text sent.
- `get_many` beyond its chunking: one lookup per chunk, nothing that spans chunks.
- MapRowFields: the inner loop of the mapper is a method of its own; the source nests it.
- RoundsRefineSnapshot: rows arrive between rounds only; `LoopIsRun` is about rounds in which they arrive at any time, `PassExtendsPrefix` about one such pass, `CacheAgreesWithTable` and `RecoverableIffOnTrack` about whole runs of that kind.
- AllPagesAreTheWholeResult: count and page come from separate statements; that they see the same rows is a hypothesis (`Serves`), and the mapping cache does not change in between.
- CloseIsFinal: one direction; `QuiescentDisposal` has both directions for all runs.
- ShortPageSkipsRows: one family of runs; the condition for all runs is in `CacheAgreesWithTable`.
- WhoClears: a thread that timed out and still uses a retired engine is allowed, as in the source; no statement says that its query is harmless.
- StoredRoutesExecute: that the printer is stable on the stored text is a hypothesis (`Stable`); `ConsistentRowRunsIffStable` has both directions.
- The outcome of the query of a lab test: once its parameters are cast, it may succeed or fail. A request with a lab test is aborted or failed alike whatever the cause.
- The order in which a JSON column returns its keys, which decides which of several bad parameters is reported.
- The collision check against static GET endpoints, audit contents, timestamps and actor columns of a route.
- Definitions put into the JSON column by other means: a row that does not load is one error, whatever the reason.
- Sessions that never end: a session has finitely many answers and fails when they run out.
- Wall-clock time, sleeps and timeouts: nondeterministic steps. Logging and metrics.
- `power_bi_query.py`, `users_query.py`, user and auth services, JWT, migrations: text builders and thin wrappers that would only add easy members.
