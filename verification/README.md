# Verified model of the Vivac API backend

This project models the protocols of the Vivac API (FastAPI, PostgreSQL, Redis) in Dafny and
proves properties of them for all inputs, all runs and all reachable states.

- **Versioned read-through cache** — `RedisKeys`, `RedisStore`, `ReadThrough` (the client and
  the endpoints as code), `CacheProtocol` (any number of readers and writers interleaved, with
  Redis faults), `CacheFreshness` (from which states on answers are fresh), `ListKey` and
  `Explore` (what a list or map cache key stands for, and what the list and map endpoints
  promise each other).
- **Request limits** — `Limits`: the body-size guard and the fixed-window limiter over whole
  request traces.
- **Cursor pagination** — `Keyset` (the pattern, on tables that change between fetches),
  `Region`, `Spots` (list, search, count, map) and `Messages`.
- **Bulk jobs** — `Batch` (savepoints as a stack of snapshots), `SpotsBulk` and
  `BusinessInfoBulk` (the handlers), `JobRows` and `JobWorker` (the worker's code),
  `BulkTables` and `BatchEffects` (rows as statements, with what they have read), `JobQueue`
  (workers, crashes and clean-ups interleaved), `JobSerial`, `InfoRaces` and `JobCleanUp` (when
  batches are serial and statuses final; `JobRuns` builds runs) and `BulkRows` (the handlers
  refine the batches of the interleaved system).
- **Work assignment and trust decay** — `Assignment`, `TrustDecay`.
- **Audit log, groups with invites, image registration** — `AuditLog`, `GroupInvites`,
  `ImageSaga`.

Code that changes state in place is a class whose methods are proved against specification
functions; what the program promises is then proved about those functions and about runs of
transition systems built from them. `Wrappers` and `Text` hold the option type and lemmas about
strings with separators.

Modelling conventions:

- A Redis key with an expiry counts as expired from its deadline on. Counters are unbounded.
- The database's uid order is any strict total order. Cursor codecs are an injective
  print/parse pair; the bbox fingerprint, the SHA-256 digest, full-text scores and matches are
  functions of their arguments; scores and ratings are reals.
- Times are integers. A run's clock is constrained only where a lemma says so.
- Rows that the database refuses for reasons outside the model are an arbitrary predicate, so
  every statement about bulk jobs holds whatever is refused.
- A worker's transaction holds the lock of each row it has written until it commits or dies. A
  spot row is one statement; an info row is a SELECT without a lock and later an UPDATE of the
  columns that differ from what the SELECT saw, or an INSERT.

Where the code does not meet what its comments promise, the code is modelled as it is, a lemma
exhibits the failure, and the exact condition under which the promise holds is proved:

- a bulk job bumps versions before it commits: `CacheProtocol.EarlyBumpLeavesStaleEntry`, exactly
  `CacheFreshness.FreshIffSettledNow`;
- business infos are read without a lock: `InfoRaces.NeitherOrder`, exactly
  `JobSerial.SerialIffUndisturbed`;
- a start-up clean-up can hit a job that is being run: `JobCleanUp.CleanUpInMidJobIsOverwritten`,
  exactly `JobCleanUp.CleanUpIsFinalIff`;
- an empty category code is written like no category, and a code with a comma like two codes:
  `Explore.EmptyCodeIsServedForNone` and `Explore.CommaCodeIsServedForTwo`, exactly
  `ListKey.KeyIsOwnIffOneWord` and `Explore.SameKeySameRowsIff`;
- history entries are ordered by the start of their transaction:
  `AuditLog.OverlappingTransactionsMislead`, exactly `AuditLog.HistoryIsReverseIffInOrder` and
  `AuditLog.UndoRestoresIffInOrder`;
- one decay run can touch a spot twice: exactly `TrustDecay.TwoUpdatesDecayOnceIffClockIsPastCutoff`;
- an acceptance and a signup are two commits: `GroupInvites.CutShortAcceptanceAdmitsAgain`,
  exactly `GroupInvites.AdmissionIsLastIffUncut`;
- an image key can be registered twice, and the undo assumes that an insert that raised did not
  commit: exactly `ImageSaga.AttemptKeepsPairingIff`.

Values are not escaped in cache keys either. `ListKey.AmpersandsCollide` shows a list and a map
request with one key; what the statements about keys say of a request holds if its own values
contain no ampersand, against any other request, and is one-way in that respect.

## Model

| member | source | states |
|---|---|---|
| RedisKeys.EntryKeyInjective | vivacapi/core/cache.py:101-125 | no two (resource, version) pairs share an entry key, whatever characters uids contain |
| RedisKeys.VersionKeyInjective | vivacapi/core/cache.py:24-110 | version keys of different resources differ |
| RedisKeys.KeyRangesDisjoint | vivacapi/core/limits.py:60-66 | version counters, cached bodies and limiter counters never share a key |
| RedisStore.Client.GetCached | vivacapi/core/cache.py:38-45 | answers exactly the live body under the key, and nothing when Redis is down |
| RedisStore.Client.SetCached | vivacapi/core/cache.py:48-54 | the body is readable for exactly the TTL; no other key changes; a failure changes nothing |
| RedisStore.Client.IncrWithTtl | vivacapi/core/cache.py:57-72 | returns the count after the increment; only the first increment of a window sets its end |
| RedisStore.Client.BumpSpotsVersion | vivacapi/core/cache.py:86-98 | the list version reads one more at every later time, no other key changes |
| RedisStore.Client.InvalidateSpotDetail | vivacapi/core/cache.py:128-141 | the spot's version reads one more at every later time, no other key changes |
| RedisStore.Client.MakeSpotsListKey | vivacapi/core/cache.py:101-105 | the key is stamped with the current list version, 0 when Redis is down |
| RedisStore.Client.SpotDetailKey | vivacapi/core/cache.py:123-125 | the key is stamped with the spot's current version, 0 when Redis is down |
| ReadThrough.SpotPages.GetSpot | vivacapi/api/v1/endpoints/explore.py:210-233 | the answer is the committed page, from the cache or not; a page that was not cached is then filed for 120 seconds under the version read first, nothing else is written, and the cache stays free of entries that could later answer anything else; the calls are, in order, the steps of a request of the cache protocol |
| ReadThrough.SpotPages.ChangeSpot | vivacapi/crud/spot.py:568-598 | the list version and the version of the spot read one more at every later time if their bump arrives, and no other version changes; the cache is consistent with the new page if and only if the bump of the spot arrives or the current version holds nothing else; the calls are, in order, the steps of a writer of the cache protocol |
| ReadThrough.WriterLeavesNoStaleAnswer | vivacapi/crud/spot.py:568-598 | in every run in which a writer takes these steps, others in between, requests for the spot or for any list that start after its bumps see its commit |
| CacheProtocol.StepKeepsInv | vivacapi/core/cache.py:128-141 | every step of readers and writers keeps: an entry stamped v rests on reads that saw all commits behind the first v bumps |
| CacheProtocol.ReadAfterInvalidateSeesCommit | vivacapi/core/cache.py:128-141 | in every interleaving with Redis up, a request that starts after a writer's bump is answered only from reads that saw its commit, even if slow older readers write back later |
| CacheProtocol.SettledReadIsCurrent | vivacapi/crud/spot.py:568-598 | a request sees the commits of all writers that owe no bump when it starts |
| CacheProtocol.CachedAnswerAge | vivacapi/api/v1/endpoints/explore.py:217-233 | on every run, with bumps lost, early or missing, a cached detail page is younger than 120 seconds, and a cached list younger than 30, plus its producer's time between read and write-back |
| CacheProtocol.EarlyBumpLeavesStaleEntry | vivacapi/workers/spots_bulk.py:75-78 | a reachable run in which a bump before the commit lets a reader file the old row under the new version, and a later request gets it |
| CacheFreshness.FreshIffSettledNow | vivacapi/core/cache.py:128-141 | from any state with any kind of writers, later requests see a commit already made in every continuation if and only if under the current version no live entry holds an older read and no reader is still reading with one |
| CacheFreshness.BumpSettlesNow | vivacapi/core/cache.py:86-98 | a bump after the commit brings about that condition, whatever went before |
| ListKey.KeyIdentifiesQuery | vivacapi/core/cache.py:101-105 | a request whose values have no ampersand shares its key string with exactly the requests, whatever they contain, that agree on all else and write their categories alike; without commas these are the same categories, or none and one empty code |
| ListKey.KeyIsOwnIffOneWord | vivacapi/core/cache.py:32-35 | such a request has a key string of its own among all requests if and only if it has one category code, which is not empty and does not split at a comma into two texts in order |
| ListKey.CommasCollide | vivacapi/core/cache.py:32-34 | a code that splits at a comma in order shares the key string of the two codes |
| ListKey.AmpersandsCollide | vivacapi/core/cache.py:32-35 | with an ampersand in a value, a list request and a map request can share a key |
| ListKey.SortedSorts | vivacapi/core/cache.py:32-34 | the normalised category list is sorted and has the same codes |
| Explore.SameKeySameList | vivacapi/api/v1/endpoints/explore.py:76-136 | two list requests with one key, the one without an ampersand, get the same answer from the same table, errors included, if they name the same codes, as they must if the one has a key of its own |
| Explore.SameKeySameMap | vivacapi/api/v1/endpoints/explore.py:174-207 | the same for the map, and a map request never has the key of a list request |
| Explore.SameKeySameRowsIff | vivacapi/crud/spot.py:86-87 | two requests with one key select the same rows of every table if and only if they name the same codes or their other filters let no spot through |
| Explore.EmptyCodeIsServedForNone | vivacapi/api/v1/endpoints/explore.py:60-90 | `?category=` shares the key of a request without a category and selects nothing of a table without empty codes |
| Explore.CommaCodeIsServedForTwo | vivacapi/api/v1/endpoints/explore.py:60-90 | `?category=cafe,food` shares the key of `?category=cafe&category=food` and selects nothing of a table without that code |
| Explore.ListEndpointReturnsAskedFor | vivacapi/api/v1/endpoints/explore.py:60-136 | on a table at rest, paging through the list endpoint returns exactly the spots that the parameters ask for, each once, with or without a search, and every answer's total is their number, counted up to 10,000 |
| Explore.MapEndpointShowsReturned | vivacapi/api/v1/endpoints/explore.py:165-207 | the map endpoint with the same parameters shows exactly those of the returned spots that have coordinates, up to its limit, and says when there are more |
| Limits.Request.EnforceSpotsBulkSize | vivacapi/core/limits.py:19-39 | accepts exactly bodies within 5 MiB whose declared length is, puts the whole body back, and stops reading at the first chunk that exceeds |
| Limits.RateLimit.Admit | vivacapi/core/limits.py:56-71 | one counter step per request of a known actor, admitted while the count is at most the limit; the counter of every other user, address or scope stays; open when Redis is down or the actor has no address |
| Limits.CountersAreSeparate | vivacapi/core/limits.py:60-66 | two scopes, two users, two addresses, or a user and an address never share a counter, whatever characters names contain |
| Limits.FewerThanKPlusOneLimits | vivacapi/core/limits.py:42-73 | any half-open interval of length k windows admits strictly fewer than (k+1) limits, for every trace |
| Limits.BoundIsTight | vivacapi/core/limits.py:48-49 | for every limit and every k >= 1 some trace is admitted (k+1) * times - 1 times within k window lengths |
| Limits.RefusedRequestsAreInert | vivacapi/core/cache.py:57-72 | without its refused requests a trace leaves the same window end and the same admissions |
| Limits.RefusedOnlyUntilWindowEnds | vivacapi/core/limits.py:66-71 | a refused request has an earlier admitted one that opened its window less than a window length before, and at the window's end a request is admitted |
| Limits.ActorsAreIndependent | vivacapi/core/limits.py:57-66 | in every interleaving the counter of an actor in a scope depends on that actor's requests there alone |
| Keyset.WalkIsCompleteAndDuplicateFree | vivacapi/crud/spot.py:161-173 | while the table changes between fetches, the joined pages are strictly sorted, contain only keys seen at some fetch and every key present at all of them |
| Keyset.WalkAtRestIsExact | vivacapi/crud/spot.py:161-173 | on a fixed table the walk ends, is the sorted table, with every page but the last full and no empty last page |
| Region.BuildRawNamesByAbbr | vivacapi/core/region.py:41-45 | the loop leaves, for each abbreviation, itself and exactly the full names that shorten to it |
| Region.InverseIndexIsExactIffSettled | vivacapi/core/region.py:26-50 | a name is in the filter list of an abbreviation if and only if it shortens to it - for all names exactly when no abbreviation is the full name of something else |
| Region.LabelOfProvince | vivacapi/core/region.py:26-30 | the label of a province is the abbreviation listed for its name, else the name itself |
| Region.UnknownRegionSelectsNothing | vivacapi/core/region.py:48-50 | the list is empty exactly for values outside the whitelist |
| Region.SidoTableIsSettled | vivacapi/core/region.py:3-23 | the shipped name table meets the condition |
| Spots.RegionFilterSelectsLabel | vivacapi/crud/spot.py:88-97 | the region filter selects exactly the spots that are labelled with the region |
| Spots.ListCursorRoundTrip | vivacapi/crud/spot.py:161-172 | a list cursor is read back as the scope and uid it was written from |
| Spots.ListWalkUnderEdits | vivacapi/crud/spot.py:141-173 | under inserts, deletes and edits between pages no uid comes twice, and every uid that matched at each fetch comes |
| Spots.ListWalkAtRest | vivacapi/crud/spot.py:141-173 | at rest the joined list pages are the matching uids in order |
| Spots.ListShowsPublicSpots | vivacapi/crud/spot.py:62-106 | and these are, in ascending order, exactly the published spots that are not deleted, have coordinates where that is required, one of the categories, a name of the region, and lie in the bbox |
| Spots.UnknownRegionIsRefused | vivacapi/crud/spot.py:88-96 | list, search, count and map refuse a request for its region if and only if the region is given and not on the whitelist; an undecodable search cursor is refused |
| Spots.ListPagesThrough | vivacapi/crud/spot.py:141-173 | at rest a list walk exists and ends, each answer but the last one full |
| Spots.ForeignCursorIsRefused | vivacapi/crud/spot.py:107-125 | a list cursor is accepted if and only if it was issued for the same fingerprint |
| Spots.ForeignSearchCursorIsRefused | vivacapi/crud/spot.py:291-295 | the same for search cursors |
| Spots.ListReadsAnyColonFreeCursor | vivacapi/crud/spot.py:161-164 | the list takes any text without a colon, such as a search cursor, for a uid: accepted exactly when the request's fingerprint is empty |
| Spots.SearchWalkUnderEdits | vivacapi/crud/spot.py:266-317 | a row that matches at each fetch with the same score and rating is returned, wherever other rows move |
| Spots.SearchWalkHasNoDuplicates | vivacapi/crud/spot.py:266-317 | a row whose score and rating are the same whenever it matches is returned at most once |
| Spots.SearchWalkAtRest | vivacapi/crud/spot.py:266-317 | at rest the joined search pages are the matching rows in rank order |
| Spots.SearchRanksBestFirst | vivacapi/crud/spot.py:266-317 | and these are exactly the matching rows, of any two the one with the higher score first, then the higher rating, then the greater uid |
| Spots.SearchPagesThrough | vivacapi/crud/spot.py:266-317 | at rest a search walk exists and ends, each answer but the last one full |
| Spots.TotalIsWalkLength | vivacapi/crud/spot.py:176-199 | the total is the length of the complete list for a blank query, and of the complete search for any other, counted up to 10,000 and marked as capped beyond |
| Spots.MapShowsTheList | vivacapi/crud/spot.py:202-231 | without a search the map shows exactly the listed spots with coordinates, in list order, up to its limit, truncated exactly when there are more; with a bbox, all that are listed |
| Spots.MapShowsTheSearch | vivacapi/api/v1/endpoints/explore.py:170-200 | with a search the map shows exactly the found spots with coordinates, each once, up to its limit, truncated exactly when there are more; with a bbox, all that are found |
| Messages.MessageWalkUnderEdits | vivacapi/crud/message.py:42-69 | while messages are posted and deleted, each message shown at every fetch is returned, none twice, newest first across pages |
| Messages.MessageWalkAtRest | vivacapi/crud/message.py:42-69 | at rest the joined pages are the shown messages, newest first |
| Messages.HistoryShowsConversation | vivacapi/crud/message.py:42-69 | these are exactly the messages of the conversation that are not deleted, of any two the later one first, then the greater uid |
| Messages.BadCursorIsRefused | vivacapi/crud/message.py:17-24 | a request is refused if and only if its cursor is not empty and cannot be decoded |
| Messages.HistoryPagesThrough | vivacapi/crud/message.py:42-69 | at rest a walk from no cursor exists and ends, each answer but the last one full |
| SpotsBulk.SpotsBulkUpsertHandler | vivacapi/workers/spots_bulk.py:38-85 | savepoint depth unchanged; table untouched if a row failed or on dry run, else the fold of the row upserts; errors are exactly the failing rows in order; cache calls only after success, for every row that is new or has changed, and else only for rows whose key the batch had something to update for |
| SpotsBulk.InsertedRowStartsRaw | vivacapi/models/spot.py:113-134 | an inserted row has the given columns, and where they are not given starts as RAW, created and updated now |
| SpotsBulk.BatchKeepsKeys | vivacapi/workers/spots_bulk.py:18-35 | a batch keeps the key index exact, loses no row and keeps the uid of every key |
| SpotsBulk.LastWriteWins | vivacapi/workers/spots_bulk.py:18-35 | after a good keyed batch each column of each key holds its last non-None value, else the old value or the server default of a new row |
| SpotsBulk.OthersUntouched | vivacapi/workers/spots_bulk.py:18-35 | rows whose key the batch does not mention are unchanged |
| SpotsBulk.SameBatchTwice | vivacapi/workers/spots_bulk.py:18-35 | applying the same keyed batch again changes nothing |
| BusinessInfoBulk.BuildExternalIdMapping | vivacapi/workers/spot_business_info_bulk.py:21-33 | the mapping lists for each external id the uids of its rows, in order |
| BusinessInfoBulk.ResolveExternalIds | vivacapi/workers/spot_business_info_bulk.py:67-83 | an external id of the batch maps to one uid if and only if exactly one spot owns it, and then to that spot |
| BusinessInfoBulk.SpotBusinessInfoBulkUpsertHandler | vivacapi/workers/spot_business_info_bulk.py:56-108 | all or nothing as for spots; a row fails exactly when its id has not exactly one owner or the database refuses it |
| BusinessInfoBulk.LastWriteWins | vivacapi/workers/spot_business_info_bulk.py:36-53 | each column of each spot's info holds the last non-None value given through its external id, else the old one; nothing else changes |
| Batch.FailuresSettleOutcome | vivacapi/workers/spots_bulk.py:67-85 | no listed failure if and only if every row is good on the state left by the rows before, and then succeeded is n, else 0 |
| JobWorker.Database.ClaimNextJob | vivacapi/workers/job_worker.py:38-59 | claims an oldest PENDING job nobody has locked, or none when there is none |
| JobWorker.Database.CleanupOrphanedJobs | vivacapi/workers/job_worker.py:19-35 | exactly the RUNNING jobs become FAILED as orphaned, and are counted |
| JobWorker.Database.ProcessJob | vivacapi/workers/job_worker.py:62-87 | one commit for the handler's rows and the job's status and report |
| JobWorker.Database.RunWorkerCycle | vivacapi/workers/job_worker.py:90-109 | an oldest job is claimed and processed and no other job changes, or nothing changes |
| JobWorker.StatusTellsWhatWentIn | vivacapi/workers/job_worker.py:74-87 | after a clean success the tables are, in the view of the transition system, the batch applied in one go; after any other status they are as before |
| JobQueue.StepKeepsInv | vivacapi/workers/job_worker.py:19-109 | every step of workers, crashes and clean-ups keeps the invariant; what an open transaction has executed stays so on the current tables although others commit in between |
| JobQueue.AppliedIffCleanlySucceeded | vivacapi/workers/job_worker.py:62-87 | in every reachable state a bulk batch has been applied if and only if its job is SUCCEEDED with no failure and no dry run, and the tables are what the applied batches have executed, each with all its rows and once |
| JobQueue.OnlyHandledJobsSucceed | vivacapi/workers/job_worker.py:67-84 | over all runs only bulk jobs and dumps ever succeed; invalid payloads and types without a handler do not |
| JobQueue.DumpEndsAsItDid | vivacapi/workers/job_worker.py:74-87 | a dump's job succeeds exactly if the dump did, and no table changes |
| JobQueue.ClaimedAndRunAtMostOnce | vivacapi/workers/job_worker.py:38-59 | over all runs a job is claimed at most once and its handler runs at most once |
| JobQueue.NeverPendingAgain | vivacapi/workers/job_worker.py:19-109 | no job returns to PENDING and none disappears |
| BatchEffects.CommitIsBatchIff | vivacapi/workers/spot_business_info_bulk.py:41-53 | a commit is its batch in one go if and only if each external id still has one owner and the columns left out of its UPDATEs still hold what was read |
| JobSerial.SerialIffUndisturbed | vivacapi/workers/spot_business_info_bulk.py:41-53 | in every run the tables are always those of the applied batches in commit order, each in one go, if and only if every commit met that condition |
| JobSerial.SpotsAreSerial | vivacapi/workers/spots_bulk.py:18-35 | in every run the spots are those of the applied batches in commit order, each in one go |
| InfoRaces.OverlappingInfoBatches | vivacapi/workers/spot_business_info_bulk.py:41-53 | for any two batches of one info a reachable run in which both succeed and the later one overwrites only what differs from what it read |
| InfoRaces.NeitherOrder | vivacapi/workers/spot_business_info_bulk.py:41-53 | an instance in which the info ends as neither order of the batches gives it |
| JobCleanUp.TerminalJobsAreFinal | vivacapi/workers/job_worker.py:19-35 | in every run whose clean-ups find no worker past its claim, terminal jobs never change |
| JobCleanUp.CleanUpIsFinalIff | vivacapi/workers/job_worker.py:19-35 | what a clean-up leaves is final in every continuation without another one if and only if it found no worker past its claim |
| JobCleanUp.CleanUpInMidJobIsOverwritten | vivacapi/workers/job_worker.py:19-35 | a reachable run in which a job reported FAILED as orphaned becomes SUCCEEDED with its batch applied |
| BulkRows.SpotsHandlerRefinesBatch | vivacapi/workers/spots_bulk.py:51-66 | the spots handler's fold, for rows with and without a key, is the batch of the interleaved system in one go |
| BulkRows.InfosHandlerRefinesBatch | vivacapi/workers/spot_business_info_bulk.py:73-93 | run alone, so is the business-info handler's fold, and it leaves the spots alone |
| Assignment.SpotTable.AssignSpots | vivacapi/crud/spot.py:431-453 | alone, min(count, available) unassigned enriched spots go to the user and nothing else changes |
| Assignment.SpotTable.TransferSpotAssignments | vivacapi/crud/spot.py:516-540 | alone, min(count, held) enriched spots change hands and nothing else changes |
| Assignment.RunsAreExclusive | vivacapi/crud/spot.py:431-453 | in every interleaving concurrent transactions hold disjoint spots, each at most its count, unchanged until its commit |
| Assignment.LoadsAreConserved | vivacapi/crud/spot.py:516-540 | every holder's load, and the pool, change by exactly what committed transactions moved in minus out |
| Assignment.EachSpotIsAssignedOnce | vivacapi/crud/spot.py:431-453 | no spot is assigned from the pool twice over a run |
| TrustDecay.SpotTable.DecayStaleTrustTiers | vivacapi/crud/spot.py:459-499 | with the clock past the cutoff, each published spot with a tier and not verified since the cutoff, or never, goes one tier down or from tier 3 back to the queue, counts as verified now, and nothing else changes; the returned spots, whose pages are invalidated, are exactly those whose public view changes |
| TrustDecay.TwoUpdatesDecayOnceIffClockIsPastCutoff | vivacapi/crud/spot.py:472-491 | the two statements never hit one spot twice, and equal the one-pass decay, if and only if the database time is not before the cutoff |
| TrustDecay.TouchesAreSpaced | vivacapi/crud/spot.py:465-470 | over every run two touches of one spot are more than the threshold apart |
| TrustDecay.FewTouchesInASpan | vivacapi/crud/spot.py:465-470 | a span of length L has at most L / threshold + 1 touches |
| TrustDecay.TierCountsTouches | vivacapi/crud/spot.py:480-491 | with no other edits the tier is min(3, start + touches) |
| AuditLog.ChangesAreInvertible | vivacapi/crud/audit.py:24-34 | the listed changes turn the old row into the new and back, up to updated_at |
| AuditLog.ChangesAreExact | vivacapi/crud/audit.py:24-34 | they list exactly the fields that differ; the reverse write has the reverse changes |
| AuditLog.LogsAreChains | alembic/versions/b7f3a1c9d2e4_add_audit_log_triggers.py:43-70 | in every run a row's entries link its first state to its current one |
| AuditLog.LogIsWrites | alembic/versions/b7f3a1c9d2e4_add_audit_log_triggers.py:43-70 | in every run the log is its writes in order, each with the row before and after, the user and the transaction time; INSERT exactly where there was no row, DELETE exactly where none is left |
| AuditLog.HistoryIsReverseIffInOrder | vivacapi/crud/audit.py:37-53 | the history is the row's writes, last first, if and only if no later write carries an earlier transaction time |
| AuditLog.HistoryInOrder | vivacapi/crud/audit.py:37-53 | then a limited history is the last writes, last first |
| AuditLog.HistoryTellsLastWrites | vivacapi/crud/audit.py:55-63 | with the action, user, time and changes of each |
| AuditLog.UndoingHistoryRestores | vivacapi/crud/audit.py:37-63 | then undoing the history from the current row yields the row before its oldest entry, for any limit |
| AuditLog.ReplayingHistoryRebuilds | vivacapi/crud/audit.py:37-63 | then replaying the full history yields the current row |
| AuditLog.UndoRestoresIffInOrder | vivacapi/crud/audit.py:37-63 | for given transaction times of a row's writes, undoing the history restores the first row whatever was written, and replaying it rebuilds the last, if and only if the times never go back |
| AuditLog.OverlappingTransactionsMislead | vivacapi/crud/audit.py:49-51 | a run with overlapping transactions whose history does not undo to the first row |
| GroupInvites.Database.CreateGroup | vivacapi/crud/spot_group.py:27-44 | the group has the given visibility, the creator is its only member and owner, everything else stays, and the invariant is kept |
| GroupInvites.Database.UpdateGroup | vivacapi/crud/spot_group.py:97-104 | the group has the new visibility and nothing else changes |
| GroupInvites.Database.CreateInvite | vivacapi/crud/invite.py:18-29 | a new pending invite that nobody has accepted, and nothing else changes |
| GroupInvites.Database.DeleteGroup | vivacapi/crud/spot_group.py:107-109 | no member and no invite of the group remains, all other memberships, invites and groups stay as they are, and the invariant is kept |
| GroupInvites.Database.AddMember | vivacapi/crud/spot_group.py:112-130 | succeeds if and only if the user is not a member yet; then there is exactly one membership more, with the role, and all others stay |
| GroupInvites.Database.UpdateMemberRole | vivacapi/crud/spot_group.py:155-168 | refused if and only if it would demote the only owner of the group; otherwise the member has the given role; nothing else changes |
| GroupInvites.Database.RemoveMember | vivacapi/crud/spot_group.py:171-180 | refused if and only if the member is the only owner of the group; otherwise the member is gone; nothing else changes |
| GroupInvites.Database.IsGroupInviteStillValid | vivacapi/crud/invite.py:37-62 | true exactly within 14 days, for an existing group that is not private and that the inviter owns now |
| GroupInvites.Database.AcceptInvite | vivacapi/crud/invite.py:65-90 | succeeds if and only if the invite is pending and still valid and the user is not a member; then there is one membership more, with the role of the invite, the invite is used up by the user and nothing else changes; an error changes nothing; the invariant is kept |
| GroupInvites.Database.ConsumeInviteForSignup | vivacapi/crud/invite.py:93-122 | a membership is added if and only if the invite would be acceptable, and then just that one and the invite used up; a pending invite records the referral even when it is no longer valid; an unknown or used invite and an error change nothing; the invariant is kept |
| GroupInvites.RunKeepsInv | vivacapi/crud/spot_group.py:142-180 | over every run each group keeps an owner, members belong to existing groups and referral links stay pending |
| GroupInvites.InvitesAdmitOnce | vivacapi/crud/invite.py:65-122 | over every run an admission that is not cut short is the last through its invite, whatever else is cut short |
| GroupInvites.AdmissionIsLastIffUncut | vivacapi/crud/invite.py:77-122 | from any state an admission is the last through its invite in every continuation if and only if it was not cut short between its two commits |
| GroupInvites.CutShortAcceptanceAdmitsAgain | vivacapi/crud/invite.py:77-122 | a run from the empty database in which an acceptance, or a signup, dies between its two commits and the invite admits a second user |
| GroupInvites.CutShortKeepsMembership | vivacapi/crud/invite.py:77-122 | what an operation that dies between its commits leaves: the membership, after a signup the referral, and the invite as it was |
| ImageSaga.PatternAcceptsIssuedKeys | vivacapi/api/v1/endpoints/internal_spot_images.py:50-54 | the pattern of a spot accepts exactly the keys issued for it and captures the name |
| ImageSaga.PresignedKeysAreAccepted | vivacapi/api/v1/endpoints/internal_spot_images.py:92-98 | every key of 22 letters or digits with an image extension under the pending prefix of the spot is accepted |
| ImageSaga.AcceptedKeysArePresigned | vivacapi/api/v1/endpoints/internal_spot_images.py:50-54 | and no other |
| ImageSaga.KeysAreSeparate | vivacapi/api/v1/endpoints/internal_spot_images.py:97-171 | keys of different spots or names never meet, and pending keys are never final ones |
| ImageSaga.ImageService.RegisterImage | vivacapi/api/v1/endpoints/internal_spot_images.py:135-207 | succeeds if and only if the spot exists, the key was issued for it, it has fewer than 20 active images, the object is there and within 10 MiB, and every call works; then the object has moved from the pending to its final key with a row of that key; other rows and pending objects stay; an orderly call keeps objects and rows one to one, whatever fails |
| ImageSaga.AttemptKeepsPairingIff | vivacapi/api/v1/endpoints/internal_spot_images.py:171-199 | an attempt keeps final objects and image rows one to one if and only if its calls and the key's state allow it |
| ImageSaga.FailedAttemptLeavesNoTrace | vivacapi/api/v1/endpoints/internal_spot_images.py:174-197 | a copy or insert that fails without effect leaves the state as it was, and a retry then registers the image |
| ImageSaga.PendingObjectStays | vivacapi/api/v1/endpoints/internal_spot_images.py:174-199 | whatever fails, the pending object is lost only if it was oversized or the image has its row and final object |
| ImageSaga.RunKeepsPairing | vivacapi/api/v1/endpoints/internal_spot_images.py:135-199 | over every run of orderly registrations, whatever fails, final objects and rows stay one to one |
| ImageSaga.ActiveImagesAreBounded | vivacapi/api/v1/endpoints/internal_spot_images.py:145-150 | over every run no spot has more than 20 active images |

## Left out

- CacheProtocol.ReadAfterInvalidateSeesCommit: assumes that Redis is up and no version key is lost; without that only `CachedAnswerAge` holds. Freshness is not claimed for bulk upserts and `delete_field_option`, which do not bump after their commit, beyond `CacheFreshness.FreshIffSettledNow`, nor for lists after reviews change a rating.
- ReadThrough.SpotPages.GetSpot: one call at a time, on a cache that only commit-then-bump writers have changed; `CacheProtocol` has the interleavings, for the same steps.
- JobQueue.AppliedIffCleanlySucceeded: a crash is process death; cancellation of a running worker, whose `finally` still commits, is not modelled. A bulk batch has at least one row, as the request schema demands. Cache calls of the handler are taken not to raise.
- JobSerial.SerialIffUndisturbed: each SELECT of an info row is taken to see the row as committed or as its own transaction wrote it; objects that the session might keep from an earlier SELECT, and the columns uid, created_at and updated_at of infos, are not modelled. Only bulk jobs write the two tables.
- Assignment.LoadsAreConserved: interleaves assignments and transfers only; `assign_spots_bulk` overwrites holders on request and is not part of the run.
- GroupInvites.InvitesAdmitOnce: operations run one after the other, possibly cut short; the code takes no locks, so overlapping requests are not covered.
- ImageSaga.ActiveImagesAreBounded: registrations run one after the other, for the same reason.
- ImageSaga.RunKeepsPairing: needs that a call that raised did not do its work, that undos work and that no key is registered twice; `AttemptKeepsPairingIff` states the exact condition of one attempt.
- Spots.ForeignCursorIsRefused: bboxes with equal fingerprints (the first 12 hex digits of a digest of six-decimal values) are not told apart. What the search makes of a list cursor depends on the base64 and JSON decoders and is not stated.
- Limits.BoundIsTight: time counts in integer units, and a window is at least two of them long.
- Database uniqueness and check constraints other than those named, audit actors' display names, and JSON equality across types (1 against true) are not modelled.
- Deadlocks between bulk jobs that lock rows in different orders appear only as rows that fail; which transaction the database picks is not modelled.
- Authentication, Google login, admin lists, statistics, reviews, conversations, presigning, database dumps, Slack and WebSocket transport: input/output or simple reads and writes.
