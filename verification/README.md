# Proximity service: dual-store consistency core

This project models the core of a proximity ("nearby businesses") service.
The service keeps every business in two stores:

- the primary store, a relational table of business records keyed by id;
- the geo-index, one Redis GEO key that maps each business id to a
  (longitude, latitude) point and answers radius queries.

The primary store is the authority. The geo-index is a best-effort mirror
that may go stale and is repaired by two batch jobs.

The model covers:

- the record lifecycle (`BusinessService`): create, read, update, delete, and
  the retried index writes with their recovery handlers;
- bulk seeding (`BusinessSeedService.seed`);
- the proximity search join (`NearbySearchService.searchNearby`): radius hits,
  one batch hydration from the primary store, orphan hits dropped;
- the nearby-search endpoint's defaults and its ordered parameter checks
  (`NearbySearchController`);
- the closed list of categories and `Category.fromValue`;
- the two repair jobs (`SyncBatchService`): `fullSync` (wipe and rebuild in
  pages of 500) and `consistencyCheck` (re-add missing ids, remove orphans),
  both guarded by one single-flight flag.

Both stores are immutable maps (`Domain.PrimaryStore`, `Domain.GeoIndex`).
Each lifecycle operation returns its answer together with the list of store
writes it issued, in call order (`Domain.Effect`). `Domain.ApplyAll` gives the
stores after those writes, so lemmas can state both the order of the writes
and their net effect.

Several things the Java code gets from its environment become parameters:

- the fresh UUID of a new record is a parameter;
- the radius search is an oracle (`NearbySearch.GeoSearch`);
- each attempt of a retried write is answered by an oracle
  (`nat -> Retry.Attempt`);
- which repository calls throw during a batch run is a `SyncBatch.Faults`
  value;
- the `running` flag is an input and an output of each job.

Files:

| file | module | models |
|---|---|---|
| common.dfy | `Common` | `Option`, `Result` |
| domain.dfy | `Domain` | records, the two stores, store writes and their semantics |
| categories.dfy | `Categories` | `Category` and `fromValue` |
| retry.dfy | `Retry` | the retry policy of `syncGeoAdd`/`syncGeoRemove` |
| business_service.dfy | `BusinessService` | create, getById, update, delete, retried index writes, recovery |
| business_seed.dfy | `BusinessSeed` | `seed` |
| nearby_search.dfy | `NearbySearch` | `searchNearby` |
| search_controller.dfy | `NearbySearchController` | parameter defaults and `validateParameters` |
| sync_batch.dfy | `SyncBatch` | `fullSync`, `consistencyCheck`, the running flag, paging |

Three behaviours of the code are worth stating plainly:

- **Back-off.** `syncGeoAdd` and `syncGeoRemove` make at most three
  attempts, waiting 1000 ms and then 2000 ms
  (`service/BusinessService.java:86-90`).
- **Non-transient faults.** A fault other than a Redis connection failure or a
  query timeout has no `@Recover` handler, so it escapes to the caller
  (`service/BusinessService.java:104-126`).
- **No limit.** `searchNearby` takes no limit and returns every hit that has a
  record.

`BusinessService.update` calls an `update` method on the record that returns
whether the coordinates changed. `Business.java` declares no such method, so
it is not part of this model. The model takes it to overwrite
every mutable field and to report a change exactly when the new latitude or
longitude differs from the stored one (`BusinessService.Revised`,
`BusinessService.CoordinatesChanged`).

## Model

All source paths are under `src/main/java/com/proximityservice/`, written out in full in each row.

| member | source | states |
|---|---|---|
| Categories.FromValue | src/main/java/com/proximityservice/domain/Category.java:28-36 | a string is accepted exactly when some constant carries it, and then the constant found carries that very string; otherwise the error is the "Invalid category" message naming the string |
| Categories.Lookup | src/main/java/com/proximityservice/domain/Category.java:29-31 | the stream search finds a constant exactly when the string is a category value, and the constant it finds has that value |
| Categories.FindFirst | src/main/java/com/proximityservice/domain/Category.java:29-31 | the first match is a listed constant with the given value; no match means no listed constant has that value |
| Categories.InvalidMessage | src/main/java/com/proximityservice/domain/Category.java:32-35 | the argument error's message begins with "Invalid category" |
| Categories.ValuesDistinct | src/main/java/com/proximityservice/domain/Category.java:7-16 | two constants with the same value are the same constant |
| Categories.AllDeclared | src/main/java/com/proximityservice/domain/Category.java:7-16 | `values()` has ten entries, no repeats, and every constant is among them |
| Categories.AllowedValuesMatch | src/main/java/com/proximityservice/domain/Category.java:34 | the allowed values quoted in the error are the constants' values, in declaration order |
| Categories.AcceptedAreAllowed | src/main/java/com/proximityservice/domain/Category.java:28-35 | a string is accepted exactly when it is one of the ten allowed values |
| Categories.RoundTrip | src/main/java/com/proximityservice/domain/Category.java:24-31 | looking up a constant's value gives that constant back |
| Categories.RejectsNonLowerCaseStart | src/main/java/com/proximityservice/domain/Category.java:30 | a string that is empty or does not start with a lower-case letter is rejected |
| Categories.ExactMatchOnly | src/main/java/com/proximityservice/domain/Category.java:30 | "cafe" is accepted while "Cafe", " cafe" and "CAFE" are rejected: matching neither folds case nor trims |
| Retry.RunFrom | src/main/java/com/proximityservice/service/BusinessService.java:86-90 | from attempt k on: the run stops at the first success, at the first non-retryable fault, or after attempt 3; every earlier attempt failed retryably; the waits follow the back-off |
| Retry.Execute | src/main/java/com/proximityservice/service/BusinessService.java:86-90 | one to three attempts; every attempt but the last failed with a connection failure or timeout; completed exactly when the last attempt succeeded; recovered only after three attempts; rethrown exactly when the last fault is not retryable; waits are a prefix of [1000, 2000] |
| Retry.TransientFaultsNeverEscape | src/main/java/com/proximityservice/service/BusinessService.java:86-126 | when no attempt raises a non-retryable fault, the call never throws |
| Retry.FirstSuccessIsFinal | src/main/java/com/proximityservice/service/BusinessService.java:86-93 | a first attempt that succeeds is the only attempt, with no wait |
| Retry.ExhaustionRecovers | src/main/java/com/proximityservice/service/BusinessService.java:86-126 | three transient faults in a row give exactly three attempts, waits of 1000 and 2000 ms, and recovery with the last fault |
| BusinessService.CheckCategory | src/main/java/com/proximityservice/service/BusinessService.java:30 | the category check passes exactly for a category value, otherwise yields the invalid-category error with the `fromValue` message |
| BusinessService.Create | src/main/java/com/proximityservice/service/BusinessService.java:28-44 | succeeds exactly for a valid category; a rejection writes nothing; a success returns a record under the fresh id with every requested field, written as a save followed by an index add of that id at (longitude, latitude) |
| BusinessService.GetById | src/main/java/com/proximityservice/service/BusinessService.java:46-50 | found exactly when the id is stored, returning the stored record; otherwise not-found for that id |
| BusinessService.Update | src/main/java/com/proximityservice/service/BusinessService.java:52-75 | a bad category is rejected before the lookup, with no writes; an unknown id is not-found, with no writes; otherwise the record keeps its id and takes every requested field, and the index is written (remove, then add at the new point) exactly when the coordinates changed |
| BusinessService.Delete | src/main/java/com/proximityservice/service/BusinessService.java:77-84 | an unknown id is not-found with no writes; otherwise the row is deleted before the index member is removed |
| BusinessService.CreateEffect | src/main/java/com/proximityservice/service/BusinessService.java:41-42 | after a create, the table holds the new record under the fresh id and the index holds that id at the requested point; nothing else changes |
| BusinessService.CreateRejectedWritesNothing | src/main/java/com/proximityservice/service/BusinessService.java:30 | a create with an invalid category leaves both stores as they were |
| BusinessService.CreateKeepsMirror | src/main/java/com/proximityservice/service/BusinessService.java:28-44 | from mirrored stores and a fresh id, create keeps them mirrored and grows each key set by exactly that id |
| BusinessService.GetAfterCreate | src/main/java/com/proximityservice/service/BusinessService.java:41-49 | reading a created record back returns the record create returned |
| BusinessService.UpdateEffect | src/main/java/com/proximityservice/service/BusinessService.java:56-72 | after an update the table holds the revised record; the index moves the id to the new point if the coordinates changed and is untouched otherwise |
| BusinessService.UpdateWithoutMoveKeepsIndex | src/main/java/com/proximityservice/service/BusinessService.java:69-72 | an update that keeps the coordinates issues no index write at all, so the index is unchanged |
| BusinessService.UpdateMoveShiftsOnePoint | src/main/java/com/proximityservice/service/BusinessService.java:69-72 | a move keeps the index key set, puts the id at the new point and leaves every other member's point alone |
| BusinessService.UpdateKeepsMirror | src/main/java/com/proximityservice/service/BusinessService.java:52-75 | a successful update keeps mirrored stores mirrored |
| BusinessService.UpdateRejectedWritesNothing | src/main/java/com/proximityservice/service/BusinessService.java:54-57 | an update with a bad category or an unknown id fails and leaves both stores as they were |
| BusinessService.DeleteEffect | src/main/java/com/proximityservice/service/BusinessService.java:82-83 | after a delete the id is in neither store and nothing else changed |
| BusinessService.DeleteKeepsMirror | src/main/java/com/proximityservice/service/BusinessService.java:77-84 | delete keeps mirrored stores mirrored, found or not |
| BusinessService.SyncGeoAdd | src/main/java/com/proximityservice/service/BusinessService.java:86-93 | the member is added exactly when the retried call completes; otherwise the index is unchanged; a log record (id, point, fault) is written exactly when the retries ran out |
| BusinessService.SyncGeoRemove | src/main/java/com/proximityservice/service/BusinessService.java:95-102 | the member is removed exactly when the retried call completes; otherwise the index is unchanged; a log record (id, fault) is written exactly when the retries ran out |
| BusinessService.ExhaustedSyncIsLoggedNotThrown | src/main/java/com/proximityservice/service/BusinessService.java:104-126 | three transient faults end both retried writes after three attempts with the index unchanged and the failure logged, not thrown |
| BusinessSeed.SeedTraceOrder | src/main/java/com/proximityservice/service/BusinessSeedService.java:23-36 | request i contributes writes 2i and 2i+1: its record, saved verbatim with no category check, then its id added at its (longitude, latitude) |
| BusinessSeed.SeedStep | src/main/java/com/proximityservice/service/BusinessSeedService.java:33-34 | seeding one more request adds exactly its fresh id to each store's key set |
| BusinessSeed.Seed | src/main/java/com/proximityservice/service/BusinessSeedService.java:20-38 | the count is the number of requests; the writes are the per-request save-then-add pairs in order; each store's key set grows by exactly the fresh ids |
| NearbySearch.HydrationIsOneBatchLookup | src/main/java/com/proximityservice/service/NearbySearchService.java:36-42 | one batch lookup of the hit ids keeps exactly the hits that a lookup against the whole primary store would keep |
| NearbySearch.Kept | src/main/java/com/proximityservice/service/NearbySearchService.java:44-48 | the kept hits are never more than the hits, and each has a hydrated record |
| NearbySearch.SearchNearby | src/main/java/com/proximityservice/service/NearbySearchService.java:27-63 | no hits or a null answer gives total 0, no entries and the widen-the-radius hint; otherwise no message, total equals the entry count and is at most the hit count, the entries' (id, distance) pairs are the hits that have a record in geo order, and each entry carries its record's fields |
| NearbySearch.KeptIsSubsequence | src/main/java/com/proximityservice/service/NearbySearchService.java:44-60 | the kept hits are an order-preserving subsequence of the hits |
| NearbySearch.KeptStaysSorted | src/main/java/com/proximityservice/service/NearbySearchService.java:44-60 | filtering hits sorted by distance leaves them sorted |
| NearbySearch.KeptMembership | src/main/java/com/proximityservice/service/NearbySearchService.java:45-48 | an id survives the filter exactly when it was hit and has a record |
| NearbySearch.SearchKeepsGeoOrder | src/main/java/com/proximityservice/service/NearbySearchService.java:44-60 | the response's (id, distance) pairs are a subsequence of the geo hits |
| NearbySearch.SearchKeepsDistanceOrder | src/main/java/com/proximityservice/service/NearbySearchService.java:44-60 | ascending distance order of the hits carries over to the response |
| NearbySearch.SearchDropsExactlyOrphans | src/main/java/com/proximityservice/service/NearbySearchService.java:45-48 | an id is in the response exactly when the index returned it and the primary store holds its record |
| NearbySearch.SearchReturnsIndexedStoredRecords | src/main/java/com/proximityservice/service/NearbySearchService.java:28-48 | given a correct radius search, every entry is indexed, stored and within the radius |
| NearbySearch.SearchFindsEveryStoredMember | src/main/java/com/proximityservice/service/NearbySearchService.java:44-58 | given a correct radius search, every stored member within the radius is in the response, described by its record, with its distance from the centre |
| NearbySearch.CreateThenSearchFinds | src/main/java/com/proximityservice/service/BusinessService.java:41-42 | right after a create, a correct search whose radius covers the new point returns the new business with its fields and distance |
| NearbySearch.DeleteThenSearchNeverShows | src/main/java/com/proximityservice/service/NearbySearchService.java:45-48 | after a delete the business is never in a response, whatever the index still holds |
| NearbySearchController.Validate | src/main/java/com/proximityservice/controller/NearbySearchController.java:33-58 | accepted exactly when limit is in 1..50, latitude in -90..90, longitude in -180..180 and radius in 1..20000, bounds included; otherwise the first violation in the order limit, latitude, longitude, radius is reported with its message, range text and received value |
| NearbySearchController.ValidateReportsFirstViolation | src/main/java/com/proximityservice/controller/NearbySearchController.java:33-58 | the reported parameter is out of range and every parameter checked before it is in range; the request is accepted exactly when all four are in range |
| NearbySearchController.BoundsAreInclusive | src/main/java/com/proximityservice/controller/NearbySearchController.java:34-57 | both ends of every range are accepted, and one step beyond either end is rejected with that parameter |
| NearbySearchController.HandleNearby | src/main/java/com/proximityservice/controller/NearbySearchController.java:20-31 | an absent radius is 5000 and an absent limit 20; the request fails exactly when validation fails, with that error; otherwise the answer is the search over latitude, longitude and radius |
| NearbySearchController.DefaultsAreAccepted | src/main/java/com/proximityservice/controller/NearbySearchController.java:24-25 | with valid coordinates, a request naming neither radius nor limit is answered by a search with radius 5000 |
| NearbySearchController.LimitDoesNotShapeTheAnswer | src/main/java/com/proximityservice/controller/NearbySearchController.java:25-29 | any two valid limits give the same answer |
| SyncBatch.Reached | src/main/java/com/proximityservice/batch/SyncBatchService.java:44-59 | the scan delivers every record unless a page fetch throws, and then exactly the records of the pages before it |
| SyncBatch.RebuiltKeys | src/main/java/com/proximityservice/batch/SyncBatchService.java:42-59 | a rebuild indexes exactly the scanned ids whose add does not throw |
| SyncBatch.RebuiltAgreesWithTable | src/main/java/com/proximityservice/batch/SyncBatchService.java:47-50 | each rebuilt member sits at the location of the record the table holds for it |
| SyncBatch.FullSyncRestoresMirror | src/main/java/com/proximityservice/batch/SyncBatchService.java:42-59 | a fault-free full sync leaves the index an exact mirror of the table, so stale members are gone |
| SyncBatch.SyncPage | src/main/java/com/proximityservice/batch/SyncBatchService.java:48-57 | after one page the index and the error count are those of a rebuild over every record so far, and added is the records so far minus the errors |
| SyncBatch.FullSync | src/main/java/com/proximityservice/batch/SyncBatchService.java:30-80 | while running it throws "already running" and touches nothing; otherwise it clears the flag; a throwing wipe gives FAILED 0/0/0/1; otherwise the index is the rebuild of the records scanned before any failing page, totalProcessed is all records when not FAILED, added + errors = totalProcessed, removed = 0, SUCCESS exactly when errors = 0, and a failing page adds one error and gives FAILED |
| SyncBatch.ScanIds | src/main/java/com/proximityservice/batch/SyncBatchService.java:94-103 | the paged id scan yields the ids of all records, or nothing when a page fetch throws |
| SyncBatch.VisitMissing | src/main/java/com/proximityservice/batch/SyncBatchService.java:114-123 | a throwing lookup or add counts one error and changes nothing; a vanished record is skipped uncounted; otherwise the id is re-added at its record's location and counted |
| SyncBatch.RestoreLoop | src/main/java/com/proximityservice/batch/SyncBatchService.java:113-124 | over all missing ids, in any order, the index gains exactly the restorable ids at their records' locations, and added and errors count the restored and the failed ids |
| SyncBatch.RestoreMissing | src/main/java/com/proximityservice/batch/SyncBatchService.java:113-124 | the first repair loop's result in terms of each missing id's fate |
| SyncBatch.RemoveOrphans | src/main/java/com/proximityservice/batch/SyncBatchService.java:126-134 | every orphan whose removal does not throw is gone and counted as removed; each one whose removal throws stays and counts one error |
| SyncBatch.ConsistencyCheck | src/main/java/com/proximityservice/batch/SyncBatchService.java:82-156 | while running it throws "already running" and touches nothing; otherwise it clears the flag; a throwing scan or member listing gives FAILED 0/0/0/1 with the index untouched; otherwise the index is reconciled (missing = table − index, orphans = index − table), totalProcessed = table ids + orphans, and SUCCESS exactly when errors = 0 |
| SyncBatch.ReconciledKeys | src/main/java/com/proximityservice/batch/SyncBatchService.java:105-134 | after a check the members are those shared by table and index, plus the re-added missing ids, plus the orphans whose removal threw |
| SyncBatch.ReconciledPositions | src/main/java/com/proximityservice/batch/SyncBatchService.java:113-119 | shared members keep their point and re-added ids sit at their current record's location |
| SyncBatch.VanishedRecordIsSkipped | src/main/java/com/proximityservice/batch/SyncBatchService.java:115-119 | a missing id whose record has gone is neither re-added nor counted as added or as an error |
| SyncBatch.MissingTally | src/main/java/com/proximityservice/batch/SyncBatchService.java:113-124 | added plus the missing-loop errors never exceeds the number of missing ids |
| SyncBatch.OrphanTally | src/main/java/com/proximityservice/batch/SyncBatchService.java:126-134 | removed plus the orphan-loop errors equals the number of orphans |
| SyncBatch.CleanCheckCounts | src/main/java/com/proximityservice/batch/SyncBatchService.java:107-137 | without faults, and with every missing id still stored, the check reports SUCCESS, added = number missing, removed = number of orphans, no errors |
| SyncBatch.CleanCheckMatchesTable | src/main/java/com/proximityservice/batch/SyncBatchService.java:107-134 | a fault-free check against an unchanged table makes the index's member set equal the table's ids |
| SyncBatch.SecondCheckIsQuiet | src/main/java/com/proximityservice/batch/SyncBatchService.java:107-134 | a second fault-free check right after one finds nothing to add or remove and changes nothing |
| SyncBatch.CheckAfterFullSyncIsQuiet | src/main/java/com/proximityservice/batch/SyncBatchService.java:105-134 | a fault-free check after a fault-free full sync of the same table finds nothing missing, no orphan, and changes nothing |
| SyncBatch.OrphanAndMissingScenario | src/main/java/com/proximityservice/batch/SyncBatchService.java:82-145 | an index {a, orphan} checked against table [a, b] ends as exactly {a, b} with a SUCCESS report of 3 processed, 1 added, 1 removed, 0 errors |

## Left out

- Redis and JPA as real systems. GEOSEARCH, geohash encoding and the distance maths are left out: the radius search is an oracle, and `NearbySearch.IsRadiusSearch` states what a correct answer is.
- NearbySearch.SearchNearby: distances are whole decimetres that the oracle has already rounded. The `Math.round(d * 10) / 10` on a double is not modelled.
- Floating point. Coordinates are `real`; NaN and infinities are not modelled, so `Validate` cannot be shown a NaN.
- The `limit` parameter of the search. The controller calls the search with four arguments, but the service declares three, so the model validates `limit` and does not pass it on.
- Spring's request binding. A missing or non-numeric `latitude`/`longitude` is rejected by Spring before the controller runs; the model takes the coordinates as given.
- `@Transactional` rollback and JPA flush timing. The lifecycle methods call `syncGeoAdd`/`syncGeoRemove` on the object itself, so a proxy-based retry is likely bypassed there. The model therefore treats the index writes of create, update, delete and seed as plain writes that succeed. It does not model a throwing index write rolling back the primary write.
- BusinessService.Update: the entity change is modelled as a save issued before the index writes. JPA would flush it at commit, after the index writes.
- Logging. A recovery handler's log line is modelled as a `FailureLog` value holding the id, the point and the fault, not the message text.
- Timestamps and durations (`startedAt`, `finishedAt`, `durationMs`) of the batch report.
- Concurrency. The `AtomicBoolean` is a sequential flag, threaded through each job as an input and an output. Races between a batch job and online writes are not modelled. In `consistencyCheck` the table may change between the scan and the per-id lookup; the model passes the scanned rows and the looked-up store separately for that reason.
- Iteration order of `HashSet`. Both repair loops pick their next id arbitrarily, and every contract holds for any order.
- 32-bit `int` overflow of the batch counters and of `seed`'s count, which would need more than two billion records.
- SyncBatch.ConsistencyCheck: a FAILED check always reports zero added and zero removed. The only calls that fail the job, the scan and the member listing, run before either loop, so no counts have accumulated by then.
- The HTTP layer: the other controllers, the exception-to-status mapping, DTO and JSON shapes, and bean-validation annotations.
