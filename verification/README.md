# Sippy: models and proofs of its stateful and branching cores

Sippy collects CI results in databases and serves reports about them. This project models the parts of
it that hold protocols, reconcilers, compilers of conditions and aggregations, and proves what they keep
over every run and every input. One module stands for one core:

| module | what it models |
|---|---|
| SchemaSync | hash-guarded recreation of materialized views and indexes, with `DROP ... CASCADE` and crashes |
| VariantRegistry | comparing and reconciling the job-variant table under partial failures |
| RateLimit, ResponseCache | sliding-window limiter, and cache over limiter over handler |
| ReleaseTime, RoundedCache | aligned truncation, release-time adjustment, rounded cache lifetimes |
| CommentHeader, PrComments | the hidden header by which comments are found again; the worker that keeps one comment per comment ID, and its backoff |
| PhasedRefresh | grouping views by phase, and two workers draining an unbuffered channel |
| LikePattern, FilterSql, FilterMemory, FilterLink, FilterText, BigQueryText, ClauseMeaning, JobRunMeaning | one filter compiled to PostgreSQL, compiled to BigQuery and evaluated in memory; its clauses as text, read back |
| NewTestRisks, PayloadStreak, OverallTest, SyntheticTests | folds over job runs, payloads and test rows |
| Common | optional values, results that may be errors, and a few shared functions |

Code that updates state in place is a class or a method with loops, proved against a specification
function; what the program promises is then proved about that function. Every database, cache or GitHub
call may fail, with or without having taken effect, by a nondeterministic choice inside the method that
stands for it. Flags such as `healthy`, `github`, `store`, `readsWork` and `writesWork` say that no such failure happens.
Clock readings are parameters. Maps are ranged over in an arbitrary order.

Two conventions of the specifications: `Some`/`None` and `Ok`/`Err` stand for Go's nil and error results,
and a later row or map entry of the same key wins where the program collapses duplicates.

## Where the code and its stated intent differ

The models follow the code. These differences are visible in the theorems:

- Schema hashes: a crash between CREATE and the saving of the hash, followed by a deployment of the
  previous definition, leaves the new definition in place for good (`SchemaSync.RollbackAfterCrash`).
  It is enough for convergence that the hashes are `Honest`: no recorded hash matches a desired statement while
  something else exists under that name. No crash with a fixed desired set destroys that, and a finished sync
  leaves it for every later desired set (`SchemaSync.FaithfulIsHonest`). It is not necessary: an item that a hash
  misleads about still ends as desired if its view was recreated in the same run or an earlier cascade dropped
  it (`SchemaSync.MisledViewIsRescued`), and in no other case (`SchemaSync.ConvergesIff`). A kept definition that
  reads against the order of the plan can be dropped after its turn (`SchemaSync.ForwardReadIsLost`).
- A failed hash lookup (pkg/db/db.go:463-466) is only logged and read as "no row", so it adds a second row for
  the resource (`SchemaSync.RecordKeepsUniqueIff`). The contracts about recorded hashes ask for working lookups.
- The comment worker says any error raises the backoff (pkg/sippyserver/pr_commenting_processor.go:317-319),
  but line 311 overwrites the error of the write, so the backoff only rises when the write and the update of
  the error count both fail (`PrComments.CommentWorker.Process`).
- Comments are looked for in one page of GitHub's listing (pkg/dataloader/prowloader/github/github.go:86-90).
  A comment beyond that page is not found and gets a twin; `PrComments.WriteKeepsUniqueIff` states this exactly.
- When writing a cached page to the client fails, the request is generated and recorded again on the same
  connection, whose head is already sent (pkg/sippyserver/server.go:3323-3325). The page stored then has the
  headers of the final header map, which are those that went out if and only if the new response adds none
  (`ResponseCache.HeadersSentIff`, `ResponseCache.StoredHeaderNeverSent`).
- Runs that failed early are excluded so that they do not count, but the number of runs still includes them
  (pkg/sippyserver/pr_new_tests_worker.go:254), so one of them makes every new test of the job a high risk
  (`NewTestRisks.ExcludedRunMakesHigh`, `NewTestRisks.ExclusionHarmlessIff`).
- A new test counts as missing when it has fewer reports than the job has runs. A run keeps one row for each
  suite and test (pkg/dataloader/prowloader/prow.go:1083), all of which are read (pkg/api/job_runs.go:482-516)
  and appended (pkg/sippyserver/pr_new_tests_worker.go:241-243), so a test that two suites of one run report makes
  up for a run that lacks it (`NewTestRisks.SecondReportHidesAbsence`, `NewTestRisks.HighIsTroubledIff`).
- PostgreSQL reads values that the program refuses, such as " 5" on a number or "2024-01-01" on a timestamp: it
  selects rows where BigQuery is sent an error text and memory returns an error (pkg/filter/filterable.go:240-260,
  649, 699; `FilterMemory.NumberReadByPostgresOnly`, `FilterMemory.TimeReadByPostgresOnly`).
- A comparison without a value selects every number and every set timestamp in memory and is an error in SQL
  (`FilterMemory.EmptyValueSelectsAll`).
- In memory strings are compared by case and "equals" trims the row, while PostgreSQL folds case and does not trim;
  "is empty" means the empty string, 0 or, on an array, that an entry contains the value, where PostgreSQL asks for
  NULL or an empty array (`FilterMemory.StringInMemoryAgreesIff`, `FilterMemory.NumericalInMemoryAgreesIff`,
  `FilterMemory.ArrayInMemoryAgreesIff`).
- An absolute release time is taken for today by its date in its own zone, while today is a UTC date
  (pkg/util/utils.go:172-173, `ReleaseTime.OwnZoneCounterexample`).
- "equals" on a numeric column is an error in BigQuery, which gets the value as a string, and a comparison in
  PostgreSQL; on a timestamp column it depends on BigQuery's coercion of string parameters. An arithmetic
  operator on a string column is an error in BigQuery if the value is a number, and compares with an error text
  if it is not. "starts with" and "ends with" on an array are errors in BigQuery only.
  `FilterSql.PostgresAndBigQueryAgreeIff` has the exact condition for all operators.
- BigQuery patterns are not escaped (pkg/filter/filterable.go:274-328), so the value's own metacharacters are
  live (`LikePattern.BigQueryFormIff`).
- "is empty" and "is not empty" both select a row whose array is empty (`FilterSql.EmptyTestsOverlapIff`).
- A negated comparison on an unset timestamp selects the row in memory and not in SQL
  (`FilterMemory.TimestampInMemoryAgreesIff`).
- An unknown link operator drops every item in `ToSQL` and means "and" elsewhere (`FilterLink.LinkingAgreesIff`).
- Applying an "or" filter in stages can drop rows (`FilterLink.StagedOrExactIff`).
- With zero days back, the rounded end can precede the start under the default flags
  (`ReleaseTime.DefaultFlagsCounterexample`).
- The "upgrade-failure" overall result comes with a failing upgrade case only if the install status is
  Success; otherwise the upgrade is not reported at all (`SyntheticTests.OverallAgreesWithCases`).
- A run whose job state and whose overall test disagree is marked both succeeded and failed
  (pkg/dataloader/prowloader/testconversion/testconversion.go:12-60). It succeeds overall and yet has a failing
  infrastructure case if its install status is not Success and no operator was seen
  (`SyntheticTests.SuccessWithFailingCase`, `SyntheticTests.OverallAgreesWithCases`).
- The loader refuses a comma or a colon only in rows it inserts or updates, and then changes
  nothing at all (`VariantRegistry.Registry.Load`).

## Model

| member | source | states |
|---|---|---|
| SchemaSync.CascadeLeavesNoDangling | pkg/db/views.go:83-86 | After `DROP ... CASCADE` no surviving object reads a dropped relation, directly or through others. |
| SchemaSync.CascadeKeepsSelfSupporting | pkg/db/views.go:83-86 | Any set of objects that supports itself without the dropped relation survives the cascade whole. |
| SchemaSync.DropKeepsEarlierItems | pkg/db/views.go:73-91 | In dependency order, dropping view k leaves every earlier settled view and index as desired. |
| SchemaSync.RecreateKeeps | pkg/db/db.go:496-507 | Drop and create keep recorded hashes honest and earlier items settled, settle the item itself, and make the create admissible. |
| SchemaSync.RecordKeeps | pkg/db/db.go:509-519 | Saving the hash of an item that exists as desired keeps every recorded hash honest. |
| SchemaSync.RecordIsCurrent | pkg/db/db.go:509-519 | With one row per resource, saving leaves exactly one row for the item, with the new hash, and no other resource's rows change. |
| SchemaSync.RecordKeepsUniqueIff | pkg/db/db.go:463-519 | Saving keeps one row per resource if and only if the lookup found the row or there was none. |
| SchemaSync.LookupDecides | pkg/db/db.go:462-488 | With one row per resource, the row found is the only one that can vouch for the resource: the whole table misleads exactly when that row does. |
| SchemaSync.PlanAt | pkg/db/views.go:73-109 | The loop visits each view followed by its indexes, at consecutive positions of the plan. |
| SchemaSync.Database.FindHash | pkg/db/db.go:462-466 | A lookup returns some row of the resource; with working reads it misses only if there is none. |
| SchemaSync.Database.ResourceExists | pkg/db/db.go:530-549 | The existence check never reports a missing resource, and with working reads it is exact. |
| SchemaSync.Database.ExecDrop | pkg/db/db.go:497-500 | A drop has its cascade effect or, when it reports failure, possibly none. |
| SchemaSync.Database.ExecCreate | pkg/db/db.go:504-507 | A create succeeds only if the name is free and everything read exists, and may take effect although it reports failure. |
| SchemaSync.Database.RecordHash | pkg/db/db.go:509-519 | The hash is appended or replaced in place; a failing save may have been applied. |
| SchemaSync.Database.NeedsUpdate | pkg/db/db.go:462-493 | The switch: with working reads and unique rows a resource is recreated if and only if it is forced or does not look current. |
| SchemaSync.Database.Recreate | pkg/db/db.go:496-520 | Drop, create and save: at every exit hashes stay honest and earlier items settled, the rows are as before or have exactly the new hash, and with working writes it succeeds if and only if the create finds what it reads. |
| SchemaSync.Database.SyncSchema | pkg/db/db.go:454-525 | At every exit, success or failure, hashes stay honest and earlier items settled; a successful call settles the item if hashes were honest, and leaves it as desired if and only if it was forced or no row misled; an item that looks current is left alone; the catalog is exactly the one before, or the recreated one. |
| SchemaSync.Database.SyncIndexes | pkg/db/views.go:94-108 | The indexes, forced if and only if the view was recreated, end settled or the run stops as the plan foretells. |
| SchemaSync.Database.SyncView | pkg/db/views.go:73-108 | One round settles the view and all its indexes, and does nothing when all look current. |
| SchemaSync.Database.SyncMatViews | pkg/db/views.go:64-112 | From honest hashes a successful run leaves every view and index existing with its desired statement, any run keeps hashes honest, and a run in which all look current issues no statement. From any catalog and hashes, when nothing fails, it goes through if and only if every create finds what it reads, and leaves exactly the catalog that the initial state determines. |
| SchemaSync.SequentialIsSimultaneous | pkg/db/views.go:73-109 | However drops, cascades and creates interleave, what the run did not recreate is what one single cascade over everything recreated leaves of the initial catalog. |
| SchemaSync.RecreatesAsJudged | pkg/db/views.go:64-112 | What a run recreates is determined by the initial catalog and hashes: an item joins those before it if forced by them, not looking current from the start, or dropped by one cascade over them. |
| SchemaSync.CascadeIsLargest | pkg/db/views.go:83-86 | A cascade leaves the largest set that supports itself without what is gone. |
| SchemaSync.DesiredAfterTurnIff | pkg/db/db.go:454-525 | From any catalog and hashes, after its turn an item is as desired if and only if it was forced, no hash misled about it, or the cascades of earlier recreations had dropped it, all judged from the initial state. |
| SchemaSync.EndsDesiredIfKept | pkg/db/views.go:64-112 | Whatever stored definitions read, it ends as desired if and only if that holds and it was not dropped later. |
| SchemaSync.EndsDesiredIff | pkg/db/views.go:64-112 | If what looks current reads views earlier in the plan, the run goes through and nothing is dropped later, so the condition is exact at the end of the run. |
| SchemaSync.ConvergesIff | pkg/db/views.go:64-112 | The whole plan ends as desired if and only if the condition holds for every item. |
| SchemaSync.MisledViewIsRescued | pkg/db/views.go:83-86 | A dishonest hash does no harm when a view that the stored definition reads is recreated. |
| SchemaSync.ForwardReadIsLost | pkg/db/views.go:83-86 | A kept view that reads a later, recreated one is gone at the end of a run that reports success. |
| SchemaSync.Database.Deploy | pkg/db/views.go:64-112 | After any number of broken runs one run without failing statements reaches the desired catalog, and with working lookups and unique rows a further run issues no DROP or CREATE. |
| SchemaSync.FaithfulIsHonest | pkg/db/db.go:456-488 | With an injective hash, a state whose recorded hashes are those of what exists misleads no later desired set. |
| SchemaSync.RollbackAfterCrash | pkg/db/db.go:496-519 | A crash after CREATE followed by a rollback: everything looks current while the wrong definition stays, and honesty is lost. |
| VariantRegistry.FourWaysToDiffer | pkg/variantregistry/loader.go:131-189 | Inserts, updates, deletes and the cells of dropped jobs are disjoint and together are the whole difference. |
| VariantRegistry.CompareWanted | pkg/variantregistry/loader.go:136-166 | For one job: exactly the new variants and exactly the changed ones, one row per name. |
| VariantRegistry.CompareExtra | pkg/variantregistry/loader.go:169-178 | For one job: exactly the variants that are no longer expected. |
| VariantRegistry.CompareJobs | pkg/variantregistry/loader.go:181-186 | Exactly the jobs that are no longer expected, each once. |
| VariantRegistry.CompareVariants | pkg/variantregistry/loader.go:131-189 | The four lists are exactly the four parts of the difference, each key or job once. |
| VariantRegistry.NothingToDo | pkg/variantregistry/loader.go:131-189 | The four lists are empty if and only if table and expectation are equal. |
| VariantRegistry.VerifyVariants | pkg/variantregistry/loader.go:115-127 | Accepts exactly the rows without a forbidden character in name or value. |
| VariantRegistry.VerifiedIsLoadable | pkg/variantregistry/loader.go:74-77 | Verification of the two lists is a condition on the difference alone. |
| VariantRegistry.StepShrinksDiff | pkg/variantregistry/loader.go:61-113 | A step toward the expectation never loses a correct cell and strictly shrinks the difference when it changes anything. |
| VariantRegistry.UpdatedCells | pkg/variantregistry/loader.go:259-270 | The UPDATE statement changes the one cell if it exists and keeps keys unique. |
| VariantRegistry.WithoutCells | pkg/variantregistry/loader.go:273-285 | A DELETE removes exactly the selected cells and keeps keys unique. |
| VariantRegistry.Registry.LoadCurrent | pkg/variantregistry/loader.go:199-230 | The nested maps hold exactly the cells of the table, and no job without variants. |
| VariantRegistry.Registry.Put | pkg/variantregistry/loader.go:238-257 | A failing streaming insert stores any part of its batch, never a duplicate key or a foreign value. |
| VariantRegistry.Registry.BulkInsert | pkg/variantregistry/loader.go:238-257 | Batches of 500: every insert is stored on success; on failure any partial insert only moves toward the expectation. |
| VariantRegistry.Registry.UpdateVariant | pkg/variantregistry/loader.go:259-270 | One cell updated, or possibly nothing when it fails. |
| VariantRegistry.Registry.DeleteVariant | pkg/variantregistry/loader.go:273-285 | The row with that job, name and value is removed, or possibly nothing when it fails. |
| VariantRegistry.Registry.DeleteJobsBatch | pkg/variantregistry/loader.go:307-322 | All rows of the jobs are removed, or possibly none when it fails. |
| VariantRegistry.Registry.DeleteJobsInBatches | pkg/variantregistry/loader.go:288-305 | Batches cover the list exactly: on success no cell of the listed jobs is left, and no other cell changes. |
| VariantRegistry.Registry.Apply | pkg/variantregistry/loader.go:79-112 | The four loops together keep keys unique, move only toward the expectation, and without an error make the table exactly the expected rows. No statement is left out because another failed: every update or delete that is not in effect at the end has an error of its own, and so have the inserts and the deletion of jobs as a whole. |
| VariantRegistry.Registry.Load | pkg/variantregistry/loader.go:61-113 | Under any failures keys stay unique and no correct row is lost; no error means the table equals the expectation; an unverifiable difference changes nothing. If it changes anything, its errors account for everything left undone. |
| VariantRegistry.Registry.LoadUntilClean | pkg/variantregistry/loader.go:61-113 | After any number of failing loads one clean load converges if the initial difference passes verification, and otherwise nothing ever changes; the next comparison gives four empty lists if and only if the table is as expected. |
| RateLimit.AfterTwice | pkg/sippyserver/server.go:220-228 | Pruning an already pruned list with a later cutoff equals pruning the full history. |
| RateLimit.AfterIsSuffix | pkg/sippyserver/server.go:220-228 | What survives pruning a sorted history is a suffix of it. |
| RateLimit.WindowIsRun | pkg/sippyserver/server.go:220-228 | The admissions in a time window are consecutive entries of the history. |
| RateLimit.AdmissionStaysSpaced | pkg/sippyserver/server.go:239-249 | Admitting when fewer than the maximum are recent keeps any maximum + 1 consecutive admissions a period apart. |
| RateLimit.WindowBounded | pkg/sippyserver/server.go:207-250 | Spacing bounds every window of one period, wherever it starts, by the maximum. |
| RateLimit.RateLimiter.Unexpired | pkg/sippyserver/server.go:221-227 | The loop keeps exactly the times after the cutoff, in order. |
| RateLimit.RateLimiter.Allow | pkg/sippyserver/server.go:214-250 | Admits if and only if the full history has fewer than the maximum in the last period, records only admissions, and keeps the pruned list equal to the history's window. |
| ResponseCache.RespondFromCache | pkg/sippyserver/server.go:3330-3349 | The client gets the stored headers and body, marked as cached, with status 200. |
| ResponseCache.Endpoint.constructor | pkg/sippyserver/server.go:3170-3185 | Limiter and cache are in the stack exactly when the endpoint asks for them. |
| ResponseCache.HeadersSentIff | pkg/sippyserver/server.go:3351-3358 | The recorded headers are the headers sent if and only if the head was still open or the response adds no header to those sent. |
| ResponseCache.StoredHeaderNeverSent | pkg/sippyserver/server.go:3319-3358 | A page stored after a failed hit has a header that was never sent. |
| ResponseCache.Endpoint.Lookup | pkg/sippyserver/server.go:3319-3326 | A hit serves a live entry for that URI and touches neither limiter nor cache; a miss leaves an open head untouched; without failures it hits if and only if there is a live entry. |
| ResponseCache.Endpoint.Generate | pkg/sippyserver/server.go:2540-2563 | The handler runs exactly when the window has room; a refusal makes no call. |
| ResponseCache.Endpoint.Record | pkg/sippyserver/server.go:3351-3382 | The client gets status and merged headers; only a 2xx response is stored, with exactly the merged headers of the aliased map and the body, and without failures every 2xx response is. |
| ResponseCache.Endpoint.Cached | pkg/sippyserver/server.go:3313-3349 | A live entry is sent and nothing changes; a miss, or a hit that fails to go out, generates and records. |
| ResponseCache.Endpoint.Serve | pkg/sippyserver/server.go:3170-3185 | One request through the whole stack: refused without the capability; a hit sends the live entry and changes nothing; otherwise a response is generated, by the limiter if and only if the window is full, and its status, merged headers and body are sent, behind a cached head only if one went out before; only a 2xx changes the cache, and only this entry. Without failures it hits if and only if there is a live entry, and a 2xx response is stored. |
| ResponseCache.Endpoint.ServeRun | pkg/sippyserver/server.go:3170-3185 | Over any run every request is answered as above from exactly what the requests before it left; the handler is called at exactly the times of those that were neither hits nor refused, in order, and within the limit in every window. |
| ResponseCache.Endpoint.EntryStays | pkg/sippyserver/server.go:3313-3382 | In a run without failures the entry of a stored page, or a younger one, is there at the end and expires no earlier. |
| ResponseCache.Endpoint.OncePerLifetime | pkg/sippyserver/server.go:3313-3382 | In a run without failures a stored page is not generated again, nor refused, before its lifetime is over, whatever requests come in between. |
| ResponseCache.Endpoint.Promises | pkg/sippyserver/server.go:3313-3382 | In every valid state each entry is the body of a 2xx handler response for that URI, never a 429, with headers that were sent if and only if no head had gone out before or the response added none; the call history is bounded in every window. |
| ReleaseTime.TruncateAligned | pkg/util/utils.go:18-23 | The result is a boundary congruent to the offset, at most one factor before the time; without a factor the time is unchanged. |
| ReleaseTime.TruncateUnique | pkg/util/utils.go:18-23 | It is the only such boundary. |
| ReleaseTime.MidnightShift | pkg/util/utils.go:179-184 | Going back whole days and going to midnight commute. |
| ReleaseTime.StartNotAfterEnd | pkg/util/utils.go:179-200 | A start at least one day further back, from a reference not later, never exceeds the end, for every factor up to a day, every offset and any clock readings. |
| ReleaseTime.SameDayOrderedIff | pkg/util/utils.go:179-200 | With the same day, start and end are in order exactly when the end is not rounded or a boundary has passed today. |
| ReleaseTime.WindowCoversDays | pkg/util/utils.go:179-200 | The start is the first instant of its day; an unrounded end is the last second of its own, so that the window covers whole days, and a rounded one is the last boundary passed. |
| ReleaseTime.DefaultFlagsCounterexample | pkg/flags/component_readiness.go:14-18 | At 02:00 the default flags put today's end at 16:00 of the day before, ahead of the start. |
| ReleaseTime.OwnZoneAgreesIff | pkg/util/utils.go:171-175 | Taking an absolute time for today by its own zone is the same as by UTC, whatever the clock says, if and only if the zone does not change its date. |
| ReleaseTime.OwnZoneCounterexample | pkg/util/utils.go:171-175 | Half past midnight at +05:00 is not rounded in the evening of the UTC day it lies in. |
| ReleaseTime.ParseCRReleaseTime | pkg/util/utils.go:129-177 | A relative form is accepted exactly when its reference exists (the last listed GA date of the release, an end time only for a start), a start relative to the end is not after it, and an absolute time is rounded if and only if its date in its own zone is today's UTC date. |
| RoundedCache.CalculateRoundedCacheDuration | pkg/api/cache.go:138-151 | With a factor the lifetime is in (0, factor] and ends on the next boundary; without one it is the requested expiry, or eight hours if none is requested. |
| RoundedCache.RoundedHitIsFresh | pkg/api/cache.go:81-114 | A live rounded entry is read in the window its lifetime was computed in, or past its end by less than the generation took. |
| RoundedCache.Cache.CacheSet | pkg/api/cache.go:122-136 | Stores the value with its lifetime or, only on a failure, which is just logged, nothing. |
| RoundedCache.Cache.GetDataFromCacheOrGenerate | pkg/api/cache.go:65-120 | Every hit returns a value an error-free generation produced for that key earlier and is fresh as above; errors or disabled writes store nothing; what is stored has the lifetime computed before generation; forced and recent refreshes never hit. Without failures it hits if and only if the key is live and no refresh is asked for, and otherwise stores what was generated without errors. A hit comes less than the stable expiry, the factor, the requested expiry or eight hours after the entry was stored, as the entry is stable, rounded, or neither; stable means that the covered range ended longer ago than the stable age. |
| PrComments.WriteKeepsUniqueIff | pkg/sippyserver/pr_commenting_processor.go:378-431 | A completed write keeps the comment unique if and only if the existing one is on the listed page, and leaves all other comments as they are. |
| PrComments.WriteIsIdempotentIff | pkg/sippyserver/pr_commenting_processor.go:378-431 | Writing the same comment again changes nothing if and only if the first write left it on the listed page: listed and unchanged, listed and replaced with all comments on the page, or added to a page with room. |
| PrComments.OneWriteKeeps | pkg/sippyserver/pr_commenting_processor.go:378-431 | Whatever fails, a write touches no other comment, never pushes another ID's comment off the page, and keeps its own unique if nothing hid beyond the page. |
| PrComments.WriteKeepsUnique | pkg/sippyserver/pr_commenting_processor.go:378-431 | At each point between delete and add the comment is unique, provided nothing hid beyond the page. |
| CommentHeader.IdsEqualIff | pkg/github/commenter/ghcommenter.go:86-93 | Two comment IDs are equal if and only if the commits are, and both or neither are risk analyses. |
| CommentHeader.ReadsOwnHeader | pkg/dataloader/prowloader/github/github.go:348-374 | The leftmost match of the header expression in a posted comment holds exactly its ID, whatever its text. |
| CommentHeader.PostedText | pkg/sippyserver/pr_commenting_processor.go:403 | What is posted ends with the prepared text, behind a header that depends on the ID alone. |
| PrComments.CommentWorker.FindExistingComment | pkg/dataloader/prowloader/github/github.go:334-348 | The first listed comment with that ID, or an error. |
| PrComments.CommentWorker.WriteComment | pkg/sippyserver/pr_commenting_processor.go:325-431 | A skip if and only if the comment is unwanted or the state that was read makes it obsolete; a state that cannot be read fails; the comments change by at most the delete and the add of that ID; a reported success is exactly the fault-free outcome and the text is present; without failures it never fails. Only for the commit that GitHub reports do comments change, and under any failures every comment for another commit or of another kind is still there, as is every comment without an ID. |
| PrComments.CommentWorker.ValidateAndUpdatePendingRecord | pkg/github/commenter/ghcommenter.go:212-237 | Unless it errs, ready if and only if the record exists and its waiting time, longer with every failure, has passed; only the attempt time is touched. |
| PrComments.CommentWorker.UpdatePendingRecordErrorCount | pkg/github/commenter/ghcommenter.go:239-264 | Success means that one failure was counted, or that the record was given up after nine; otherwise possibly nothing; no other record changes. |
| PrComments.CommentWorker.ClearPendingRecord | pkg/github/commenter/ghcommenter.go:266-296 | The record goes or, on a failure that is only logged, stays. |
| PrComments.CommentWorker.Process | pkg/sippyserver/pr_commenting_processor.go:275-323 | A record disappears only if the exact comment is present, the comment was unwanted or obsolete by the state read, or the failures ran out. With a working store a delivery is attempted if and only if it is due, a failed write counts one failure on its record or gives it up after nine, and any other attempt clears it; with a working GitHub no attempt fails. The backoff rises if and only if write and error count both failed. Comments for other commits and kinds stay. |
| PrComments.CommentWorker.Run | pkg/sippyserver/pr_commenting_processor.go:275-323 | Over any deliveries and failures, with comments of others arriving, any comment being deleted and the pull request changing in between, every ID that starts unique, and listed if it is delivered, stays unique; where it is delivered again, the other comments at the start and those that arrivals and other IDs can have added by then must leave room for it on the page. Those other comments never grow by more. Without failures a pending record goes if and only if a delivery found it due. Without withdrawals every comment for a commit and kind that nothing is delivered for is still there at the end. Under any failures no record appears, and its failures never go down nor beyond nine. |
| PrComments.Backoff.UpdateRate | pkg/util/rate_limiter.go:34-56 | The error count stays within its bounds and the ticker rate is always the base rate times it. |
| PhasedRefresh.RefreshByPhase | pkg/db/views.go:46-62 | The groups are non-empty, of one phase each, strictly increasing, and together a permutation of the input. |
| PhasedRefresh.GroupsIncrease | pkg/db/views.go:46-62 | Any earlier group has a smaller phase than any later one. |
| PhasedRefresh.StepKeepsInv | pkg/sippyserver/server.go:320-377 | Every step of sender or worker, in any state, keeps the invariant of the hand-over. |
| PhasedRefresh.ReachableInv | pkg/sippyserver/server.go:301-377 | The invariant holds in every state of every interleaving. |
| PhasedRefresh.PhaseBarrier | pkg/sippyserver/server.go:301-334 | When a view is handed to a worker it was never handed out before and every view of every earlier group is completed. |
| PhasedRefresh.LaterPhaseWaits | pkg/sippyserver/server.go:301-334 | Under every interleaving no view of a later phase starts before every view of every earlier phase is completed. |
| PhasedRefresh.AllViewsInOrder | pkg/sippyserver/server.go:320-334 | A run that ends has handed out exactly the views of the groups, one by one and in order; with `RefreshByPhase` a permutation of the input. |
| PhasedRefresh.EachProcessedOnce | pkg/sippyserver/server.go:320-377 | A run that ends has started every view exactly once and completed all of them. |
| PhasedRefresh.NeverStuck | pkg/sippyserver/server.go:320-377 | Some step is enabled in every reachable state before the end. |
| PhasedRefresh.StepLowersRank | pkg/sippyserver/server.go:320-377 | Every step uses up exactly one of the steps left. |
| PhasedRefresh.RunsAreFinite | pkg/sippyserver/server.go:301-377 | Every interleaving ends after the same number of steps, and only then is all done. |
| LikePattern.EscapedIsLiteral | pkg/filter/filterable.go:142-147 | An escaped value in front of any pattern matches exactly itself, up to case folding (section 9.7.1 of the PostgreSQL manual). |
| LikePattern.StartsWithPattern | pkg/filter/filterable.go:183-200 | The starts-with pattern matches exactly the strings with that prefix. |
| LikePattern.ContainsPattern | pkg/filter/filterable.go:183-200 | The contains pattern matches exactly the strings with that substring. |
| LikePattern.EndsWithPattern | pkg/filter/filterable.go:183-200 | The ends-with pattern matches exactly the strings with that suffix. |
| LikePattern.BigQueryFormIff | pkg/filter/filterable.go:274-328 | In each of the three forms BigQuery's unescaped pattern is the case-insensitive test on all texts if and only if the value holds no metacharacter. |
| FilterSql.ParamsFillHoles | pkg/filter/filterable.go:177-350 | Every compiled condition brings exactly the parameters its placeholders take; only unknown operators are refused. |
| FilterSql.NegateIsNot | pkg/filter/filterable.go:274-328 | Exchanging an operator for its opposite is three-valued negation, NULL included. |
| FilterSql.PostgresAndBigQueryAgreeIff | pkg/filter/filterable.go:177-350 | For every operator and value, negated or not, both conditions have the same three-valued result, or are both refused, on all rows if and only if a stated condition on item and column type holds; for a comparison with a number or a timestamp it is that PostgreSQL and the program read the value alike. The text sent for an unparsable timestamp is assumed not to be one. |
| FilterSql.AgreeOnRow | pkg/filter/filterable.go:177-350 | The agreement, row by row. |
| FilterSql.DisagreeOnRow | pkg/filter/filterable.go:177-350 | Otherwise a row that tells them apart: NULL, one of two operands read differently, or a text. |
| FilterSql.PostgresTextOperators | pkg/filter/filterable.go:183-228 | The text operators, negated or not, are prefix, suffix and substring tests on strings and some-element tests on arrays, for every value and row. |
| FilterSql.BigQueryTextOperators | pkg/filter/filterable.go:274-328 | The compiled BigQuery condition of a text operator, negated or not, tests strings and array elements with the unescaped pattern. |
| FilterSql.EntryAgrees | pkg/filter/filterable.go:177-350 | "has entry" is the same test in both databases on arrays, and refused by both on other columns. |
| FilterSql.EmptyTestsOverlapIff | pkg/filter/filterable.go:159-233 | Both emptiness tests hold exactly on an empty array. |
| FilterMemory.NumericalInMemoryAgreesIff | pkg/filter/filterable.go:639-674 | For every operator and value memory selects the numbers that PostgreSQL selects if and only if a stated condition on the item holds: for a comparison that both read the value as the same number or both refuse it, and never without a value unless the item is negated. |
| FilterMemory.TimestampInMemoryAgreesIff | pkg/filter/filterable.go:676-720 | For every operator and value the same for set timestamps; on an unset one they agree if and only if the item tests for emptiness, or is negated exactly when it has no value. |
| FilterMemory.NumericalRelation | pkg/filter/filterable.go:639-674 | Memory and PostgreSQL also fail on the same numbers if and only if there is a value that both read or both refuse. |
| FilterMemory.NumberReadByPostgresOnly | pkg/filter/filterable.go:243-260 | On the value " 5" PostgreSQL selects a row where BigQuery and memory report an error. |
| FilterMemory.TimeReadByPostgresOnly | pkg/filter/filterable.go:243-260 | The same for a date without a time on a timestamp column. |
| FilterMemory.EmptyValueSelectsAll | pkg/filter/filterable.go:639-692 | Without a value memory selects every number and every set timestamp where SQL reports an error. |
| FilterMemory.StringInMemoryAgreesIff | pkg/filter/filterable.go:611-637 | For every operator and value memory selects the strings that PostgreSQL selects if and only if a stated condition holds: for "contains", "starts with" and "ends with" that no character of the value has another case, and never for "equals" and the tests for emptiness. |
| FilterMemory.EmptinessDiffersAt | pkg/filter/filterable.go:629-671 | The tests for emptiness agree with PostgreSQL on every number but 0, given a value that can be read, and on every string but the empty one. |
| FilterMemory.EqualityDiffers | pkg/filter/filterable.go:622-624 | For every value a string on which the trimmed equality in memory and that of PostgreSQL differ. |
| FilterMemory.FilterArray | pkg/filter/filterable.go:722-735 | True if and only if some entry contains the value, whatever the operator. |
| FilterMemory.ArrayInMemoryAgreesIff | pkg/filter/filterable.go:722-735 | Memory selects the arrays that PostgreSQL selects if and only if the operator looks for a substring and no character of the value has another case, or for a prefix or suffix and there is no value. |
| FilterMemory.ArrayDiffers | pkg/filter/filterable.go:722-735 | Otherwise an array that tells them apart. |
| FilterLink.Split | pkg/filter/filterable.go:440-462 | The items on the given fields and the others, both in order and with the link operator. |
| FilterLink.SplitIsStablePartition | pkg/filter/filterable.go:440-462 | The two lists interleave to the original, conserve its items, and are told apart by field alone. |
| FilterLink.ToSQL | pkg/filter/filterable.go:464-496 | The calls of `Where` it makes, in order. |
| FilterLink.SqlSelectsLinked | pkg/filter/filterable.go:464-496 | Under three-valued logic the query selects exactly the rows the link operator describes; an unknown operator selects all. |
| FilterLink.LinkingAgreesIff | pkg/filter/filterable.go:464-496 | The query and the link's meaning agree on every row if and only if the operator is known or there are no items. |
| FilterLink.FilterRow | pkg/filter/filterable.go:533-609 | The in-memory loop fails exactly when an item fails and otherwise computes the link of the negation-adjusted results. |
| FilterLink.Stage | pkg/api/tests.go:496-503 | The chain of splits gives the four stages. |
| FilterLink.PartsPartition | pkg/api/tests.go:496-503 | Every item is in the stage of its field and in no other. |
| FilterLink.PartsConserve | pkg/api/tests.go:496-503 | No item is lost or repeated. |
| FilterLink.StagedImpliesWhole | pkg/api/tests.go:496-503 | Staged acceptance implies acceptance by the whole filter, and with "and" is equivalent to it. |
| FilterLink.StagedOrExactIff | pkg/api/tests.go:496-503 | With "or", staging is exact on all rows if and only if at most one stage has items. |
| FilterText.BindConcat | pkg/api/job_runs.go:284-296 | A text that takes all its arguments leaves the following arguments to the following text. |
| FilterText.RenderHoles | pkg/filter/filterable.go:177-233 | Rendering a condition, in either dialect, keeps its number of placeholders. |
| FilterText.RenderIsLevel | pkg/filter/filterable.go:177-233 | Rendered text is balanced and has no connective outside parentheses, in either dialect. |
| FilterText.JoinParses | pkg/api/job_runs.go:284-296 | Joining such texts and parsing the result gives the same texts back. |
| FilterText.BindJoined | pkg/api/job_runs.go:284-296 | Binding all arguments to the joined text gives each fragment exactly its own. |
| FilterText.TestNameFragmentIsWellFormed | pkg/api/job_runs.go:299-336 | Every test-name subquery, in every status and negation, has arguments for exactly its placeholders and stays one piece. |
| FilterText.ItemFragmentIsWellFormed | pkg/api/job_runs.go:258-282 | So has every aliased and generic item. |
| FilterText.ItemIsRefusedIff | pkg/api/job_runs.go:258-282 | An item is refused if and only if it compares test names or its operator is unknown on test names or an aliased column. |
| FilterText.ApplyJobRunFilters | pkg/api/job_runs.go:249-297 | For every mix of items: an error exactly when some item is refused, no clause exactly when there are no items; otherwise the bound clause parses into the individually bound items, in order. |
| FilterText.ClauseParses | pkg/api/job_runs.go:284-296 | Placeholders and arguments correspond one to one and the bound clause parses into its items. |
| FilterText.ClauseSelectsLinked | pkg/api/job_runs.go:284-296 | Whatever the pieces say of a row in three-valued logic, the bound clause selects it if and only if some item's own bound piece does with "or", and all do otherwise. |
| BigQueryText.ParamNamesDiffer | pkg/filter/filterable.go:235-242 | Different counters give different parameter names. |
| BigQueryText.ItemTextNames | pkg/filter/filterable.go:235-350 | One item uses at most one parameter and places it exactly once under its own name. |
| BigQueryText.MapRender | pkg/filter/filterable.go:235-350 | Replacing tokens in a rendered condition replaces what stands in its slot and nothing else. |
| BigQueryText.ItemResolves | pkg/filter/filterable.go:235-350 | Among any parameters with distinct names an item finds its own value. |
| BigQueryText.ClauseResolves | pkg/filter/filterable.go:505-530 | Whatever clauses share the counter, a clause with the parameters in place is the join of its items, each with its own value. |
| BigQueryText.ClauseSelectsLinked | pkg/filter/filterable.go:505-530 | Whatever the pieces say of a row in three-valued logic, the resolved clause parses into the individually bound items and selects the row if and only if some does with "or", and all do otherwise. |
| BigQueryText.ToBQStr | pkg/filter/filterable.go:505-530 | Every item compiled with the next free name and its own value, the counter advanced by the parameters used, the placeholders exactly the names in order; resolved, the clause is the join of the bound items. |
| BigQueryText.ToBQSeries | pkg/filter/filterable.go:505-530 | Over any series of clauses with one counter all names differ, each is placed once, and with all parameters in place every clause is the join of its own items with their own values. |
| ClauseMeaning.DecodesRender | pkg/filter/filterable.go:177-350 | A decoder that knows the words of SQL reads every rendered condition back, in both dialects and under any negations. |
| ClauseMeaning.ReadsRendered | pkg/filter/filterable.go:177-350 | So a condition with its parameter in place is read as that condition and parameter. |
| ClauseMeaning.RenderIsInjective | pkg/filter/filterable.go:177-350 | The text of a condition determines the condition, and its placeholder or value if it takes one. |
| ClauseMeaning.RenderedIsInjective | pkg/filter/filterable.go:177-350 | Conditions with their parameters in place are spelled alike only if they are the same. |
| ClauseMeaning.BigQueryMeansItem | pkg/filter/filterable.go:235-350 | The condition compiled for an item has, on every row, the outcome of the item in BigQuery. |
| ClauseMeaning.BigQueryClauseMeans | pkg/filter/filterable.go:505-530 | Decoded piece by piece, the clause BigQuery sees is an error on a row if and only if some item is, and otherwise selects the row if and only if some item does in BigQuery with "or", and all do otherwise. |
| JobRunMeaning.BoundConditionIsRendered | pkg/api/job_runs.go:258-296 | A condition with its argument bound is the condition rendered with its parameter. |
| JobRunMeaning.AliasedMeansItem | pkg/api/job_runs.go:268-273 | An item on an aliased column has the outcome in PostgreSQL of the same item on that column; only on arrays a text operator is refused and "is empty" asks for NULL alone. |
| JobRunMeaning.TestNameMeans | pkg/api/job_runs.go:299-336 | For every operator, negated or not, the bound subquery, decoded, says of a run whether it has a test of that kind and name in the time range, or none for "is empty", and is never read as a condition on a column. |
| JobRunMeaning.JobRunClauseMeans | pkg/api/job_runs.go:249-297 | Decoded piece by piece, the bound job-run clause is an error on a row if and only if some item is, and otherwise selects the run if and only if some item holds with "or", and all do otherwise; an item holds by its operator and the value of its column or the tests of the run. |
| NewTestRisks.MakeNewTestRisk | pkg/sippyserver/pr_new_tests_worker.go:261-288 | The record counts failures and flakes of the reports and marks a test that reported less often than there were runs. |
| NewTestRisks.CountsAreSizes | pkg/sippyserver/pr_new_tests_worker.go:270-279 | Failures are the reports that fail without passing, flakes those that do both, each counted once. |
| NewTestRisks.AssessJobRisks | pkg/sippyserver/pr_new_tests_worker.go:231-259 | One record per test name seen in a valid run, describing all its reports, and nothing when every run was excluded. |
| NewTestRisks.CountJobs | pkg/sippyserver/pr_new_tests_worker.go:128-135 | For every test the number of jobs that saw it. |
| NewTestRisks.AssessCrossJobRisks | pkg/sippyserver/pr_new_tests_worker.go:124-146 | Exactly the tests seen in one job of a pull request with several are marked. |
| NewTestRisks.AssignRiskLevels | pkg/sippyserver/pr_new_tests_worker.go:148-182 | Every shared record gets the level of its factors and nothing else changes. |
| NewTestRisks.AssessJobs | pkg/sippyserver/pr_new_tests_worker.go:94-113 | Jobs with comparable runs, in order, each with its fresh records. |
| NewTestRisks.AnalyzeRisks | pkg/sippyserver/pr_new_tests_worker.go:94-122 | The final level of every test in every job is a function of the runs alone, whatever the map order. |
| NewTestRisks.CountsMean | pkg/sippyserver/pr_new_tests_worker.go:231-288 | Reports plus the valid runs without one plus the excluded runs are the runs plus the surplus reports, those beyond the first of their run; each of these counts is positive exactly if such a run exists, and failures are counted exactly if the test fails in a run without being a flake. |
| NewTestRisks.SeersMean | pkg/sippyserver/pr_new_tests_worker.go:128-145 | A count of one means that exactly one compared job reports the test. |
| NewTestRisks.LevelMeans | pkg/sippyserver/pr_new_tests_worker.go:94-182 | The final level is High if and only if the test fails without flaking or the valid runs without it and the excluded runs outnumber its surplus reports; Medium if and only if otherwise clean but in exactly one compared job of several; none otherwise. |
| NewTestRisks.HighIsTroubledIff | pkg/sippyserver/pr_new_tests_worker.go:231-288 | High means absent from a valid run, failing, or some run excluded, if and only if the test fails, no run lacks it, or those that do outnumber its surplus reports; so always when no run reports it twice. |
| NewTestRisks.SecondReportHidesAbsence | pkg/sippyserver/pr_new_tests_worker.go:231-288 | A passing test that one run reports twice and the other not at all is no risk. |
| NewTestRisks.ExclusionHarmlessIff | pkg/sippyserver/pr_new_tests_worker.go:231-259 | The level is High for the test's own sake alone if and only if it fails, or is absent from a run and not made up for by surplus reports, or is absent from none and the surplus makes up for the excluded runs. |
| NewTestRisks.ExcludedRunMakesHigh | pkg/sippyserver/pr_new_tests_worker.go:231-259 | A test that passes in the only valid run is High when another run was excluded. |
| NewTestRisks.SortedTestRisks | pkg/sippyserver/pr_new_tests_worker.go:352-361 | Every summary of the map once, in strictly increasing order of the test names. |
| NewTestRisks.SummarizeNewTestRisks | pkg/sippyserver/pr_new_tests_worker.go:323-350 | The jobs with actual risks only, and for every test seen the sum of its records over all jobs, sorted by name. |
| NewTestRisks.TotalIsSums | pkg/sippyserver/pr_new_tests_worker.go:323-350 | Each figure of a test's summary is the sum of that figure over the jobs. |
| NewTestRisks.NotableMeans | pkg/sippyserver/pr_new_tests_worker.go:323-350 | The notable jobs are those with a record above no risk, in order, each with exactly these records. |
| NewTestRisks.TotalConcat | pkg/sippyserver/pr_new_tests_worker.go:323-350 | Runs, failures and flakes are conserved however the jobs are grouped. |
| PayloadStreak.StreamAnalysis.FindStreak | pkg/api/releases.go:118-142 | The count is the longest prefix in the newest phase, the tags are those of the longest Rejected prefix, and the failed payloads are all Rejected ones. |
| PayloadStreak.WithPhaseConcat | pkg/api/releases.go:121-124 | The failed payloads are those in the phase and no others, in their order. |
| PayloadStreak.TestFailureAnalysis.CalculateBlockerScore | pkg/api/releases.go:200-239 | The loop's counters give the score of the leading run and of the share of the streak. |
| PayloadStreak.CountFailedIsSize | pkg/api/releases.go:212-222 | The total counts each payload of the streak that the test failed in once. |
| PayloadStreak.ScoreIsMax | pkg/api/releases.go:224-239 | With at most one leading failure the score is 25 for each; from two on it is the greater of 25 for each, up to 100, and the share of the streak. |
| PayloadStreak.LeadingFailCounted | pkg/api/releases.go:212-227 | The leading run is never more than the total, and equal to the streak exactly when the total is. |
| PayloadStreak.ExactKeepsScale | pkg/api/releases.go:231-233 | The exact quotient rounded down is one of the percentages the results below hold for. |
| PayloadStreak.ScoreBounds | pkg/api/releases.go:229-238 | The score is in 0..100 and at least 25 per leading failed payload up to 100. |
| PayloadStreak.ScoreMonotone | pkg/api/releases.go:200-239 | Failing in more payloads never lowers the score. |
| PayloadStreak.FullScoreIff | pkg/api/releases.go:200-239 | The score is 100 if and only if the newest four failed or a streak of at least two failed throughout. |
| OverallTest.Overall.Compute | pkg/api/tests.go:588-615 | Totals are the sums of both periods, percentages those of the totals, working is pass plus flake, and each improvement has its direction. |
| OverallTest.SharesSumTo100 | pkg/api/tests.go:581-605 | Pass, failure and flake percentages sum to 100 when any run exists. |
| OverallTest.OverallBetweenRows | pkg/api/tests.go:588-605 | The overall pass percentage lies between any bounds on those of the rows with runs. |
| OverallTest.SumIsFieldwise | pkg/api/tests.go:592-601 | Each total is the sum of its own figure over the rows. |
| OverallTest.SumConcat | pkg/api/tests.go:592-601 | Concatenating lists adds their totals. |
| OverallTest.SumOfPermutation | pkg/api/tests.go:592-601 | Reordering rows changes no total. |
| SyntheticTests.TallyOperators | pkg/synthetictests/ocp_synthetic_tests.go:25-196 | One result per listed operator, that of its last entry; all other results stay. |
| SyntheticTests.DecideInstall | pkg/synthetictests/ocp_synthetic_tests.go:25-196 | Every install and operator-health test has the verdict it should, before the rest is decided. |
| SyntheticTests.Decide | pkg/synthetictests/ocp_synthetic_tests.go:25-196 | Every test has at most one verdict, the one the facts call for, and none both passes and fails. |
| SyntheticTests.JobRunResult.Report | pkg/synthetictests/ocp_synthetic_tests.go:25-196 | One case per decided test, and the failure counter grows by exactly the failing cases, in any map order. |
| SyntheticTests.JobRunResult.CreateSyntheticTests | pkg/synthetictests/ocp_synthetic_tests.go:25-196 | Cases, counters, suite totals, install status and overall result for every set of facts. |
| SyntheticTests.OverallAgreesWithCases | pkg/synthetictests/ocp_synthetic_tests.go:200-227 | What each overall result says of the cases, for every set of facts: a success has passing install cases and a failing infrastructure case exactly if the run is marked failed too, its install status is not Success and no operator was seen; infrastructure, install and test failures have theirs; an upgrade failure has one exactly if the install status is Success. |
| SyntheticTests.OverallIff | pkg/synthetictests/ocp_synthetic_tests.go:200-227 | For each of the eight overall results the exact condition on the marks of the run, the reported statuses and the cases. |
| SyntheticTests.SuccessWithFailingCase | pkg/synthetictests/ocp_synthetic_tests.go:200-227 | A run marked both succeeded and failed succeeds overall with failing infrastructure and test cases. |

## Left out

- BigQuery, PostgreSQL, Redis, GCS, Jira and GitHub clients: stores whose operations may fail.
- Regular views, functions, triggers, migrations and partitions in pkg/db: they use the same hash-guarded step without cascades, or a library.
- Rendering of view definitions, string replacements and index columns: a statement is one string, with the relations it reads given.
- SchemaSync.Database.Deploy: its runs are sequential; two servers that sync at the same time are not modelled.
- FilterSql.PostgresAndBigQueryAgreeIff: "equals" and the arithmetic operators on array columns, where PostgreSQL reads the value as an array literal. Whether BigQuery coerces a string parameter that is compared with a timestamp is a parameter; that it refuses one compared with a number is assumed, and so is that databases and program lower letters alike.
- JobRunMeaning.JobRunClauseMeans: column names are not quoted, and tests of a run have a status and a name.
- LikePattern.EscapedIsLiteral: a trailing lone escape character in a pattern matches nothing, where the databases report an error; no escaped value ends in one.
- FilterMemory.NumericalInMemoryAgreesIff: float64 is an exact real, as in OverallTest; NaN and rounding are not modelled.
- JSON and query-string parsing, regular expressions other than that of the comment header, and sorting of rows.
- FilterMemory.StringInMemoryAgreesIff: NULL in string, number and array columns, which the accessors report as empty or zero. Strings are assumed to be ordered with the empty one first and extensions after what they extend.
- FilterMemory.ArrayInMemoryAgreesIff: "equals" and the comparisons, where PostgreSQL reads the value as an array literal.
- PrComments.CommentWorker.Run: one pull request; its records are those there at the start, as the analysis worker that adds more is not modelled. The JSON parser is only assumed to read the object of the worker's own headers; commit hashes that GitHub reports are assumed to have no character that is special there, and comments of others to carry no ID.
- RateLimit.RateLimiter.Allow: the clock does not go back, as Go's monotonic reading promises.
- ResponseCache.Endpoint.ServeRun: one request after the other; interleaved requests are covered by the step methods, which only need the invariant.
- ReleaseTime.ParseCRReleaseTime: matching of the time string is an input; overflow of day counts and of 64-bit durations is not modelled.
- RoundedCache.Cache.GetDataFromCacheOrGenerate: running without a cache, where the program only generates, and its exit on a refused connection; an empty key panics in the program and is excluded.
- The cache's compression, key hashing and the refresh keys of single materialized views.
- Jobs finishing early, finding new tests of a run and filtering by commit: a run is either valid with its tests or excluded.
- NewTestRisks.SummarizeNewTestRisks: the texts of reasons; the harmless records of a job are filtered on values.
- PayloadStreak.TestFailureAnalysis.CalculateBlockerScore: the floating-point percentage is any truncated quotient that keeps order and ends of the scale, which is assumed of float64.
- SyntheticTests.JobRunResult.CreateSyntheticTests: test names are distinct constructors, and durations and output texts are omitted.
- Queries, cumulative summaries, seed data, command-line wiring and the user interface.
