# Parcel map: a verified model

The repository serves a public map of land parcels. An administrator uploads a sheet of parcels; background
jobs look up the boundary of each address and fill it in; visitors page through the parcels that have one,
under rate limits, and their visits are counted. This project models the parts of it that are hard to get
right, and proves what they are for.

| file | what it models |
|---|---|
| `LandRepository.dfy` | the `poi` table: rows in id order, ids given out once |
| `HttpClient.dfy`, `GeoService.dfy` | one run of the back-fill: retries, batches, passes, what it asks and how long it sleeps |
| `UploadService.dfy`, `GeomProtocol.dfy`, `GeomProgress.dfy`, `GeomRefinement.dfy`, `GeomCounts.dfy` | re-uploads, and workers, uploads and seed loads interleaving statement by statement |
| `JobRepository.dfy`, `JobLifecycle.dfy`, `GeomJob.dfy` | the job table over crashes and restarts, and a job from start to end |
| `RateLimit.dfy`, `EventRate.dfy`, `AuthSecurity.dfy` | the two in-memory limiters and the requests that use them in parallel |
| `LandPages.dfy` | cursor paging from the SQL page to the browser's store |
| `EnvFile.dfy` | the `.env` updater and the parser that reads its output |
| `FeatureLayers.dfy` | the base and the selected layer of the map |
| `Calendar.dfy`, `ExportRange.dfy` | Gregorian dates and text order; the export's date range |
| `WebStats.dfy` | the visitor statistics |
| `WebSession.dfy` | browser sessions and the order of their events |
| `Text.dfy`, `Common.dfy` | string operations of Python; shared values |

Code that changes state is a class or a method with loops, proved against a function; what the code promises
is then proved about that function or about whole runs. Clock readings, client ids, the network, the password
check and the filter results of the page are parameters. `dafny verify dfyconfig.toml` checks the whole project.

Assumptions that the theorems spell out: clock readings do not go back in the order in which a limiter's lock
is taken, and all keys of a limiter use one window length (60 seconds everywhere in the repository); the login
clock is positive; client ids are distinct; statements of one transaction take effect together.

Where the code does not do what one would expect, the exact condition is proved:

- The session cookie is written once and never renewed, so a session also ends 24 hours after it began, however
  small the gaps (`WebSession.SessionsAreSegments`, `WebSession.ADayEndsASession`).
- A background task that raises where nothing is written - before it marks its job running, or while it marks it
  failed - leaves the job active for good; no new one can be asked for until a restart
  (`JobLifecycle.ActiveIffHeldOrLost`, `JobLifecycle.LostUntilRestart`, `GeomJob.RefreshWhileLost`,
  `JobLifecycle.RecoveryClearsLost`).
- Whether `strftime` pads `%Y` below the year 1000 depends on the runtime: CPython since 3.12.5 and 3.13 pads on
  Linux, earlier releases leave it to the C library, and the GNU one does not pad. The image tag
  `python:3.12-slim` does not say which it is, so the model covers both. With padding the export's bounds and
  verdicts are right for every date; without, exactly under the conditions of `ExportRange.BoundsAreExactIff`
  and `ExportRange.VerdictIsExactIff`.
- A key with whitespace before `=` is read but not updated (`EnvFile.HiddenKeyKeepsOldValue`), and a value comes
  back from the file iff it survives quoting and has no line break in it (`EnvFile.FileRoundTrip`,
  `EnvFile.EntryRoundTrip`). The settings page strips a text field but leaves the line breaks inside it, and takes
  a list of networks with one after a comma (app/services/admin_settings_service.py:207-230); what follows the
  break is then a line of its own, which may set another key (`EnvFile.BreakSetsAnotherKey`), and the file gets
  longer at every save (`EnvFile.GrowsEachTime`).
- A limit that is not positive, which the settings page accepts for downloads, makes the rate limiter fail on an
  empty bucket at every call (`RateLimit.CrashesIff`, `RateLimit.CrashesIffLimitNotPositive`).
- The login check and the registration of a failure are separate, so parallel requests overshoot by as many as
  overlap (`AuthSecurity.OverlapIsReached`, `AuthSecurity.NeverOverIffSerial`).
- An upload reads the known boundaries before its write transaction, so one filled in between is lost
  (`GeomProtocol.OnlyFilledBetweenIsLost`, `GeomProtocol.ABoundaryCanBeLost`).
- The `updated_count` of a job counts commits, and exceeds the rows filled iff, between the fetch of a batch and a
  commit, there was an upload or another run committed to the same row (`GeomCounts.CounterIsExactIff`,
  `GeomCounts.CommitFillsIffUndisturbed`, `GeomCounts.ACommitCanBeWasted`).

## Model

| member | source | states |
|---|---|---|
| `GeomProtocol.EveryBoundaryIsTheRowsOwn` | app/services/geo_service.py:178-194 | Over every interleaving of back-fill workers, uploads, seed loads and crashes, a stored boundary was looked up for, or seeded beside, the address of the row that holds it |
| `GeomProtocol.StaleCommitTouchesNoRow` | app/services/geo_service.py:187-194 | A boundary looked up for a row fetched before an upload and committed after it changes no row, however long the worker waited |
| `GeomProtocol.UploadRetiresIds` | app/repositories/land_repository.py:10 | Ids are never reused: every row seen at any time after an upload has an id not yet given out before it |
| `GeomProtocol.StepIsLater` | app/repositories/land_repository.py:112-115 | Every step of the protocol keeps the table valid, keeps addresses under their ids and takes no boundary away from a row that stays |
| `GeomProtocol.LookupsOnlyAdvance` | app/services/geo_service.py:179-189 | Whatever the others do to the table, a worker looks rows up in strictly increasing order within a pass, never the same row twice |
| `GeomProgress.PassGetsToEveryRow` | app/services/geo_service.py:180-197 | Over every interleaving, when a worker comes to the end of a pass it has looked up every row that had no boundary when it began the pass and still has none: neither failing rows nor uploads, seed loads or other workers keep it from one |
| `GeomProgress.StoppedWorkerTriedEverything` | app/services/geo_service.py:179-200 | A worker that stops without being killed has looked up, in every pass it may make, each row that had no boundary when it started and still has none |
| `GeomProgress.StopsIffDone` | app/services/geo_service.py:179-200 | A worker that is not killed stops iff a count of its found nothing missing or it has come to the end of all its passes |
| `GeomProgress.LookUpDecidesCommit` | app/services/geo_service.py:189-197 | The next step of a worker after a lookup commits iff the lookup found a boundary that is not empty, and writes it to the rows with the id looked up and to no other |
| `GeomProgress.SeedSawEmptyTable` | app/services/seed_service.py:24-37 | A seed load writes only if the table was empty when it looked |
| `GeomRefinement.UndisturbedWorkerMakesTheRun` | app/services/geo_service.py:177-203 | A worker of the protocol that nobody disturbs leaves the table of the pass-by-pass run and makes its lookups in its order, so that all that is proved of that run holds of it |
| `GeomProtocol.ReuploadKeepsWhatItRead` | app/services/upload_service.py:302-318 | After a re-upload a row has a boundary iff its address had one when the upload read the table, and the rows left missing are exactly those whose address had none |
| `GeomProtocol.OnlyFilledBetweenIsLost` | app/services/upload_service.py:305-306 | A re-uploaded address that has a boundary at the commit loses it iff it had none at the read, and then a single commit between the read and the delete gave it one |
| `GeomProtocol.ABoundaryCanBeLost` | app/services/upload_service.py:305-306 | The loss does happen, for every address and boundary: in a run of eight steps the row has the boundary when the upload writes, and its successor has none |
| `GeomCounts.CommitFillsOrNot` | app/services/geo_service.py:191-194 | Whatever others have written, a commit leaves one row fewer missing iff its row is still there and missing, and otherwise leaves the count as it was |
| `GeomCounts.CommitFillsIffUndisturbed` | app/services/geo_service.py:181-194 | A commit fills its row iff, since its batch was fetched, there was no upload and no other run committed to the same row |
| `GeomCounts.CounterIsExactIff` | app/services/geo_service.py:194 | `updated_count` is at least the number of rows the run has filled, and equal to it iff there was no such upload or commit, between fetch and commit, for any commit of the run |
| `GeomCounts.ACommitCanBeWasted` | app/services/geo_service.py:181-194 | The counter does exceed it, for every address and boundary: an upload between the fetch and the commit, and the commit is counted and fills nothing |
| `UploadService.ReplaceLandData` | app/services/upload_service.py:302-318 | An uninterrupted upload leaves the sheet's rows under fresh ids with the boundaries known before |
| `UploadService.ReplaceShape` | app/services/upload_service.py:307-317 | The new rows are the sheet's, in order, with consecutive ids above all earlier ones and remembered boundaries |
| `UploadService.ReplaceMissing` | app/services/upload_service.py:305-317 | The number of rows left without a boundary is the number of sheet rows whose address was not known |
| `GeoService.UpdateGeoms` | app/services/geo_service.py:169-203 | `updated + failed` is the number of rows missing at the start, `failed` the number missing at the end; table and lookups are those of the plain pass-by-pass run, for any batch size; the run raises iff one of its fetches, lookups, updates or counts does, and then leaves exactly what it committed, the passes before and the current one up to some row, and has made no lookup beyond that but the one whose update failed |
| `GeoService.RunPass` | app/services/geo_service.py:180-197 | One pass over keyset batches looks up every row missing at its start once and resolves exactly those found; if a statement raises, it has done so up to some row |
| `GeoService.RunRow` | app/services/geo_service.py:187-197 | One lookup, then either one committed update of that row or one sleep; if it raises the row is as before, and the lookup was made iff it is the update that failed |
| `GeoService.LeftOutcome` | app/services/geo_service.py:182-193 | What a run that raises leaves: a row is missing iff it was and every pass that dealt with it failed on it, and a filled one has the first boundary found |
| `GeoService.RunOutcome` | app/services/geo_service.py:179-202 | A run changes no id, address or existing boundary; a row is missing at the end iff its lookup failed in every pass |
| `GeoService.RunFillsWithFirst` | app/services/geo_service.py:189-194 | A filled row has the first boundary any pass found for its own id and address |
| `GeoService.RunLooksUpExactly` | app/services/geo_service.py:179-197 | A row is looked up in a pass iff it was missing and all earlier passes failed on it: failing rows never block later ones |
| `GeoService.RunLooksUpInOrder` | app/services/geo_service.py:181-188 | Lookups go by pass and then by strictly increasing id |
| `GeoService.RunSleepIsExact` | app/services/geo_service.py:197 | Pass-level sleep is the sum over passes of the pass number times its failures, in backoff units |
| `GeoService.RunSleepBounded` | app/services/geo_service.py:179-197 | Pass-level sleep is at most N times M(M+1)/2 backoff units for N missing rows and M passes |
| `GeoService.RunGetsBounded` | app/services/geo_service.py:179-189 | A run issues at most 2*R*M*N GETs for R tries per GET |
| `GeoService.RunHttpSleepBounded` | app/services/geo_service.py:179-189 | A run sleeps between tries for at most R(R-1)*M*N backoff units |
| `HttpClient.GetJsonWithRetry` | app/clients/http_client.py:26-52 | The answer, the GETs issued and the sleep are those of the first decisive attempt |
| `HttpClient.FetchIsFirstDecisive` | app/clients/http_client.py:28-38 | A GET succeeds iff some try within the limit answers and every earlier one failed retryably |
| `HttpClient.GetsAreExact` | app/clients/http_client.py:28-48 | As many GETs are issued as it takes to get a decisive answer, or all the tries there are |
| `HttpClient.GetsFromBounded` | app/clients/http_client.py:28-52 | No more tries are made than are left |
| `HttpClient.HttpSleepBounded` | app/clients/http_client.py:47-48 | One GET with R tries sleeps at most R(R-1)/2 backoff units |
| `HttpClient.LookupSleepBounded` | app/clients/vworld_client.py:60-172 | A lookup sleeps at most R(R-1) backoff units between tries |
| `HttpClient.GetParcelGeometry` | app/clients/vworld_client.py:60-172 | A lookup asks the geocoder and, only if that yields a point, the WFS; its result and cost |
| `HttpClient.LookupIs` | app/clients/vworld_client.py:60-172 | Told from single attempts: a lookup finds g iff the first decisive try of the geocoder is OK with a point, that of the WFS answers, and g is the first outline, or the bare point if there is none |
| `HttpClient.LookupCostIs` | app/clients/vworld_client.py:60-172 | Its GETs and sleeps, exactly: the geocoder's tries, those of the WFS only if there is a point, and k - 1 backoff units between try k - 1 and try k |
| `HttpClient.LookupGetsBounded` | app/clients/vworld_client.py:60-172 | A lookup issues at most two requests of at most R GETs |
| `LandRepository.SelectIsExact` | app/repositories/land_repository.py:84-102 | A page query returns exactly the rows it describes |
| `LandRepository.SelectIsOrdered` | app/repositories/land_repository.py:99 | in increasing id order |
| `LandRepository.SelectResumes` | app/repositories/land_repository.py:38-44 | Moving the key past the first k results drops exactly those (keyset paging) |
| `LandRepository.CountIsLength` | app/repositories/land_repository.py:118-123 | The count of missing rows is the length of the list of them |
| `LandRepository.KnownGeomsIsExact` | app/repositories/land_repository.py:105-109 | An address is in the dictionary iff some row holds a boundary for it, and its value is one of them |
| `LandRepository.LastGeomIsKnown` | app/repositories/land_repository.py:105-109 | Of several rows with one address the last that has a boundary is remembered |
| `LandRepository.InsertAllShape` | app/repositories/land_repository.py:54-81 | Inserted rows follow the old ones under consecutive fresh ids |
| `LandRepository.PoiTable.FetchMissingGeom` | app/repositories/land_repository.py:84-102 | The first rows without a boundary above the key |
| `LandRepository.PoiTable.FetchLandsWithGeomPage` | app/repositories/land_repository.py:30-45 | The first rows with a boundary above the key |
| `LandRepository.PoiTable.FetchGeomByAddress` | app/repositories/land_repository.py:105-109 | The dictionary of known boundaries, later rows winning |
| `LandRepository.PoiTable.CountMissingGeom` | app/repositories/land_repository.py:118-123 | The number of rows without a boundary |
| `LandRepository.PoiTable.UpdateGeom` | app/repositories/land_repository.py:112-115 | Sets the boundary of the row with the id, and nothing if there is none |
| `LandRepository.PoiTable.InsertLand` | app/repositories/land_repository.py:54-81 | Appends one row under the next id |
| `LandRepository.PoiTable.DeleteAllRows` | app/repositories/land_repository.py:48-51 | Empties the table without giving ids back |
| `GeomJob.UploadAndFill` | app/services/upload_service.py:302-326 | An upload and the job it enqueues: every row of the sheet has the boundary its address had before, or else the first one found for it, and is without one only if every pass that dealt with it failed - all passes, unless the run raised; the counts of a completed run add up to the unknown addresses |
| `GeomJob.RunGeomUpdateJob` | app/services/geo_service.py:73-123 | A completed run ends its job done with counts that add up, or failed with the same counts if the commit of `done` raises; a run that raises counts nothing and what it committed stays; the job is left untouched iff its first commit raises, and running only if its last one does; no other job is touched |
| `GeomJob.JobRunIsARun` | app/services/geo_service.py:73-123 | Whatever is recorded of a job's run is a run of the job protocol, which ends with the job lost iff nothing final was written |
| `GeomJob.StartGeomRefreshJob` | app/services/geo_service.py:126-147 | With a valid token the newest active job is returned, and one is created iff there is none; there is then an active job, and no more than before if there was one |
| `GeomJob.RefreshWhileLost` | app/services/geo_service.py:126-147 | While a job is lost, asking for a refresh is answered with an old job and creates none |
| `JobLifecycle.StepAges` | app/repositories/job_repository.py:31-81 | One step moves a job at most one stage - pending to running, running to done or failed, active to failed by recovery - and never touches a finished one |
| `JobLifecycle.RecordTellsHistory` | app/services/geo_service.py:73-123 | Over every run from an empty table a job was started as often as it has attempts, at most once, and its record is the one report its run wrote, counts included - or, if a recovery found it active, failed with nothing counted, and no run of it ever reports |
| `JobLifecycle.FinishedIsForever` | app/repositories/job_repository.py:45-81 | A finished job keeps its status, attempts and counts through every later run, crashes included |
| `JobLifecycle.StartedAtMostOnce` | app/repositories/job_repository.py:31-42 | In every reachable state attempts are 0 or 1, are 1 for running and done jobs, and a pending job has counted nothing |
| `JobLifecycle.ActiveIffHeldOrLost` | app/services/geo_service.py:74-76 | While the server serves, a job is active iff the process still holds it or has lost it to an exception that wrote nothing (also in the `except` branch, lines 101-109) |
| `JobLifecycle.LostUntilRestart` | app/services/geo_service.py:74-76 | A lost job stays active and as it is through every run without a crash |
| `JobLifecycle.AJobCanBeLost` | app/services/geo_service.py:39-43 | Jobs do get lost, the very first one for instance |
| `JobLifecycle.RecoveryClearsLost` | app/services/geo_service.py:46-55 | The next start-up leaves no job of before active |
| `JobLifecycle.RecoveryLeavesAtMostOne` | app/services/geo_service.py:46-70 | After recovery exactly one job is active if one was before and rows are missing, otherwise none; finished jobs are untouched |
| `JobLifecycle.RecoverInterrupted` | app/services/geo_service.py:46-70 | The recovery on the table itself has that effect and returns the new job, if any |
| `JobRepository.JobTable.InterruptStale` | app/repositories/job_repository.py:111-122 | Every active job fails and the others stay; the result is how many were active |
| `JobRepository.JobTable.FetchLatestActive` | app/repositories/job_repository.py:97-108 | The newest active job, or none if and only if none is active |
| `RateLimit.SlidingWindowRateLimiter.Allow` | app/rate_limit.py:18-35 | The decision and the new table are those of the functional description, including the crash on an empty bucket when the limit is not positive |
| `RateLimit.SlidingWindowRateLimiter.EvictExpired` | app/rate_limit.py:37-40 | Exactly the keys with no event after the cutoff leave the table |
| `RateLimit.LimiterForgetsNothing` | app/rate_limit.py:18-40 | For every run with one window length and a clock that does not go back, the pruning and evicting limiter answers as one that keeps every admitted timestamp forever |
| `RateLimit.CrashesIff` | app/rate_limit.py:29-30 | In every orderly run a call fails on the empty bucket iff its limit is not positive and its key has no live event |
| `RateLimit.CrashesIffLimitNotPositive` | app/rate_limit.py:29-30 | With an unchanged limit a call on the key crashes iff that limit is not positive, and then none is ever admitted |
| `RateLimit.ZeroLimitCrashes` | app/routers/map_router.py:156-160 | A limit of 0 is one: the first call crashes |
| `RateLimit.TableStaysSmall` | app/rate_limit.py:23-25 | After every call the table has at most max(10000, keys with a live event, the called one included) keys |
| `RateLimit.RateBound` | app/rate_limit.py:26-35 | In any window (t - w, t] at most `limit` calls of a key that ask for at most `limit` are admitted |
| `RateLimit.AllowedIff` | app/rate_limit.py:26-35 | After any orderly calls, with whatever limits, a call is admitted iff fewer than its limit were admitted on its key in the window that ends with it |
| `RateLimit.AdmittedFromThen` | app/rate_limit.py:29-32 | After a refusal, with an unchanged limit and nothing on the key admitted in between, a call on it at any later time, not only after whole seconds, is admitted iff the oldest live event has left the window - and always once `retry_after` seconds have passed |
| `RateLimit.FirstCallFromThenIsAdmitted` | app/rate_limit.py:26-35 | The first call on the key at or after that moment is admitted, whatever calls on it came before that moment and on other keys at any time |
| `RateLimit.RetryAfterIsExact` | app/rate_limit.py:29-32 | `retry_after` is the least such whole number: for an unchanged limit and with nothing on the key admitted in between, a call n >= 1 seconds later is admitted iff n >= `retry_after` (RFC 9110, section 10.2.3) |
| `RateLimit.RefusedUntilThen` | app/rate_limit.py:29-32 | Every call on the key before its oldest live event expires is refused |
| `EventRate.AllowRateLimitedEvent` | app/routers/map_router.py:59-78 | The address slot is spent first, and stays spent when the endpoint as a whole then refuses |
| `EventRate.EventRateBound` | app/routers/map_router.py:59-78 | Under every interleaving of requests and any moment t, an endpoint handles in (t - 60, t] at most its limit per address and at most 1200 in all |
| `EventRate.PassesIff` | app/routers/map_router.py:66-77 | A request is let past its address's limit iff fewer than that were in the last minute (prefixes without ":" and told apart, no address called "global") |
| `EventRate.HandledIff` | app/routers/map_router.py:66-77 | ... and is then handled iff fewer than 1200 events of the endpoint were, of whatever address |
| `AuthSecurity.LoginAttemptLimiter.Cleanup` | app/auth_security.py:15-17 | Only the key's timestamps of the last cooldown stay |
| `AuthSecurity.LoginAttemptLimiter.IsBlocked` | app/auth_security.py:19-27 | Whether the key is blocked; a block that is over is dropped |
| `AuthSecurity.LoginAttemptLimiter.RegisterFailure` | app/auth_security.py:29-36 | The failure is recorded, and the last one allowed blocks the key |
| `AuthSecurity.LoginFailuresBounded` | app/auth_security.py:19-36 | Between two successful logins and with at most m requests for a key between check and registration, any interval [a, a + cooldown) registers at most max_attempts + m - 1 failures for it |
| `AuthSecurity.BlockedIff` | app/auth_security.py:15-36 | Whatever failures a fresh key has had, it is blocked iff one of them made up the limit, counting only those since the last block and not older than the cooldown, and its cooldown is not over |
| `AuthSecurity.TurnedAwayIff` | app/auth_security.py:15-41 | Over every interleaving of requests, one is turned away iff this is so of the failures of its key since the last login under it; older failures count for nothing |
| `AuthSecurity.OverlapIsReached` | app/routers/auth.py:50-61 | That bound is reached for every limit, cooldown and overlap |
| `AuthSecurity.NeverOverIffSerial` | app/routers/auth.py:50-61 | No fair run registers more than max_attempts failures within one cooldown iff no two requests for the key overlap |
| `AuthSecurity.BlocksExactlyAtTheLimit` | app/auth_security.py:29-36 | Failures within one cooldown block the key with the last one allowed, not before, and for one cooldown |
| `AuthSecurity.SuccessStartsOver` | app/auth_security.py:29-41 | After a successful login the key may fail as often as a new one before it is blocked, and no other key is affected |
| `AuthSecurity.Login` | app/routers/auth.py:38-65 | Each answer (429, 403, 500, 401, 200) goes with exactly one action on the limiter, and an uninterrupted request is a run of the two-step protocol that leaves nothing in flight |
| `LandPages.GetPublicLandFeaturesPage` | app/services/land_service.py:28-50 | The page above the cursor, and a cursor iff the page is full |
| `LandPages.EmittedCursorIsAccepted` | app/routers/map_router.py:34-40 | Every cursor the server emits is accepted by its parser and means the last id of its page |
| `LandPages.CursorIsRead` | app/routers/map_router.py:34-46 | A number is a cursor iff it is not negative and fits 64 bits with a sign |
| `LandPages.PageSizeIs` | app/routers/map_router.py:126 | A page has the size asked for, brought into 1 to 2000 |
| `LandPages.StreamLandFeatures` | frontend/src/map/lands-client.ts:5-26 | The client's batches concatenate to what the requests deliver, none is empty, and the loop ends when a page is not full |
| `LandPages.PagesCompose` | frontend/src/map/lands-client.ts:10-25 | On a table at rest the loop finishes iff it may make one request for each full page and one more, and then has delivered all rows with a boundary, in id order |
| `LandPages.NeverTwice` | app/repositories/land_repository.py:30-45 | Whatever happens to the table between the pages, delivered ids strictly increase |
| `LandPages.NothingSteadyIsMissed` | app/repositories/land_repository.py:30-45 | A row that has its boundary at every page read of a finished session is delivered |
| `LandPages.OnlyWhatWasRead` | app/services/land_service.py:28-43 | Every delivered row was in one of the tables read, with its boundary |
| `LandPages.Bootstrap.OnBatch` | frontend/src/map/map-bootstrap.ts:38-57 | After every batch the store holds exactly what has arrived; the first one also fills the list through the filter |
| `LandPages.Bootstrap.OnEnd` | frontend/src/map/map-bootstrap.ts:59-65 | At the end the store holds all that has arrived, whether or not something is selected; the list shows what the filter keeps of it unless something is selected, and then stays |
| `LandPages.Bootstrap.OnAction` | frontend/src/map/selection-controller.ts:82-103 | Picking an item that is listed selects it; applying filters lists what is kept, with nothing selected |
| `LandPages.FilteredIs` | frontend/src/map/filters.ts:38-56 | The list holds exactly the rows the filter keeps |
| `LandPages.FilteredInOrder` | frontend/src/map/filters.ts:38-56 | in the order of the collection |
| `LandPages.LoadLands` | frontend/src/map/map-bootstrap.ts:35-65 | With any user actions after each batch, the store ends with their concatenation, and the list with what the filter keeps of it unless something is selected |
| `LandPages.BrowseAll` | frontend/src/map/map-bootstrap.ts:35-65 | From the table to the store, whatever the user does: with the table at rest it ends holding every row with a boundary, in id order |
| `EnvFile.RewriteLines` | app/services/admin_settings_service.py:117-128 | The loop of the updater is the line-by-line rewriting, with what is left over |
| `EnvFile.UpdateEnvFile` | app/services/admin_settings_service.py:110-133 | The text written is the rewritten lines and the left-over entries |
| `EnvFile.LoadDotenv` | app/core/config.py:70-78 | The fallback parser adds the settings it reads and overrides none |
| `EnvFile.ParseIsFirstWins` | app/core/config.py:70-78 | A key is set iff the environment or some line sets it; the environment wins, then the first line |
| `Text.SpacesAre` | app/core/config.py:70-71 | Whitespace and line boundaries, by code point |
| `EnvFile.ValueRoundTrip` | app/services/admin_settings_service.py:191-194 | The text written for a value parses to that value iff it has no quote at either end and, unless it gets quoted, no whitespace at either end; what lines it makes in the file is said by the next two |
| `EnvFile.EntryRoundTrip` | app/services/admin_settings_service.py:110-133 | One setting written to an empty file is read back as it was, and as the only one, iff its value meets that condition and has no line break in it |
| `EnvFile.BreakSetsAnotherKey` | app/services/admin_settings_service.py:207-230 | A value that holds a line break and then `other=...`, which the settings page accepts inside text fields, sets `other` in the file although nobody has updated it |
| `EnvFile.UpdateSets` | app/services/admin_settings_service.py:119-131 | The first setting of a key in the updated lines is the update, or the old one if the key is not updated or its first line hides it from the updater |
| `EnvFile.CommentSetsNothing` | app/core/config.py:70-75 | A line whose first character that is no whitespace is "#" changes nothing of what is read |
| `EnvFile.CommentStays` | app/services/admin_settings_service.py:119-123 | ... and stays in its place while the others are updated as if it were not there |
| `EnvFile.WrittenIs` | app/services/admin_settings_service.py:191-194 | A value with a space or a "#" is written in double quotes, any other as it is |
| `EnvFile.LinesRoundTrip` | app/services/admin_settings_service.py:110-133 | Parsing the updated lines gives the old settings overridden by exactly the updates iff every updated key reaches the parser |
| `EnvFile.FileRoundTrip` | app/core/config.py:70-78 | On the file text, for all values: it is read back as the old settings overridden by exactly the updates iff no value has a line break in it and every updated key reaches the parser |
| `EnvFile.HiddenKeyKeepsOldValue` | app/services/admin_settings_service.py:124-128 | A key written as `KEY =old` is not updated: it is read back with its old value (README.MD line 31 rules such files out) |
| `EnvFile.OtherLinesStay` | app/services/admin_settings_service.py:119-128 | Every line that is not rewritten keeps its text and its place |
| `EnvFile.UpdateAgain` | app/services/admin_settings_service.py:110-133 | Updating twice with the same updates equals updating once |
| `EnvFile.UpdateTextIsIdempotentIff` | app/services/admin_settings_service.py:110-133 | On the file text this holds iff no value has a line break in it, other than one carriage return at the very end and outside quotes |
| `EnvFile.GrowsEachTime` | app/services/admin_settings_service.py:110-133 | With any other value the file gets longer every time the same update is saved |
| `FeatureLayers.MapViewFeatureLayers.SetFeatures` | frontend/src/map/map-view-feature-layers.ts:111-137 | The two loops leave the sources of the set-wise description |
| `FeatureLayers.MapViewFeatureLayers.RemoveOutdated` | frontend/src/map/map-view-feature-layers.ts:118-123 | Exactly the objects that are no longer indexed under their id leave both sources |
| `FeatureLayers.MapViewFeatureLayers.AddNew` | frontend/src/map/map-view-feature-layers.ts:125-130 | Every new object is added to the source its id belongs on |
| `FeatureLayers.MapViewFeatureLayers.SelectFeatureId` | frontend/src/map/map-view-feature-layers.ts:139-168 | At most two objects change sides |
| `FeatureLayers.MapViewFeatureLayers.SyncSelectionPulseState` | frontend/src/map/map-view-feature-layers.ts:41-47 | The timer runs iff something is selected and motion is not reduced |
| `FeatureLayers.SetFeaturesIsRedraw` | frontend/src/map/map-view-feature-layers.ts:111-137 | The incremental update equals drawing the new collection from scratch |
| `FeatureLayers.SelectIsRedraw` | frontend/src/map/map-view-feature-layers.ts:139-168 | So does moving the selection |
| `FeatureLayers.LayersAreAPartition` | frontend/src/map/map-view-feature-layers.ts:85-168 | After every session the sources are disjoint, together hold exactly the indexed features, the selected one holds the selected feature or nothing, and the pulse is in step - also when objects are replaced or change id |
| `FeatureLayers.AddsTwiceIffNotInjective` | frontend/src/map/map-view-feature-layers.ts:125-130 | An object is added while a source holds it iff the new collection has it under two ids |
| `Calendar.NextDayCounts` | app/services/raw_query_export_service.py:147 | The next day has the next day number; only 9999-12-31 has none |
| `Calendar.ValidIs` | app/services/raw_query_export_service.py:134 | A date is valid iff its day is within the month table of RFC 3339, section 5.7, in the years 1 to 9999 |
| `Calendar.OrdinalIs` | app/repositories/web_visit_query_repository.py:105 | Day numbers have the closed form that counts years from March |
| `Calendar.NextDayIsSuccessor` | app/services/raw_query_export_service.py:140-147 | Before the next day means on or before this one |
| `Calendar.OrdinalOrder` | app/services/raw_query_export_service.py:147 | Day numbers keep the order of dates (RFC 3339, section 5.7) and tell them apart |
| `Calendar.ShowOrder` | app/repositories/event_repository.py:240-245 | Fixed-width time stamps compare as text exactly as they do in time (RFC 3339, section 5.1) |
| `Calendar.ShowIs` | app/services/web_stats_queries.py:19-21 | The text of a stamp, field by field |
| `Calendar.TextOrderIsTimeOrder` | app/repositories/web_visit_query_repository.py:84-87 | and exactly as their instants in seconds |
| `Calendar.PlusNineHoursIs` | app/repositories/web_visit_query_repository.py:129 | The shift to Korean time, with its roll-over to the next date, is nine hours |
| `Calendar.DateTextOrder` | app/repositories/web_visit_query_repository.py:135-136 | Date texts are equal for the same day only and sort as days do |
| `Calendar.PadLess` | app/repositories/event_repository.py:240-245 | Zero-padded numbers compare as text as they do as numbers |
| `ExportRange.ParseDateIff` | app/services/raw_query_export_service.py:134 | Exactly the spellings of a valid date are read, and as that date |
| `ExportRange.BoundsAreExactIff` | app/services/raw_query_export_service.py:130-147 | The text bounds select exactly the days from `date_from` to `date_to` iff both print with four-digit years: on every input where the runtime pads `%Y`, and from the year 1000 on where it does not |
| `ExportRange.VerdictIsExactIff` | app/services/raw_query_export_service.py:34-48 | A request is refused exactly when `date_from` is later than `date_to`, and overflows exactly when `date_to` is the last day there is, iff the runtime pads or the years of its two bounds sort as text as they do as numbers: equally many digits, or the shorter at most what the longer starts with |
| `ExportRange.RefusalsAre` | app/services/raw_query_export_service.py:34-48 | An unknown event type and an unreadable date are refused, in this order and each as itself; a limit above `max_rows` becomes `max_rows`, and one below 1 becomes 1 |
| `ExportRange.ShortYearRefused` | app/services/raw_query_export_service.py:40-41 | Without padding it can be wrong: a range from a day in 999 to one in 1000 is refused |
| `ExportRange.FetchRawQueryLogs` | app/repositories/event_repository.py:225-273 | The assembled conditions select the matching rows, newest first, up to the limit |
| `ExportRange.ExportIsExact` | app/repositories/event_repository.py:225-273 | An accepted request exports, newest first, exactly the rows its type and bounds let through, one being left out only if later ones use up the limit; these are the rows of the days it names whenever its bounds print with four-digit years - always, where the runtime pads |
| `WebStats.WindowIsToday` | app/services/web_stats_queries.py:12-22 | Today's bounds hold exactly the instants of today's Korean date, and the trend reaches back before them |
| `WebStats.KstDayIsTheDate` | app/repositories/web_visit_query_repository.py:129 | The date SQL computes for a stored time stamp is the Korean day of its instant |
| `WebStats.EpochIsDayZero` | app/repositories/web_visit_query_repository.py:105 | The epoch of `strftime` is instant 0 of the model |
| `WebStats.InstantIs` | app/repositories/web_visit_query_repository.py:105 | The instant of a stamp in closed form, in seconds since the epoch |
| `WebStats.OnlyRelevantEventsCount` | app/repositories/web_visit_query_repository.py:77-90 | No figure of the page changes when events of bots or of other paths are added or removed |
| `WebStats.SessionRowIs` | app/repositories/web_visit_query_repository.py:103-112 | A session is as long as its first and last event are apart, and counts for the day of its last event |
| `WebStats.DwellIs` | app/services/web_stats_presenter.py:14-19 | A session counts with its own length, or with 28800 seconds if it is longer |
| `WebStats.TextIsTime` | app/repositories/web_visit_query_repository.py:84-87 | Grouping, sorting and comparing the stored text is grouping, sorting and comparing Korean days and instants |
| `WebStats.SummarizeSessions` | app/services/web_stats_presenter.py:8-29 | Per day, the sessions and their capped durations, and their totals |
| `WebStats.BuildDailyTrend` | app/services/web_stats_presenter.py:59-78 | One entry for every date either query knows, strictly date-sorted |
| `WebStats.DailyIsTrendDay` | app/repositories/web_visit_query_repository.py:71-90 | Today's visitors, counted by their own query, are those the trend's window holds for today |
| `WebStats.TrendIsDetermined` | app/services/web_stats_presenter.py:59-78 | The trend has an entry for exactly the days on which somebody was seen, with that day's visitors, sessions and dwell time - also when events arrive between the two queries |
| `WebStats.SumOverIsSum` | app/services/web_stats_presenter.py:14-20 | Splitting the sessions by day loses none and counts none twice |
| `WebStats.GetWebStats` | app/services/web_stats_queries.py:27-54 | `dailyVisitors` is at most the trend's figure for today (0 if absent), and equal to it iff no new visitor arrived between the queries; the trend's sessions sum to `sessionCount`, the number of distinct sessions, and its dwell times to the total |
| `WebStats.TrendIsShort` | app/services/web_stats_queries.py:12-22 | With events at most five minutes ahead of the clock, n days give at most n + 1 dates, and one more in the last five minutes of a day |
| `WebSession.WebSessionStore.GetOrCreateWebSession` | frontend/src/map/web-session-store.ts:13-28 | The session and the cookies are those of the functional description |
| `WebSession.CookiesTellTheOpener` | frontend/src/map/web-session-store.ts:13-28 | The session id of a visit is that of the visit which opens its session, as told from the times alone |
| `WebSession.SessionsAreSegments` | frontend/src/map/web-session-store.ts:17-27 | Two events share a session id iff every gap between them is at most 30 minutes and the later one is within 24 hours of the event that opened the session |
| `WebSession.ADayEndsASession` | frontend/src/map/web-session-store.ts:19-26 | Gaps alone do not decide: a visitor seen every 30 minutes gets a second session after a day |
| `WebSession.SessionTracker.SendWebEvent` | frontend/src/map/session-tracker.ts:48-68 | A new session is announced before its event, which waits for the answer |
| `WebSession.SessionTracker.VisitStartAnswered` | frontend/src/map/session-tracker.ts:57-61 | A waiting event is posted when its `visit_start` succeeds and dropped when it fails |
| `WebSession.VisitStartIsFirst` | frontend/src/map/session-tracker.ts:56-65 | However calls and answers interleave, the first post started for a session is its `visit_start` |
| `WebSession.EveryEventOnce` | frontend/src/map/session-tracker.ts:48-68 | However calls and answers interleave, what was posted, what waits and what a failed `visit_start` lost are together exactly the events of all calls and one `visit_start` for each session that another event opened, each once |
| `WebSession.CallPosts` | frontend/src/map/session-tracker.ts:56-67 | A call posts at once, and its own event waits iff it opens a session and is not a `visit_start` |
| `WebSession.AnswerPosts` | frontend/src/map/session-tracker.ts:57-61 | An answer takes its own event out of the waiting ones and posts it iff it was ok |
| `WebSession.OpensIsOpener` | frontend/src/map/web-session-store.ts:17-27 | A visit opens a session iff it is its own opener, as told from the times |

## Left out

- FastAPI, cookies on the wire, CSRF tokens, IP allow-lists, bcrypt, templates and security headers: library
  behaviour; a token or password check is a parameter.
- SQLite itself, schema creation and the columns of `poi` that nothing here depends on (land type, area, owners,
  contact); integer keys do not run out.
- VWorld payloads: a decoded answer is status, point and first outline; a malformed payload that raises is one of
  the exceptions that end a run.
- What a lookup that raises has spent on GETs and sleep before: the counters hold the lookups that returned.
- A job whose last log line raises after its `done` commit, and two server processes sharing one database:
  recovery is modelled for one process.
- The interrupt timer of the export, its CSV text and the formula escaping: I/O and single-branch code.
- `python-dotenv`, which is preferred over the fallback parser when it is installed; the validation of single
  settings.
- Non-ASCII digits, which Python's `int`, `strptime` and `str.isdigit` also accept.
- Floating point: the clocks of the limiters are reals.
- WebStats.BuildDailyTrend: gives the average dwell of a day as its two integers; the division and its rounding
  to two decimals are not computed.
- An empty list of page paths, on which the queries of the statistics raise.
- The breakdowns by referrer, campaign, device, browser, page and channel: one `GROUP BY` each.
- OpenLayers: a source is the set of its objects; a missing source, features without geometry and rendering are
  not modelled.
- Which item is selected in the store and on the map at once: the page does not keep the two in step after
  filtering.
- Cookies that are refused or edited by the user, and tabs that race on them.
- Excel loading, sheet validation, public downloads, map events, user-agent classification, mobile UI and charts:
  easy or library facts.
