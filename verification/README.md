# Verified model of the coin data pipeline

A coin service keeps market data in PostgreSQL, serves it through Redis, and
refreshes it from CoinGecko with a scheduled worker and an on-demand endpoint.
What makes it hard is not any one function but what happens when cached
readers, the worker, on-demand refreshes, expiring keys and an untokened lock
interleave. This project models that pipeline in Dafny and proves what the
interleavings do and do not guarantee.

Time is an integer number of milliseconds, everywhere (token expiry is in whole
seconds, as in a JWT). Every `await` on Redis, the database or the provider is
one atomic step; between two awaits a coroutine runs undisturbed. All parties
read one clock. Page count, retries, TTLs, thresholds and lock lifetimes are
parameters; the deployed constants appear in corollaries.

`dafny verify dfyconfig.toml` checks the whole project.

## How it is built

**Cache protocol.** `CacheProtocol` is `cache_get_or_set` as a state machine over
any number of callers on one key. `Request` says which command a caller's next
await sends, `Resume` is the code up to the await after that, `Apply` is the effect
on Redis, and commits, the worker's write-through, invalidations and the clock are
events of their own. `CacheCoroutine` holds the code statement by statement, loops
and early returns included, proves that it goes through exactly these positions, and says
what it sends and returns in terms of the answers it gets alone.
On top of the machine come the guarantees:
`CacheSafety` (no assumption on timing), `CacheExclusion` (when the lock is a lock),
`SingleFlight` and `SingleFlightLimits` (when the factory runs once), `CacheStaleness` and
`StalenessLimits` (how old a served value can be) and `CacheFreshness` (when a read sees a commit). `CacheEvents` shows that what
the worker and the on-demand refresh do to tables and Redis is, seen from one key, a run of the
machine's own events. Three bounds of `Config` are not in the code: `maxHold`, `maxWrite`
and `maxRun` limit how long a lock holder, a read that will be written to Redis, and a
worker run may take; they restrict only how far the clock may advance. The theorems of
`CacheSafety` hold whatever they are, so every finite run is covered; the theorems that
depend on them say so, and the if-and-only-if ones say from which value on the property
fails.

**Refresh worker.** `RefreshWorker.Worker` is the worker's lock, page loop, retry loop,
transaction, write-through, invalidation, dead letter and purge, working on a
`Database.Session` (a working copy published by commit) and a `Redis.Server`. The
provider's answers, failing commits, a failing Redis and elapsed time come in as
arbitrary `Attempt`s, gathered in a `World`; what a run does is a function of its world and
the tables it finds. A run leaves a log; `RefreshLog` proves what any such log adds up
to, `RefreshPromises` which of its promises a run keeps, `WriteThrough` what the store looks
like afterwards, and `RefreshSchedule` puts several workers with arbitrary schedules on one lock.

**Tables and smaller machines.** `CryptoTable` (upsert), `PriceHistory` (append, query,
purge), `CacheKeys` (key strings), `OnDemandRefresh`, `Idempotency` and `TokenRotation`.

**Circuit breaker.** `CircuitBreaker.Breaker` keeps the three mutable fields and a ghost
history; its invariant says that the fields are a function of the history.
`BreakerThroughput` and `BreakerProbes` prove on histories what the breaker is for.

## Where the code and its documentation disagree

The model follows the code; for each promise that fails there is a run in which it
fails and the exact condition under which it holds.

- The repository's README.md:194 and the breaker's own docstring allow one probe call in HALF_OPEN;
  `__aenter__` (app/core/circuit_breaker.py:98) rejects only OPEN. `OneProbeIff`: it is one
  probe exactly for callers that do not overlap and whose calls cannot end in an ignored
  exception. `TwoProbes` gives both kinds of history with two.
- The comment at app/services/crypto_service.py:93 promises that the next read after an
  on-demand refresh is fresh, but a reader that has read before the commit may store
  afterwards. `NextReadFreshIffQuiescent`: the promise holds exactly if at the commit no live
  value is stored, no write-through is on its way and no reader stands between SELECT and
  SETEX. `StalenessBoundReached` gives the run, invalidation first and commit second, in
  which the next reader is handed a value a whole TTL plus the other reader's delay old; the
  worker's order, commit first, does no better.
- The repository's README.md:153 promises one history row per coin per run.
  `OneRowIffStoresOnce`: that holds exactly for a coin that one try at one page commits. It
  fails in two ways: a failure after the commit repeats the page (`RetryStoresTwice`), and a
  coin whose rank shifts between the two fetches is on both pages (`ShiftedCoinStoredTwice`).
- app/core/cache.py:63-66 and the repository's README.md:470 promise that one coroutine
  computes the value and all others get it. `SingleFlightIff`: that takes holders that do not
  outlast the lock and factories that neither raise nor return None. `HerdAfterRaise`: one
  raise sends all waiters to the database at once.
- The lock keys are deleted without a token. `LateDeleteAdmitsTwoPunctualHolders` shows
  what one late holder causes, `ExclusiveIffHoldersAreTimely` and `NoOverlapIffWorstRunFits`
  when it cannot happen.
- The repository's README.md:181 and the comment at
  app/api/v1/endpoints/cryptocurrencies.py:92-93 promise no second refresh for a key within
  30 s, concurrent duplicates included. `SpacingIffChecksDoNotOverlap`: that holds exactly if
  no two refreshes of the key stand between check and marker together and nothing
  shorter-lived is stored under the key. `InterleavedChecksStartTwice` and
  `ShortResponseStartsTwice` give runs with two.
- The repository's README.md:172 promises the same result for the same key. POST /watchlist
  uses the same Redis key for the same header (app/api/v1/endpoints/watchlist.py:44, 65), so
  that a refresh can be refused though none was ever started: `RefusedForReasonIff`.
- The worker's last-success gauge (app/worker/refresh_job.py:201) is set by every run that
  gets through its pages. `GaugeMeansStoredIff`: it stands for a stored page exactly if some
  try at some page would commit on the coins the run finds and no answer before it at that
  page is empty. `OutageLooksLikeSuccess` and `EmptyAnswersLookLikeSuccess` are runs that set it
  with nothing stored.

## Model

| member | source | states |
|---|---|---|
| `CacheSafety.UnconditionalSafety` | app/core/cache.py:68-99 | In every run, with stalls, raising factories, lock expiry and invalidation: a finished caller polled at most lock_timeout * 10 times and ran the factory at most once; it stored once if the factory yielded something and not at all otherwise; any value it got was produced by a factory run or a write-through for this key |
| `CacheSafety.EveryCallerFinishes` | app/core/cache.py:68-99 | The steps a caller has taken plus those it may still take never exceed lock_timeout * 10 + SELECTs + 5, whatever everybody else does, and the remainder is 0 exactly when it has finished |
| `CacheSafety.NoCallerIsStuck` | app/core/cache.py:68-99 | An unfinished caller can always step now or is asleep and wakes within 0.1 s |
| `CacheSafety.RunsStaySane` | app/core/cache.py:68-99 | The inductive invariant behind these, in every reachable state |
| `CacheSafety.HitsAreTaken` | app/core/cache.py:68-95 | Each of the three looks (first, double-check, poll) that finds a value makes it the caller's answer at once, and neither Redis nor any other caller is affected |
| `CacheSafety.WaitersTakeTheFirstHit` | app/core/cache.py:89-95 | In every reachable state a waiting caller sleeps 100 ms at most; from there, along any run in which the key holds a value, it is answered with what its first poll finds and never runs the factory |
| `CacheSafety.StoredIsHitForItsTtl` | app/core/cache.py:22-32 | What a caller stores is found for exactly the TTL, to the millisecond, and a stored null not at all |
| `CacheSafety.LockLastsItsTimeout` | app/core/cache.py:76 | Another caller's SET NX succeeds exactly from lock_timeout seconds after the first one's on; before that it starts its lock_timeout * 10 polls of 100 ms |
| `CacheCoroutine.Call.CacheGetOrSet` | app/core/cache.py:55-99 | For any answers of Redis and the factory, in terms of these answers alone: a first GET that hits is the result; with the lock, a second GET that hits is, or else the factory's, and the DEL is sent last; without it, the first of lock_timeout * 10 polls that hits, or else the factory's. Commands and outcome are given exactly, they are those of the protocol, and there are at most lock_timeout * 10 + SELECTs + 5 awaits |
| `CacheCoroutine.Call.ComputeUnderLock` | app/core/cache.py:79-86 | The holder's try block: the second look if it hits, otherwise the factory and its SETEX; whatever comes out, value or exception, arrives unchanged where the lock is released |
| `CacheCoroutine.Call.PollThenCompute` | app/core/cache.py:89-99 | The loser of the lock returns what the first poll that hits finds, having sent the polls up to it and nothing else; only if all lock_timeout * 10 of them miss does it run the factory and store |
| `CacheCoroutine.Call.ComputeAndStore` | app/core/cache.py:84-86 | The SETEX carries exactly what the factory made of its SELECTs and that is returned; after a raise nothing is stored and the raise is passed on |
| `CacheCoroutine.Call.RunFactory` | app/services/crypto_service.py:31-40 | A factory is one SELECT after the other, may raise or return None at any of them, and otherwise yields everything it read |
| `CacheExclusion.ExclusiveIffHoldersAreTimely` | app/core/cache.py:76-88 | No reachable state has two lock holders if and only if no holder can last until the PX expiry |
| `CacheExclusion.LateDeleteAdmitsTwoPunctualHolders` | app/core/cache.py:87-88 | One holder outlasting the lock leads to two others inside, each within its own lock lifetime, because the DEL is unconditional |
| `CacheExclusion.RunsStayGuarded` | app/core/cache.py:76-88 | With timely holders the lock key always belongs to the one holder and has not expired under it |
| `SingleFlight.AllGetTheOneValue` | app/core/cache.py:61-99 | With timely holders, factories that succeed with non-null values and an entry nobody takes away: once one caller has finished, the factory has run exactly once and every finished caller has its value |
| `SingleFlightLimits.SingleFlightIff` | app/core/cache.py:63-99 | At most one factory run in every burst on a cold key, if and only if no holder can last until the PX expiry and no factory raises or returns None |
| `SingleFlight.BurstsFlyOnce` | app/core/cache.py:81-95 | The invariant that ties every caller's position to the one flight: it rests on the double-check and on the polls outlasting the lock |
| `SingleFlightLimits.TwoFlights` | app/core/cache.py:76-84 | The burst with two factory runs once a holder may outlast the lock |
| `SingleFlightLimits.RaiseFliesTwice` | app/core/cache.py:84-88 | The one after a raise: the lock is gone, nothing is stored, the next caller computes |
| `SingleFlightLimits.NoneFliesTwice` | app/core/cache.py:26-27 | The one after a None: what was stored reads back as a miss |
| `SingleFlightLimits.HerdAfterRaise` | app/core/cache.py:89-98 | For any number n of callers: after one raise, with nobody slow, the others poll out their budget and all n have run the factory, n - 1 of them at one instant without a lock |
| `CacheStaleness.StalenessBound` | app/services/crypto_service.py:28-146 | Each SELECT's share of any value handed to any caller was the committed one at some instant of [t - TTL of its writer - read-or-commit-to-SETEX gap, t], over all interleavings of readers, commits, write-through, invalidation and expiry; t is the instant of the GET or SETEX that yielded the value, which a lock holder returns after its DEL, no later than maxHold after taking the lock |
| `StalenessLimits.StalenessBoundReached` | app/services/crypto_service.py:93-98 | A reader's bound is reached to within 2 ms with one refresh as the only other thing that happens to the key, in either order: invalidation before commit as here, or commit before invalidation as in the worker |
| `StalenessLimits.WorkerStalenessReached` | app/worker/refresh_job.py:101-132 | So is the worker's: a page replaced by an on-demand refresh before it is written through is served up to its TTL and the write delay later |
| `CacheStaleness.ReportedAgeError` | app/services/crypto_service.py:149-155 | A served data_age_seconds never overstates the age of its snapshot and understates it by less than TTL + delay + 1 s; for worker entries, stored with age 0, the delay runs from the run's start |
| `CacheStaleness.DetailStaleness` | app/services/crypto_service.py:50-67 | The bound for detail keys: 60 s from readers, 310 s from the worker |
| `CacheStaleness.ListStaleness` | app/services/crypto_service.py:28-48 | The bound for list pages, whose total and rows are read by two SELECTs and bounded separately |
| `CacheStaleness.HistoryStaleness` | app/services/crypto_service.py:102-127 | The bound for history keys: 300 s |
| `CacheStaleness.RunsStaySound` | app/core/cache.py:68-99 | The invariant behind the bounds: every part read, stored, pending or served is what some commit held when it was read |
| `CacheStaleness.WorkerAgeError` | app/worker/refresh_job.py:125-132 | With the deployed constants a worker entry, which says 0 s, is less than 323 s + 6C + 2d + p old, C, d and p bounding an attempt, a dead letter and the purge |
| `CacheFreshness.NextReadFreshIffQuiescent` | app/services/crypto_service.py:93-98 | The reads that begin after the commit of an on-demand refresh all see it, in every continuation, if and only if at the commit no live value is stored, no write-through is on its way and no reader stands between SELECT and SETEX |
| `CacheFreshness.ReadsFreshIffClean` | app/core/cache.py:68-99 | For any reachable state and any commit v in it: all reads that begin, and all callers not yet answered, get v or later in every continuation if and only if no live entry, pending write-through or unstored read is older than v |
| `CacheFreshness.CleanRunsHandOutFresh` | app/core/cache.py:68-99 | That condition is kept by every event, and under it nobody is handed anything older |
| `CacheFreshness.UncleanServesStale` | app/core/cache.py:68-99 | Without it a caller that has not begun can be handed something older |
| `CacheEvents.PageOnDerivedKey` | app/worker/refresh_job.py:101-138 | What a committed page does to the tables and to a list or top-mover key is the protocol's commit followed by its invalidation, as far as Redis lasts |
| `CacheEvents.PageOnDetailKey` | app/worker/refresh_job.py:101-132 | What it does to the detail key of a coin on it is the protocol's commit, any delay up to the write bound, and then the write-through of that very value, or its loss when Redis gives out first |
| `CacheEvents.RefreshOnKey` | app/services/crypto_service.py:91-98 | What an on-demand refresh does to a key is the protocol's invalidation and then its commit, each if it is reached |
| `CircuitBreaker.Breaker.constructor` | app/core/circuit_breaker.py:40-59 | A new breaker is the one with an empty history |
| `CircuitBreaker.Breaker.Enter` | app/core/circuit_breaker.py:91-101 | A call gets in exactly when the history says that the breaker is not open or that the cooldown since the latest failure is over; the fields keep refining the history |
| `CircuitBreaker.Breaker.Exit` | app/core/circuit_breaker.py:103-113 | A clean exit counts as success, an ignored class anywhere in the exception's ancestry leaves state, count and time alone, anything else counts as failure now |
| `CircuitBreaker.Breaker.RecordFailure` | app/core/circuit_breaker.py:72-83 | One failure more, now; open exactly if that makes failure_threshold of them or it was open already. After any overlap of calls the count is the failures since the last success and the fields are what the history determines |
| `CircuitBreaker.Breaker.RecordSuccess` | app/core/circuit_breaker.py:65-70 | The same, with the run of failures ended |
| `CircuitBreaker.StateSnoc` | app/core/circuit_breaker.py:65-101 | How one more event moves the state that the history declares: closed below the threshold; otherwise half-open exactly if a call was admitted after the cooldown and none has been counted since |
| `CircuitBreaker.ClosedBelowThreshold` | app/core/circuit_breaker.py:72-83 | After every history the breaker is closed exactly while fewer failures than failure_threshold, the constructor's own number, have been counted since the last success |
| `BreakerThroughput.OutageThroughput` | app/core/circuit_breaker.py:72-113 | In any window of length T of any run in which no call succeeds and at most k overlap, admissions number at most F - 1 + k + k * floor(T / R), whatever happened before the window |
| `BreakerThroughput.OutageThroughputReached` | app/core/circuit_breaker.py:72-113 | For every F, R, k and T some outage reaches that bound |
| `BreakerThroughput.ThroughputByThreshold` | app/core/circuit_breaker.py:40-51 | The same bound with failure_threshold itself, for thresholds of 1 and more |
| `BreakerThroughput.ThroughputByThresholdReached` | app/core/circuit_breaker.py:40-51 | And the outage that reaches it: never one call fewer |
| `BreakerThroughput.OutageStaysWithinBudget` | app/core/circuit_breaker.py:72-113 | What relates admissions, failures in flight and cooldowns in each of the three states throughout an outage |
| `BreakerProbes.OneProbeIff` | app/core/circuit_breaker.py:91-113 | A half-open breaker has let at most one call through since the latest counted outcome, in every history, if and only if at most one call is in flight at a time and none can end in an ignored exception (or nobody calls) |
| `BreakerProbes.TwoProbes` | app/core/circuit_breaker.py:91-113 | The histories with two: two callers together, or one after the other when the first probe ends in an ignored exception |
| `BreakerThroughput.ProbesOverlap` | app/core/circuit_breaker.py:91-101 | HALF_OPEN with k calls in flight is reachable for every k |
| `BreakerThroughput.CoinGeckoOutage` | app/core/circuit_breaker.py:119-124 | Sequential callers get through to a dead CoinGecko at most 5 + floor(T / 30 s) times |
| `BreakerThroughput.CoinGeckoOutageReached` | app/core/circuit_breaker.py:119-124 | And in some outage of T seconds exactly that many do |
| `RefreshWorker.Worker.RunRefresh` | app/worker/refresh_job.py:155-218 | With the lock held by someone nothing at all happens; otherwise tables, log and clock are those that the run's inputs determine, the gauges are set unless a dead letter was lost, keys outside lock, detail, list and top-mover families are untouched, detail entries are old or were stored between start and end, and the lock is gone, or left to its expiry if Redis did not take the DEL |
| `RefreshWorker.Worker.RefreshAndUnlock` | app/worker/refresh_job.py:165-218 | The same from the moment the lock has been taken: whatever happened in between, the DEL is the last thing tried |
| `RefreshWorker.Worker.constructor` | app/worker/refresh_job.py:157 | The lock key is the rendered worker lock, which no page's writes or invalidations match |
| `RefreshWorker.WriteThroughsAreTimely` | app/worker/refresh_job.py:131-132 | What a run within its limits writes through is stored within the worst run's time of the run's start, the refresh instant that the rows carry |
| `RefreshWorker.Worker.RefreshUnderLock` | app/worker/refresh_job.py:165-218 | The whole run happens with the lock set before and never touched |
| `RefreshWorker.Worker.RefreshAndPurge` | app/worker/refresh_job.py:165-214 | The coins table is the one that the committed attempts make of it, in order, with every UUID kept; history and dead letters grow by exactly what the log says; the purge uses the clock after the pages; time adds up |
| `RefreshWorker.Worker.RefreshAndReport` | app/worker/refresh_job.py:166-205 | The gauges get the run's start, its count and its duration exactly if no dead letter was lost, whether or not a page succeeded |
| `RefreshWorker.Worker.RefreshPages` | app/worker/refresh_job.py:172-196 | Pages are handled in order and stop early only at a dead letter that could not be written; total_updated is the sum of the successful attempts' counts |
| `RefreshWorker.Worker.RefreshPage` | app/worker/refresh_job.py:176-196 | A page takes its attempts plus the backoff in between plus the dead letter, and leaves a dead letter exactly when its last try failed and the letter's transaction worked |
| `RefreshWorker.Worker.TryPageRepeatedly` | app/worker/refresh_job.py:176-196 | A page is tried until it works or MAX_RETRIES are used up; each try's log and commit are determined by its inputs and the coins its predecessors left |
| `RefreshWorker.Worker.FetchAndStorePage` | app/worker/refresh_job.py:64-140 | An attempt commits all its rows and snapshots or none, and does so exactly if the page is there, PostgreSQL accepts it and the commit works: each coin with its data, the run's instant and its UUID, one priced row per priced coin, every other row as before. It succeeds exactly if the answer was empty or commit and every Redis command worked; then every coin reads back by UUID and by alias, agreeing with its row but for the two time fields, and no list or top-mover page is cached; after a failing command the store is the one after exactly the commands before it |
| `RefreshWorker.Worker.StorePage` | app/worker/refresh_job.py:93-101 | The transaction alone: upsert and snapshots appear together with the commit or not at all; the history rows added are exactly the priced coins of the answer, each at its own price and at the run's instant |
| `RefreshWorker.Worker.Publish` | app/worker/refresh_job.py:103-138 | The Redis half alone: the store is the one after exactly as many of the page's commands as Redis took, success is reported exactly if that is all of them, and no key outside the three families changes |
| `RefreshWorker.Worker.WritePage` | app/worker/refresh_job.py:111-132 | The SETEX loop writes each coin's UUID key, then its alias, coin by coin, and stops at the first failing command |
| `RefreshWorker.Worker.WriteDeadLetter` | app/worker/refresh_job.py:190-194 | One dead letter with the shortened error if its transaction works, otherwise nothing |
| `RefreshWorker.Worker.Purge` | app/worker/refresh_job.py:207-210 | The committed history loses exactly the rows older than 90 days, if the transaction works |
| `RefreshWorker.CommittedRows` | app/worker/refresh_job.py:78-93 | After a commit every coin of the page is found by its external_id with the page's data, the run's instant as its refresh and the upsert's clock as its update; old coins have their old UUIDs, new ones the minted, and rows off the page are untouched |
| `RefreshWorker.CommitsIffStorable` | app/worker/refresh_job.py:75-101 | Whether an attempt commits: exactly if the answer is there and not empty, no coin comes twice, every value fits, new UUIDs clash with nothing, and the commit itself works |
| `WriteThrough.UpsertStores` | app/repositories/crypto_repo.py:69-97 | For worker and on-demand refresh alike: the table after the upsert holds each coin of the answer field by field, with its refresh and update instants and the right UUID, and nothing else has changed |
| `RefreshWorker.RunAccounting` | app/worker/refresh_job.py:172-196 | In a run whose dead letters could be written, successes plus new dead letters equal TOTAL_PAGES, and the letters name exactly the pages that failed |
| `RefreshWorker.RunLetters` | app/worker/refresh_job.py:172-196 | The new dead letters of any run, cut short or not: one per failed page, in page order, with the first 2000 characters of the last try's error, save only the one whose write failed; and total_updated is the number of coins on the pages that ended well |
| `RefreshWorker.RunRecords` | app/worker/refresh_job.py:95-101 | A row is in the history after a run if and only if it was there before, or it has the run's instant and is by id and price a coin of an answer that the run committed; less, after the purge, what is over 90 days older than the end of the pages |
| `RefreshWorker.KeepDaysSuffice` | app/api/v1/endpoints/cryptocurrencies.py:131-136 | With the 90 days that the worker keeps, questions about d days never show the purge if and only if d is at most 90, which the endpoint's 7, 30 and 90 are |
| `RefreshWorker.RunHistory` | app/worker/refresh_job.py:95-101 | The rows for (coin, run time) grow by exactly the committed attempts that carried the coin with a price, even after the run's purge |
| `RefreshPromises.OneRowIffStoresOnce` | app/worker/refresh_job.py:95-101 | A run has exactly one row of a coin if and only if exactly one of the tries that its inputs make it go through, over all pages, commits the coin with a price |
| `RefreshPromises.RetryStoresTwice` | app/worker/refresh_job.py:101-132 | Whenever a page commits, loses Redis, and is retried with the same answer and a working Redis, the page ends well and every priced coin on it has two rows more for that run |
| `RefreshPromises.ShiftedCoinStoredTwice` | app/worker/refresh_job.py:175-182 | Two rows with no failure at all: a coin that is in the answers for both pages, each stored at the first try |
| `RefreshWorker.RunKeepsIdentity` | app/repositories/crypto_repo.py:78-93 | Over all attempts of all pages of a run no coin's UUID changes and no two coins share one |
| `RefreshPromises.GaugeMeansStoredIff` | app/worker/refresh_job.py:200-205 | A run that sets the gauges has stored a page if and only if, on the coins it found, some try at some page would commit and no answer before it at that page is empty; otherwise coins are unchanged and no row is added |
| `RefreshPromises.EmptyAnswersLookLikeSuccess` | app/worker/refresh_job.py:76-77 | With a provider that answers empty lists every page counts as a success, no dead letter is written, the gauges are set, and nothing is stored |
| `RefreshPromises.OutageLooksLikeSuccess` | app/worker/refresh_job.py:172-205 | With the provider down and dead letters going through, no run is cut short, so every one sets the success gauge, and none stores a page |
| `RefreshWorker.RunFitsLimits` | app/worker/refresh_job.py:155-218 | A run whose pieces respect their limits holds the lock for exactly pages plus purge, and no longer than the worst run |
| `RefreshLog.EveryPageAccountedFor` | app/worker/refresh_job.py:176-196 | For every pattern of failures each page is exactly one of success or dead letter, and the failed ones used all MAX_RETRIES |
| `RefreshLog.LettersAreTheFailures` | app/worker/refresh_job.py:184-194 | The dead letters due are one per failed page, in page order, with the error of its last try |
| `RefreshLog.SnapshotConservation` | app/worker/refresh_job.py:95-101 | Rows for (coin, run time) equal committed attempts that carried the coin, at most MAX_RETRIES per page |
| `RefreshLog.SnapshotsCount` | app/worker/refresh_job.py:95-99 | One attempt stores one row for each coin with a known price, none for others |
| `RefreshLog.SnapshotsAreTheCoins` | app/worker/refresh_job.py:95-99 | The rows are exactly the priced coins of the answer by id and price, all at the run's instant |
| `RefreshLog.StoredRowsAreTheCoins` | app/worker/refresh_job.py:95-101 | Over a whole run: the rows stored are exactly the priced coins of its committed answers |
| `RefreshLog.TotalCountsCoins` | app/worker/refresh_job.py:176-182 | total_updated is the number of pairs of a page that ended well and a coin in the answer that ended it |
| `RefreshLog.OneRowIffCarriedOnce` | app/worker/refresh_job.py:95-101 | Read off the log: one row if and only if exactly one attempt at exactly one page committed the coin with a price |
| `RefreshLog.OneRowPerCoinPerRun` | app/worker/refresh_job.py:95-101 | In particular one row if that page ends well with the coin and nothing fails after a commit, and none if no page carries it |
| `RefreshLog.CleanPageStoresAtMostOnce` | app/worker/refresh_job.py:176-182 | Without failures after a commit only a page's last attempt can have stored anything |
| `RefreshLog.PurgeSparesTheRun` | app/worker/refresh_job.py:207-210 | The purge leaves the rows of its own run alone |
| `RefreshLog.BackoffClosedForm` | app/worker/refresh_job.py:195-196 | A page's backoff over n tries is 2^n - 2 seconds |
| `RefreshLog.RunTimeBounded` | app/worker/refresh_job.py:172-210 | No run is longer than P(MC + 2^M - 2 + d) + p |
| `RefreshLog.WorstRunReached` | app/worker/refresh_job.py:172-210 | Some run within the limits is that long |
| `RefreshSchedule.NoOverlapIffWorstRunFits` | app/worker/refresh_job.py:157-217 | No schedule of two or more workers ever has two of them inside the refresh if and only if P(MC + 2^M - 2 + d) + p is below the lock's lifetime |
| `RefreshSchedule.DeployedLockSuffices` | app/worker/refresh_job.py:45-50 | With 2 pages, 3 tries and the 270 s lock: if and only if 6C + 2d + p is below 258 s |
| `RefreshSchedule.RunsProtected` | app/worker/refresh_job.py:160-217 | While the worst run fits, the one run inside owns the lock and leaves before it expires |
| `RefreshSchedule.SlowRunsOverlap` | app/worker/refresh_job.py:160-163 | Otherwise a schedule with two runs inside |
| `RefreshSchedule.RunIsAJob` | app/worker/refresh_job.py:155-218 | What RunRefresh does under the lock is a job of these schedules and takes exactly that job's time |
| `RefreshSchedule.RunIsOnSchedule` | app/worker/refresh_job.py:157-217 | With nobody else about, what RunRefresh leaves of the lock key in Redis is what trigger, elapsed time and finish leave of the schedule's lock, and the one is turned away exactly when the other is |
| `RefreshSchedule.SlowJobIsARun` | app/worker/refresh_job.py:172-210 | And the slowest job is a run of that code: from any tables, in a world where everything fails as late as it may, it takes exactly the worst run's time |
| `RefreshSchedule.LocksRunOut` | app/worker/refresh_job.py:160-163 | A lock that nobody deletes keeps workers out for no longer than its lifetime |
| `WriteThrough.WrittenIsReadable` | app/worker/refresh_job.py:111-132 | After the write-through both keys of every coin hold the same entry, expire 310 s later, carry the run's instant and age 0, and agree with _coin_to_dict of the row at any instant but for these two time fields |
| `WriteThrough.WrittenElsewhere` | app/worker/refresh_job.py:131-132 | Nothing but detail keys changes |
| `WriteThrough.InvalidationSparesDetails` | app/worker/refresh_job.py:134-138 | Dropping lists and top movers leaves the page's detail keys readable |
| `CryptoTable.CoinToDict` | app/services/crypto_service.py:149-168 | The dict is the row with its UUID and external_id; its age is missing exactly if the row was never refreshed, and otherwise the whole seconds since, cut towards zero |
| `CacheEvents.ReadIsCoinToDict` | app/services/crypto_service.py:50-67 | What the protocol's SELECT reads of a detail key is _coin_to_dict of the row at that instant, content and age |
| `CryptoTable.UpsertRefreshes` | app/repositories/crypto_repo.py:69-97 | A successful upsert gives every coin of the batch its data, new coins their proposed UUIDs, old coins keep theirs, other rows stay untouched, and UUIDs stay unique |
| `CryptoTable.UpsertSucceedsIff` | app/models/cryptocurrency.py:19-27 | The statement goes through exactly when no external_id comes twice, texts are no longer than 100 (id, name), 20 (symbol) and 500 (image URL) characters, ranks have 32 bits, and the UUIDs of new coins clash with nothing |
| `WriteThrough.UpsertAccepts` | app/models/cryptocurrency.py:17-27 | The same of a provider's answer: accepted exactly if each coin comes once, fits and, if new, gets a UUID that no row and no other new coin has, whatever the clocks say |
| `CryptoTable.IdentityIsStable` | app/repositories/crypto_repo.py:78-93 | Over any run of upserts, failed ones included, no coin's UUID changes, no two coins share one, and a coin in no batch keeps its row |
| `Database.Session.UpsertMany` | app/repositories/crypto_repo.py:69-97 | The loop stamps every dict with its own clock reading; the session's view becomes the upserted table or, on an error, stays as it was; nothing is committed |
| `Database.Session.PurgeOldHistory` | app/repositories/price_history_repo.py:31-38 | Of every row older than keep_days days no copy stays in the session's view and of every other row all do; the number removed is returned |
| `Database.Session.WriteDeadLetter` | app/repositories/price_history_repo.py:40-42 | One dead letter more in the session's view, its error cut to 2000 characters |
| `PriceHistory.PurgeTransparencyIff` | app/repositories/price_history_repo.py:17-38 | With a clock that does not run backwards, after any appends and purges, questions about d days have the same answers as on a log never purged if and only if d is at most keep_days |
| `PriceHistory.TableSelectsAsLog` | app/repositories/price_history_repo.py:17-38 | The rows such a question selects are, in order, those it selects from the log |
| `PriceHistory.GetHistory` | app/repositories/price_history_repo.py:17-29 | The answer is ascending and holds each of the coin's rows of the last so many days as often as the table does, and no other row |
| `PriceHistory.PurgeShows` | app/repositories/price_history_repo.py:31-38 | A row that a longer question can still ask for and the purge has taken |
| `Redis.SweepClearsFamily` | app/core/cache.py:44-52 | A pattern delete among other writers, for any scan order and repeats: it alters nothing, removes no key without the prefix, and a key with the prefix that is there at the end was written by someone while it ran |
| `Redis.SweepSendsBatches` | app/core/cache.py:45-52 | Whatever others do meanwhile, the DEL commands are the yielded keys in batches of 100 and a remainder |
| `Redis.Server.DeleteScanned` | app/worker/refresh_job.py:143-152 | The batch loop, the same in both files, with DELs between the steps of the scan and other clients' writes and removals anywhere: store and DEL commands are those of the sweep that the two rows above are about |
| `Redis.BatchesCoverScan` | app/core/cache.py:45-52 | Every scanned key is sent once and in order, no DEL is empty or longer than 100, only the last may be short |
| `Redis.BatchesUnique` | app/core/cache.py:45-52 | Full batches followed by a remainder are the only way to batch a scan |
| `CacheKeys.RenderInjective` | app/services/crypto_service.py:29-131 | No two different keys of list, detail, alias, history, top-mover, idempotency, insight, worker-lock and nested lock render to the same string, whatever ids and headers users supply |
| `CacheKeys.PatternsSelectFamilies` | app/worker/refresh_job.py:134-138 | Each invalidation prefix selects exactly its family, so never a lock, history or idempotency key |
| `OnDemandRefresh.CryptoService.Refresh` | app/services/crypto_service.py:69-100 | The upsert goes through exactly if the provider answers with something PostgreSQL accepts; then the session holds every coin as answered, with its refresh and update instants and its UUID, and the rest as before, and the caches are cleared as far as Redis lasts, while the database is still the old one; an error before the upsert clears nothing |
| `OnDemandRefresh.CryptoService.RunInBackground` | app/api/v1/endpoints/cryptocurrencies.py:98-115 | The database changes exactly if the answer is acceptable, all three invalidations worked and so did the commit; then it holds every coin as answered, old ones under their UUIDs and new ones under the minted, other rows are untouched, and no list, detail or top-mover key was left. The caches can be cleared without a commit, not the other way round |
| `OnDemandRefresh.CryptoService.Invalidate` | app/services/crypto_service.py:93-98 | The three families are dropped in order, up to the first failing command |
| `OnDemandRefresh.ClearedDropsDerivedFamilies` | app/services/crypto_service.py:93-98 | After n invalidations exactly the first n families are gone; histories, markers and locks stay |
| `Idempotency.SpacingIffKeyed` | app/api/v1/endpoints/cryptocurrencies.py:88-120 | If no request looks between another's check and marker, refreshes of one header start at least the TTL apart, however long the work takes and however it ends, if and only if the header is there and not empty and POST /watchlist stores nothing shorter-lived under it |
| `Idempotency.SpacingIffChecksDoNotOverlap` | app/api/v1/endpoints/cryptocurrencies.py:85-96 | With at most k refreshes between check and marker at a time, starts are at least the TTL apart in every run if and only if k is 1, there is a key and POST /watchlist stores nothing shorter-lived under it, or k is 0 |
| `Idempotency.RefusedForReasonIff` | app/api/v1/endpoints/watchlist.py:44-65 | No refresh is refused without one having been started, if and only if the header is not also used with POST /watchlist |
| `Idempotency.RefusedWithoutStart` | app/api/v1/endpoints/watchlist.py:44-65 | The run in which it is: the watchlist takes the header first |
| `Idempotency.RefreshSpacing` | app/api/v1/endpoints/cryptocurrencies.py:85-96 | As deployed, 30 s apart, with or without the watchlist's 24 h responses under the same header |
| `Idempotency.InterleavedChecksStartTwice` | app/api/v1/endpoints/cryptocurrencies.py:88-96 | Two requests that both check before either marks both start |
| `Idempotency.MarkerIsTruthful` | app/api/v1/endpoints/cryptocurrencies.py:92-115 | In every run, interleaved or not, a pending marker means work under way and a completed or failed one an outcome that occurred; anything else is the other endpoint's |
| `Idempotency.CheckSeesMarker` | app/core/idempotency.py:37-52 | After every run of refreshes and watchlist requests with a header the real Redis key holds what the machine says, and the check's answer is what the machine goes by |
| `Idempotency.StoredTurnsAway` | app/api/v1/endpoints/cryptocurrencies.py:88-112 | What a start, an end or a watchlist response stores turns requests with that key away for exactly its lifetime and says which of these it was; without a key it turns nobody away |
| `Idempotency.ResponsesFollowLooks` | app/api/v1/endpoints/watchlist.py:44-65 | In every run the watchlist stores at most once for each time it looked, and a look that finds something stores nothing |
| `Idempotency.Handler.Check` | app/core/idempotency.py:37-44 | No header and an empty one are no key: nothing is ever found. Any other is found exactly while an unexpired entry is stored under it |
| `Idempotency.Handler.Store` | app/core/idempotency.py:47-52 | Without a header, or with an empty one, nothing is stored; otherwise one SETEX under that header |
| `Idempotency.Handler.Refresh` | app/api/v1/endpoints/cryptocurrencies.py:88-96 | Undisturbed, work starts exactly if no live marker was there; afterwards there is one, and no other header's marker is affected |
| `TokenRotation.StoredExpiryNeverDecreases` | app/services/auth_service.py:31-66 | Over any requests in clock order no user's stored refresh-token expiry goes down |
| `TokenRotation.UsedTokenIsDead` | app/services/auth_service.py:46-66 | A token used in a second later than its mint second is never accepted again, whatever is served in between |
| `TokenRotation.ReplayIffSameSecond` | app/services/auth_service.py:53-62 | A token that has been accepted can be accepted again if and only if it was used in its mint second |
| `TokenRotation.ChangesAreEntitled` | app/services/auth_service.py:31-66 | In any run of requests users neither come nor go, and a user's stored token changes only at a login with the right password or at a refresh that presents the stored token, unexpired |
| `TokenRotation.ExpiredIsRefused` | app/core/security.py:40-44 | A token whose expiry has come is refused and nothing changes, stored or not |
| `TokenRotation.AuthService.RefreshTokens` | app/services/auth_service.py:46-66 | Granted exactly for an unexpired refresh token equal to the stored one of an existing user; then both new tokens expire their lifetimes after the current second and the refresh token replaces the old one; otherwise nothing changes |
| `TokenRotation.AuthService.Login` | app/services/auth_service.py:31-44 | Granted exactly to a known user with the right password; then both tokens expire their lifetimes after the current second and the refresh token is stored as that user's; otherwise nothing changes |

## Left out

- HTTP routing, middleware, metrics other than the gauges a worker run sets, logging, rate limits, gRPC and the schema layer: no state of their own that a property needs.
- JWT signing, bcrypt, httpx, SQLAlchemy and JSON text: tokens are triples of kind, subject and expiry (the access token's role is dropped), password checks and provider answers are inputs, tables are maps and sequences.
- The AI insight service beyond its cache key, the watchlist beyond its idempotency key, and registration.
- The worker's data-age gauge and its 30 s tick.
- Pagination and top-mover ordering: SQL leaves ties unspecified, so nothing is claimed about which rows a page holds.
- The circuit breaker around the CoinGecko client: a 404 is counted there before it becomes the ignored exception (app/providers/coingecko.py:63-75), so ignoring it is proved of the breaker class only.
- A reader's own cache_get before cache_get_or_set: it either answers like the protocol's first GET or changes nothing, so it is not a step of its own.
- Rendering a row a moment after its SELECT: the age in a value is computed at the instant of the SELECT; one row's refresh instant stands for any row the SELECT returned, and rows never refreshed have no age in the protocol (`CryptoTable.CoinToDict` has them).
- Cancelled coroutines and a Redis that fails inside cache_get_or_set: only factories raise in the protocol.
- `lock_timeout` of 0: Redis refuses PX 0.
- `Redis.Server.DeletePattern`: as `RefreshWorker` and `OnDemandRefresh` use it, it runs undisturbed and fails or succeeds as a whole (`Redis.SweepClearsFamily` has the other writers).
- `CryptoTable.UpsertSucceedsIff`: PostgreSQL also truncates surplus blanks instead of refusing them, and refuses NUL characters.
- Several writers on one coin's rows during a page: between the commit of a page and the lookup of its UUIDs no other transaction runs, so the source's skip of a missing row does not occur.
- The time of an attempt is spent at its start; the time inside it at which a command runs is not distinguished in `RefreshWorker` (the cache protocol does distinguish it).
- Top movers read twice in one session (app/repositories/crypto_repo.py:61-67): SQLAlchemy gives a coin that is in both lists the attributes of the first SELECT, so the second share need not be one commit's; the protocol reads each share afresh.
- What POST /watchlist does with a refresh marker that it finds under its key, and its database work.
- `RefreshWorker.RunHistory`: asks that the pages take less than 90 days, without which the purge would reach the run's own rows.
- `SingleFlight.AllGetTheOneValue`: asks for factories that return something other than null, because a cached null reads back as a miss.
- `TokenRotation.UsedTokenIsDead`: requests are atomic; two refreshes of one token that both read before either writes are not covered, because the code has no guard there.
