# Verified model of the threat-feed service

This project models the parts of the service that decide over time: who is published, who is blocked, who may try
again, and what a crash, a restart or an interleaved request can do to that. Each part is a Dafny module.

A protocol is a state machine. A `System` value holds the fields of the code and of the world around it, every
`Step` is one move of the code between two outside calls or one move of the world, and the theorems speak of every
state that any run reaches. Code that updates objects in place is a class with those fields. The classes of the
protocols carry the whole system along and take its steps, so what is proved of all runs holds of the objects;
the others are proved against functions of their inputs and old state. Calls to the outside may go wrong at any
point; a counter of those that did lets a contract say what happens when none does.

| module | what it is about |
|---|---|
| CloudflareSync, CloudflareService | the listener that publishes active, not whitelisted addresses to a Cloudflare list |
| TokenBucket, AuthLockout, RateLimiters, PacedAttempts | the three limiters of outgoing requests |
| Backfill, OverlappingBackfills | the 90-day backfill, in windows, with a checkpoint: one run after the other, and any number at once |
| Scheduler, SchedulerService | who starts a backfill or a forced collection, in any number of processes |
| PageLoop, PostProcessing | the page loop of a collection and what becomes of its items |
| SessionTokens, TokenServices | tokens, revocations and the session version |
| LoginFailures | the failure counters that lock a login |
| BlacklistTable, BlacklistHistory, BlacklistStore | rows of the blacklist: upserts, cleanup, expiry, whole histories of them, and saving a collection |
| DecisionCache | block decisions over a cache with a time to live |
| MultiSource | merging several feeds |
| DuplicateFilter | the filter for repeated log records |

Where a property one would expect is false of the code, the module says so: a lemma gives the run or the input,
and, where one exists that can be checked beforehand, the exact condition under which the property does hold. The
cases are a spacing of pushes across restarts (`RestartBreaksSpacing`), a retry a full second late
(`DeadlineBetweenCheckAndSelect`), a notification that waits for the next commit (`StrandedNotification`), a lockout
with more than one caller (`MaxAttemptsBoundIff`, `ThreeAttemptsMayBeFour`, `PacedBoundIsReached`) and a login lock with more than one login
at a time (`TenFailuresIff`), a backoff that shrinks (`BackoffNeverDecreasesIff`), a finished backfill reopened by
another process (`FinishedForGoodIff`, `SkippedWhileAnotherDecides`), a window made twice by runs at the same time
(`OverlapRepeatsAWindow`), a token that expires while it is validated (`ExpiryBetweenTheLooks`), a cleanup
whose three-month limit moves back (`CleanupAbsorbsIff`), a row expired by hand and cleaned up the same day
(`HandExpirySurvivesIff`), a purge that depends on an earlier cleanup (`PurgeLooksAtTheFlag`), a count of new addresses that is not the count of new rows (`NewCountCountsRowsIff`), a
switch-off that comes too late (`LateSwitchOffHealsIff`), and a cache entry stored after its invalidation
(`CachedIsCurrentIff`, `LateStoreOutlivesInvalidation`).

Deduplicating collected items by the text of address and source would lose an address to a colon in a source name
(`ColonInSourceLosesAnAddress`). The collectors name their source REGTECH or leave it out, and of such names
`FirstsOfAddressesSurviveIff` says that nothing is lost.

The model follows the code where a comment or message says something else: a repeated log message is announced as
muted for one window, but stays muted for as long as it keeps coming (`SteadyStreamStaysSilent`).

Clocks do not run backwards, a sleep lasts at least as long as asked, and real arithmetic stands for floating
point. Every database commit that changes a published row sends its notification with it.

## Model

| member | source | states |
|---|---|---|
| CloudflareSync.NoChangeIsEverLost | app/core/services/cloudflare_push_service.py:326-431 | In every state of every run, with commits anywhere, failed pushes, replacements that land long after they were given up, crashes and restarts, a running listener whose list is not the current active-minus-whitelisted set has a sync pending, a notification queued, or was last stopped by the size guard. |
| CloudflareSync.SettledListIsExact | app/core/services/cloudflare_push_service.py:342-379 | With nothing pending, nothing queued and no guard stop, an address is on the remote list exactly when it is active and not whitelisted. |
| CloudflareSync.PublishableMembers | app/core/services/cloudflare_push_service.py:159-183 | The fetched addresses are exactly the active rows whose address is not whitelisted. |
| CloudflareSync.ListIsNeverEmptied | app/core/services/cloudflare_push_service.py:364-379 | In no run, whatever is in the tables or goes wrong, does the listener replace a list that has addresses by an empty one. |
| CloudflareSync.PushesAreSpaced | app/core/services/cloudflare_push_service.py:342-379 | Any two pushes of one process, failed ones included, are at least 60 s apart; across a restart too when the earlier one had landed before the later process read the age of the list. |
| CloudflareSync.RestartBreaksSpacing | app/core/services/cloudflare_push_service.py:342-379 | In each other case, never landed, landed after the reading, or no age to read, a run with two pushes at the same instant, on both sides of a restart, is reachable. |
| CloudflareSync.DeferredRetryIsNeverRateLimited | app/core/services/cloudflare_push_service.py:326-348 | A retry that waited for its deadline never meets the local rate limit again, whatever deferred it. |
| CloudflareSync.DeferredSyncIsTimely | app/core/services/cloudflare_push_service.py:333-420 | In every run, with commits, notifications and any other delays in between, `select` sleeps less than one second past the deadline of a deferred sync, and once it has slept any of it the head of the loop starts the sync; only when the deadline passes between the check and the call of `select` is it a full second. |
| CloudflareSync.MissedExactly | app/core/services/cloudflare_push_service.py:336-340 | A deadline counts as missed only when it had passed at the call of `select`. |
| CloudflareSync.DeadlineBetweenCheckAndSelect | app/core/services/cloudflare_push_service.py:336-420 | That full second is reachable. |
| CloudflareSync.QuietListenerStaysQuiet | app/core/services/cloudflare_push_service.py:414-424 | An idle listener with an empty socket does nothing until the next commit, landing or crash; a timeout never looks at the queued notifications. |
| CloudflareSync.StrandedNotification | app/core/services/cloudflare_push_service.py:414-424 | A state that is idle, out of date and holds a queued notification is reachable, so the queue is not emptied within any bound. |
| CloudflareSync.GuardMeansThreeTenths | app/core/services/cloudflare_push_service.py:225-247 | The size guard lets a list through exactly when the current one is below 50 or the new size lies between 7/10 and 13/10 of it. |
| CloudflareService.CloudflarePushService.constructor | app/core/services/cloudflare_push_service.py:392-412 | A started listener owes one reconcile and is a start of the machine. |
| CloudflareService.CloudflarePushService.DeferSync | app/core/services/cloudflare_push_service.py:326-331 | The change stays pending and its deadline is at least one second after the clock reading of the call. |
| CloudflareService.CloudflarePushService.SyncNow | app/core/services/cloudflare_push_service.py:342-379 | One sync of the machine: success exactly after a publication, pending exactly when neither published nor stopped by the guard, which leaves the time of the last push; when no call goes wrong it ends in one of the two rate limits, an empty list, the guard, or a publication. A retry is set a minute ahead after a failure, and between one second and a minute ahead after a rate limit. |
| CloudflareService.CloudflarePushService.SyncFromState | app/core/services/cloudflare_push_service.py:354-379 | The same past the local rate limit, which it never reports. |
| CloudflareService.CloudflarePushService.CheckLocalRate | app/core/services/cloudflare_push_service.py:349-352 | The sync goes on exactly when the last push is at least 60 s ago, else it stays pending until then, but at least a second. |
| CloudflareService.CloudflarePushService.CheckState | app/core/services/cloudflare_push_service.py:354-362 | It goes on exactly when the list could be read and is not known to have changed within 60 s, else it stays pending for a minute or until that change is 60 s old. |
| CloudflareService.CloudflarePushService.Reconcile | app/core/services/cloudflare_push_service.py:364-379 | The same for the part after the state of the list was read, with commits landing in between; nothing fetched, and only that, is put off as nothing to publish. |
| CloudflareService.CloudflarePushService.GuardedPublish | app/core/services/cloudflare_push_service.py:369-379 | The guard stops the push exactly when the sizes are too far apart, and then nothing is sent and the time of the last push stays; else that time is the instant of the send, whatever becomes of it. |
| CloudflareService.CloudflarePushService.Publish | app/core/services/cloudflare_push_service.py:373-379 | A push clears the pending flag exactly when it succeeds. |
| CloudflareService.CloudflarePushService.HandleChangeNotification | app/core/services/cloudflare_push_service.py:381-390 | One notification is taken from the queue and exactly one sync attempted for it; it stays pending unless published or stopped by the guard. |
| CloudflareService.CloudflarePushService.SyncIfDue | app/core/services/cloudflare_push_service.py:415-417 | At the head of the loop a sync that is due is attempted, no more than one, and none before its deadline. |
| CloudflareService.CloudflarePushService.BeginSelect | app/core/services/cloudflare_push_service.py:336-340 | The timeout is that of the moment of the call, not of the check: half a minute, or the time to the deadline between one second and half a minute. |
| CloudflareService.CloudflarePushService.AwaitChange | app/core/services/cloudflare_push_service.py:419-424 | A timeout goes back to the head of the loop and takes nothing; else there is a notification to handle. |
| CloudflareService.CloudflarePushService.Drain | app/core/services/cloudflare_push_service.py:423-426 | The inner loop attempts one sync for every notification it takes, until none is left. |
| CloudflareService.CloudflarePushService.RunOnce | app/core/services/cloudflare_push_service.py:414-424 | One pass of the loop against an arbitrary world attempts a sync that was due and one for every notification handled, and no change is lost. |
| CloudflareService.CloudflarePushService.Run | app/core/services/cloudflare_push_service.py:392-431 | Any number of passes are made, unless the last stops inside the inner loop, and no change is lost. |
| TokenBucket.WindowBound | collector/core/rate_limiter.py:65-128 | Over any run that mixes acquires, rate changes and resets, the tokens granted between two instants are at most one burst, plus the rate cap times the span, plus one burst for every reset in it. |
| TokenBucket.RunKeepsBounds | collector/core/rate_limiter.py:65-73 | Tokens stay between zero and the burst and the rate stays positive and under its cap. |
| TokenBucket.OneSleepSuffices | collector/core/rate_limiter.py:89-128 | After a failed try the computed wait is enough exactly when the request fits in the burst; a larger one fails at every instant. |
| TokenBucket.NoShorterSleep | collector/core/rate_limiter.py:121-128 | And no shorter one is enough, unless it is the least sleep of a hundredth of a second. |
| TokenBucket.OneTry | collector/core/rate_limiter.py:65-94 | A try pays the time since the last refill at the current rate, up to the burst, and takes all it asks for or nothing. |
| TokenBucket.PowsMultiply | collector/core/rate_limiter.py:152 | Powers of the factor are powers: one, the factor itself, and products for sums of exponents. |
| TokenBucket.BackoffNeverDecreasesIff | collector/core/rate_limiter.py:142-163 | For every factor and ceiling: along a streak the backoff never decreases, whatever the codes, exactly when the factor is at least two, or at least one with a ceiling the second step reaches, or factor or ceiling is zero and the other not negative; for factors from one on it stays between zero and the ceiling. |
| RateLimiters.RateLimiter.Acquire | collector/core/rate_limiter.py:75-128 | Without a timeout it grants after at most one sleep; with one it gives up only when the timeout is over; its turns are tries of the bucket, with one sleep between any two. |
| RateLimiters.RateLimiter.WaitAndRetry | collector/core/rate_limiter.py:120-128 | The sleep asked for is the missing tokens over the rate, at least a hundredth of a second; the next try is granted exactly when the request fits in the burst. |
| RateLimiters.RateLimiter.TryOnce | collector/core/rate_limiter.py:92-96 | One refill and one try leave the bucket that the run of recorded events describes. |
| RateLimiters.RateLimiter.OnSuccess | collector/core/rate_limiter.py:134-140 | A success ends the streak and its backoff. |
| RateLimiters.RateLimiter.OnFailure | collector/core/rate_limiter.py:142-163 | A failure lengthens the streak and sleeps half the power of the factor, doubled for the codes 429 and 503, both up to the ceiling. |
| RateLimiters.RateLimiter.Reset | collector/core/rate_limiter.py:190-197 | A full bucket and no streak, recorded as one reset. |
| RateLimiters.RateLimiter.GrantedInAnyWindow | collector/core/rate_limiter.py:65-128 | The window bound holds of every limiter object at every moment. |
| RateLimiters.AdaptiveRateLimiter.OnSuccess | collector/core/rate_limiter.py:234-248 | The tenth success in a row raises the rate by a fifth up to the maximum, at once for all time not yet refilled; the rate never leaves its bounds. |
| RateLimiters.AdaptiveRateLimiter.OnFailure | collector/core/rate_limiter.py:250-263 | A failure halves the rate down to the minimum and backs off; the rate never leaves its bounds. |
| RateLimiters.AdaptiveRateLimiter.Reset | collector/core/rate_limiter.py:265-271 | The initial rate and no streaks. |
| AuthLockout.LockoutBound | collector/core/rate_limiter.py:313-354 | With up to `callers` threads between their check and their report, events without a success hold at most as many attempts, reported or not, as there are failures to spare, plus one per caller, plus one per caller for every whole lockout between their ends. |
| AuthLockout.StretchBound | collector/core/rate_limiter.py:313-354 | The same for every stretch of a whole history: max_attempts - 1 + callers * (1 + lockouts). |
| AuthLockout.BoundIsReached | collector/core/rate_limiter.py:313-354 | For every number of callers and lockouts some history reaches that bound. |
| AuthLockout.MaxAttemptsBoundIff | collector/core/rate_limiter.py:313-354 | The bound one would expect, max_attempts plus one for every lockout, holds exactly for a single caller and at least one attempt. |
| AuthLockout.MoreThanCallersTakeALockout | collector/core/rate_limiter.py:340-349 | The count survives the lock: from the limit on, more attempts than callers take a whole lockout. |
| RateLimiters.AuthRateLimiter.WaitIfNeeded | collector/core/rate_limiter.py:313-328 | Two regions with the other threads in between: it refuses only while locked and admits whenever the lock is over, waits five seconds per failure at the check, thirty at most, and ends in an attempt whatever the others have reported meanwhile. |
| RateLimiters.AuthRateLimiter.CheckLock | collector/core/rate_limiter.py:313-326 | The region of the check: a refusal leaves no trace, an admission one more caller in flight, after the extra wait. |
| RateLimiters.AuthRateLimiter.TakeToken | collector/core/rate_limiter.py:328 | The region of the token: one of those past the check attempts. |
| RateLimiters.AuthRateLimiter.OnSuccess | collector/core/rate_limiter.py:330-338 | A success clears the count and the lock, also for attempts of others under way. |
| RateLimiters.AuthRateLimiter.OnFailure | collector/core/rate_limiter.py:340-354 | From the limit on every failure locks again at once, also those of callers admitted before; below it the region sleeps the backoff. |
| RateLimiters.AuthRateLimiter.AttemptsAreBounded | collector/core/rate_limiter.py:313-354 | The lockout bound holds of the attempts of all threads of every limiter object. |
| PacedAttempts.StretchedIsPaced | collector/core/rate_limiter.py:313-354 | The sleeps and the rate forbid no history: any history, its events moved apart by gaps that cover the longest sleep and the time to the next token, is again one of the lock and keeps every sleep. |
| PacedAttempts.OnwardIs | collector/core/rate_limiter.py:318-354 | The sleeps kept: five seconds for every failure at the check, thirty at most, twice a power of three after a failure that does not lock, sixty at most, and one token at the rate. |
| PacedAttempts.PacedBoundIsReached | collector/core/rate_limiter.py:313-354 | For every number of callers and of lockouts a history with every sleep and the rate kept reaches the bound of StretchBound, once the lockout is longer than the gaps of that history together. |
| PacedAttempts.ThreeAttemptsMayBeFour | collector/core/rate_limiter.py:313-420 | With its own configuration and two threads the limiter lets four attempts through within 49 seconds, every sleep and the rate kept. |
| Backfill.CompleteBackfillCovers | collector/scheduler/manual.py:80-113 | However many runs it took and wherever they stopped, once the state is complete a day from the last run's oldest day on lies in a collected, saved and checkpointed window exactly when it is not after the day of the first run. |
| Backfill.TopIsTheFirstRunsDay | collector/scheduler/manual.py:85-88 | The newest day of the windows is the day of the run that stored the first checkpoint. |
| Backfill.WindowsAreContiguousAndDisjoint | collector/scheduler/manual.py:89-112 | The checkpointed windows of all runs go newest first without gap or overlap; all but the last are seven days long, the last at most seven. |
| Backfill.AtMostThirteenWindows | collector/scheduler/manual.py:89-112 | Interruptions never cost an extra window. |
| Backfill.FirstRunMakesThirteenFullWindows | collector/scheduler/manual.py:80-112 | An uninterrupted first run makes exactly thirteen windows of seven days. |
| Backfill.WindowStartIs | collector/scheduler/manual.py:90 | A window is the week that ends on its last day, cut at the oldest day of the run. |
| Backfill.MakeWindow | collector/scheduler/manual.py:90-112 | One turn of the loop stores the next checkpoint after collecting and saving exactly when no call goes wrong, and leaves the stored state alone else. |
| Backfill.MakeWindows | collector/scheduler/manual.py:89-112 | The loop terminates; it makes all windows of the plan, in order, exactly when no call goes wrong, and always leaves a state to resume from. |
| Backfill.CollectRegtechBackfill | collector/scheduler/manual.py:68-127 | It terminates, reports the sum of what its saves have reported, and succeeds exactly when no call goes wrong; then the windows of the plan were made on top of those already checkpointed and the state is complete; every other return leaves a state to resume from. |
| OverlappingBackfills.OverlappingBackfillsCover | collector/scheduler/manual.py:80-113 | With any number of runs at the same time on one stored row, each begun, stopped and resumed anywhere: once any of them stores the finished state, every day from its oldest day up to the day of the first run lies in a window that some run collected, saved and checkpointed, and stays so. |
| OverlappingBackfills.OverlapRepeatsAWindow | collector/scheduler/manual.py:80-112 | What overlapping runs lose is that windows are disjoint: two runs that start together make the same window twice. |
| Scheduler.FinishedForGoodIff | collector/scheduler/manager.py:129-160 | A finished state stays finished and no tick of any process ever starts a backfill again, exactly when no process is then between reading an unfinished state and the end of its backfill. |
| Scheduler.SkippedWhileAnotherDecides | collector/scheduler/manager.py:136-150 | Such a process exists in a reachable finished state: two processes read that no row is stored and one of them skips; the state is finished, but not for good. |
| Scheduler.StartsAreCounted | collector/scheduler/manager.py:150 | A backfill counts as started exactly when a tick's request for one gets through. |
| Scheduler.OneProcessFinishesForGood | collector/scheduler/manager.py:129-160 | With one process at a time, killed and restarted at will, finished is always for good, and a cancelled job means finished. |
| Scheduler.RetriesWait | collector/scheduler/manager.py:136-160 | A backfill started after a failed tick of the same process starts at least 3600 s after that failure. |
| Scheduler.ActiveIsExactlyRunning | collector/scheduler/manager.py:248-291 | In every reachable state the active set of a process is exactly the sources of its forced runs, and no two of them share a source. |
| SchedulerService.CollectionScheduler.constructor | collector/scheduler/manager.py:36-61 | A new process has nothing active, may tick at once, and leaves the stored state. |
| SchedulerService.OthersAreFree | collector/scheduler/manager.py:248-291 | Between two steps of a thread nothing is ruled out but the steps of its own tick and the end of its own run: other processes, time and request threads do as they like. |
| SchedulerService.CollectionScheduler.ForceCollection | collector/scheduler/manager.py:248-291 | A source that is being collected is refused without a trace; every other call holds the source while it runs and gives it back on every exit; it succeeds exactly for REGTECH with usable credentials and no error. |
| SchedulerService.CollectionScheduler.CollectAndRelease | collector/scheduler/manager.py:255-291 | The part after the source is taken: it is given back on every exit, with other threads and processes running meanwhile. |
| SchedulerService.CollectionScheduler.Conclude | collector/scheduler/manager.py:153-160 | The source is free again; a success cancels the job, which then means that a finished state was stored, and a failure puts the next attempt an hour off. |
| SchedulerService.CollectionScheduler.Look | collector/scheduler/manager.py:139-141 | The stored state is read at one moment, and a finished one, and only that, ends the job. |
| SchedulerService.CollectionScheduler.ForceBackfill | collector/scheduler/manager.py:150-160 | It succeeds exactly when the source was free, the credentials usable and no call went wrong; then a finished state was stored and the job ends; else the next attempt is an hour off. |
| SchedulerService.CollectionScheduler.FinishBackfill | collector/scheduler/manager.py:258-291 | The source is given back whatever the result, with other threads and processes running meanwhile. |
| SchedulerService.CollectionScheduler.RunBackfill | collector/scheduler/manager.py:197-199 | The backfill changes the stored state only from the tick that holds the source and reports success only after storing the finished state. |
| SchedulerService.CollectionScheduler.InitialCollection | collector/scheduler/manager.py:129-160 | Before its time or while the source is active a tick does nothing; in a settled system it changes nothing; it cancels itself only when a finished state has been stored. When no call goes wrong a tick past its guard reads the state once: it cancels without a backfill exactly when that is finished, or there is none and there are rows, and asks for one exactly when it is neither and the credentials are there and enabled; a failed backfill is an hour's wait, missing credentials none. |
| SchedulerService.CollectionScheduler.ReadState | collector/scheduler/manager.py:136-141 | Past its guard a tick reads the state once, or puts itself off for an hour exactly when that raises; a finished state ends the job. |
| SchedulerService.CollectionScheduler.Decide | collector/scheduler/manager.py:142-160 | The rest of a tick that read an unfinished state: existing rows without a stored state, and nothing else, skip the backfill; it is asked for exactly when it is not skipped and the credentials are there and enabled; it cancels only on a skip or a completed backfill, and every failure waits an hour. |
| PageLoop.CollectBlacklistData | collector/core/regtech/collector.py:84-255 | All or nothing: what is returned is made of the complete yield of the first strategy that has one, processed or, when that raises, as it is; an error is that strategy's own, an error the loop does not expect, from a page or from the Excel download, ends the call with an empty list, and no list is cut short by a failed page. |
| PageLoop.CollectStrategy | collector/core/regtech/collector.py:157-242 | It terminates without a page limit; its list is the concatenation of distinct pages 1..n that ended on an empty page, the limit or the item cap. |
| PageLoop.StrategyIsDetermined | collector/core/regtech/collector.py:157-242 | That specification leaves no choice: the portal alone decides pages and result. |
| PageLoop.TryPage | collector/core/regtech/collector.py:165-204 | Up to three attempts, the first page delivered, or the error the attempts add up to. |
| PageLoop.PageOfExactly | collector/core/regtech/collector.py:165-204 | From the portal's answers alone: a page is delivered exactly when some attempt got it, all before it failed and none of them reached the block threshold; an unexpected error ends it exactly at the first attempt that did not fail; three failures that never reached the threshold, and only they, are a failed page. |
| PageLoop.SignatureTells | collector/core/regtech/collector.py:203-220 | Two pages have one signature exactly when they agree, item by item, in the stable fields. |
| PageLoop.BlockedExactly | collector/core/regtech/collector.py:165-182 | A page counts as blocked exactly when some attempt ends a row of block signals as long as the threshold, with only failures before it; a threshold above three turns that off, one of zero or less makes it of any first failure. |
| PageLoop.EffectiveLimitKeepsCapacity | collector/core/regtech/collector.py:95-104 | The page limit in portal pages is the least that holds the requested capacity. |
| PostProcessing.PostProcess | collector/core/regtech/data_processor.py:12-30 | The processed list is the first valid item of every address and source, in order, with its own address, the source REGTECH and the enhanced fields. |
| PostProcessing.FastDeduplication | collector/core/regtech/data_processor.py:32-42 | The first item of every key text, in order. |
| PostProcessing.FirstsOfOneMore | collector/core/regtech/data_processor.py:32-42 | One more item at the end adds itself, unless its key is that of an earlier one. |
| PostProcessing.ValidItemsOfOneMore | collector/core/regtech/data_processor.py:18-23 | One more collected item adds itself with its address trimmed, when that is valid. |
| PostProcessing.KeyTextIs | collector/core/regtech/data_processor.py:37 | The key text is the address, a colon and the source, REGTECH when the item has none. |
| PostProcessing.KeysCollideIff | collector/core/regtech/data_processor.py:36-40 | Two items share a joined text exactly when address and source are the same, or one address is the other, a colon and a text that the other's source begins with, followed by a colon. |
| PostProcessing.FirstsOfAddressesSurviveIff | collector/core/regtech/data_processor.py:12-42 | Deduplicating by joined text first leaves the first item of every address exactly when none of these shares its joined text with an item before it; sources without a colon never do. |
| PostProcessing.SavedItemIsTheFirstValidOne | collector/core/regtech/data_processor.py:12-42 | Then deduplicating the processed list by address keeps the first valid collected item of every address, enhanced. |
| PostProcessing.ColonInSourceLosesAnAddress | collector/core/regtech/data_processor.py:12-42 | That the other sources can do harm: of two valid items with two routable addresses, the second is lost when both sources hold the right texts, one of them with a colon, which no collector sends. |
| SessionTokens.ValidatesExactly | app/core/auth/jwt_service.py:76-104 | In every reachable state an issued token validates exactly when it has not expired, was never revoked and carries the current version: the forgetting store answers like one that never forgets. |
| SessionTokens.RevokedStaysDead | app/core/auth/security.py:148-154 | A revoked token validates in no state of any later run. |
| SessionTokens.TtlCoversTheToken | app/core/auth/security.py:151-154 | The entry lives until the token is dead and is gone within a second after. |
| SessionTokens.RotationEndsOlderSessions | app/core/services/auth_state_service.py:145-171 | After a successful rotation no token issued before, and none issued later from credentials read before, ever validates again. |
| SessionTokens.RotationNeeds | app/core/services/auth_state_service.py:145-175 | A rotation goes through exactly with an acceptable new password and the right current one; it keeps the name, sets the password and raises the version by one. |
| SessionTokens.VersionsNeverLead | app/core/services/auth_state_service.py:52-122 | The stored version never falls and no issued token carries a higher one. |
| SessionTokens.ReadingIsHarmlessOnceConfigured | app/core/services/auth_state_service.py:66-90 | Reading complete settings changes nothing, whatever the defaults. |
| SessionTokens.UpgradeKeepsLogins | app/core/services/auth_state_service.py:124-143 | Replacing a plain password by its hash admits exactly the same candidates and leaves every session. |
| SessionTokens.VerifiesExactly | app/core/auth/security.py:100-113 | A hash lets in the candidate it was made from, a stored plain password its first 72 bytes, a missing one nobody, and no candidate is longer than that. |
| TokenServices.JWTService.EncodeToken | app/core/auth/jwt_service.py:50-74 | A new identifier, the version the caller read or the one current at the start, never above the stored one, and an expiry of 3600 seconds for every hour after the start of the call, cut to a whole second. |
| SessionTokens.DecodesUntilExpiry | app/core/auth/jwt_service.py:76-82 | Once issued, a token decodes in every later state exactly until its expiry; before it is issued it decodes in none. |
| SessionTokens.TokenLivesItsHours | app/core/auth/jwt_service.py:57-82 | In every later state a token issued for some hours decodes exactly while the clock is below the whole second in which they are over, counted from its issue. |
| TokenServices.JWTService.ValidateToken | app/core/auth/jwt_service.py:84-104 | With other requests between its three looks: it is refused, accepted or, exactly after an error of store or database, unavailable; an accepted token was alive at the start, carries the version current at the end, and, unless it expired during the call, had not been revoked before it; a refused one does not validate at the end. |
| TokenServices.ExpiryBetweenTheLooks | app/core/auth/jwt_service.py:84-104 | The exception is real: decoding before the expiry and asking the store after it lets a revoked token pass both. |
| TokenServices.JWTService.RevokeToken | app/core/auth/jwt_service.py:106-114 | A token whose revocation succeeded is on record and does not validate. |
| TokenServices.AuthSecurity.Revoke | app/core/auth/security.py:151-154 | A time to live from an earlier clock reading still covers the token. |
| TokenServices.AuthSecurity.IsRevokedNow | app/core/auth/security.py:148-149 | For every token still alive the answer of the forgetting store is whether it was ever revoked. |
| TokenServices.AuthStateService.CurrentSessionVersion | app/core/services/auth_state_service.py:99-122 | The version that no issued token leads and every live session has; the refusal of a negative one is never taken. |
| TokenServices.AuthStateService.GetCredentials | app/core/services/auth_state_service.py:52-97 | Missing rows are filled from the defaults, all or nothing; a refused default password stores nothing; unavailable exactly after a database error. |
| TokenServices.AuthStateService.RotatePassword | app/core/services/auth_state_service.py:145-171 | The policy is asked first; success raises the version by one, ends every session and admits exactly the new password; every other result changes nothing. |
| LoginFailures.FailuresTakeALockPeriod | app/core/auth/security.py:130-143 | With up to `logins` logins between their check and their record, any 2 * (4 + logins) failures of one key without a success take at least the 900 s of a lock: ten with one login at a time, sixteen with four. |
| LoginFailures.TenFailuresIff | app/core/auth/security.py:130-143 | Ten failures, twice the limit, take a lock period exactly when logins come one at a time. |
| LoginFailures.FailuresFit | app/core/auth/security.py:130-143 | No window of a key ever counts more than four failures and one per login in flight. |
| LoginFailures.BoundIsReached | app/core/auth/security.py:69-143 | One failure fewer does not: for every number of logins all but the first of that many come within half a second, at the end of one window and the start of the next. |
| LoginFailures.RestAndOneWindow | app/core/auth/security.py:69-78 | What is left of the current window and one full window take a lock period, for every capacity of a window. |
| LoginFailures.AuthSecurity.IsLoginLocked | app/core/auth/security.py:130-139 | A refusal is deserved, by at least five failures on the client or the account within the last 900 s; a login let in is in flight on both keys. |
| LoginFailures.AuthSecurity.Increment | app/core/auth/security.py:69-78 | One more failure of a key, whatever has become of its counter since the check: the first of a window sets the expiry, later ones only count. |
| LoginFailures.AuthSecurity.RecordLoginFailure | app/core/auth/security.py:141-143 | A failure is counted once for the client and once for the account, also when others have locked them meanwhile, and every counter stays the count of its latest failures. |
| LoginFailures.AuthSecurity.ClearLoginFailures | app/core/auth/security.py:145-146 | A success forgets both counters and no other. |
| LoginFailures.AuthSecurity.AccountFailuresAreSpaced | app/core/auth/security.py:130-146 | Whatever addresses they come from, so many failures on one account without a success between take a lock period. |
| BlacklistTable.CleanupClosedForm | collector/scheduler/cleanup.py:16-46 | After the cleanup a row is active exactly when its removal date is today or later, or it has none, was active and is not older than three months; nothing else changes. |
| BlacklistTable.CleanupAbsorbsIff | collector/scheduler/cleanup.py:16-46 | Cleaning on one date and then on another equals cleaning on the second, for every table, exactly when the three-month limit does not move back. |
| BlacklistTable.LaterCleanupAbsorbsEarlier | collector/scheduler/cleanup.py:16-46 | So on calendar days in order an earlier cleanup leaves no trace. |
| BlacklistTable.ThreeMonthsBeforeIsMonotone | collector/scheduler/cleanup.py:29-30 | The limit of three months, cut to the month's last day, is a calendar day and never moves back. |
| BlacklistTable.ThreeMonthsBeforeIs | collector/scheduler/cleanup.py:31 | It is the same day three months earlier, or the last one that month has. |
| BlacklistTable.MonthLengths | collector/scheduler/cleanup.py:31 | Months are as long as on the calendar, leap years included. |
| BlacklistTable.DatesCompare | collector/scheduler/cleanup.py:22 | Dates compare as their days on the calendar, and a missing one with none. |
| BlacklistTable.CleanupAbsorbsExpiry | app/core/services/expiry_service.py:34-64 | An expiry pass on any day changes nothing after a cleanup. |
| BlacklistTable.UpsertsDisagreeExactlyToday | collector/core/database/queries.py:177-191 | For an existing row the collector's and the application's rules set its activity differently exactly when the effective removal date is today and the item is active; the removal date is always the same. |
| BlacklistTable.CleanupReconcilesUpserts | app/core/services/database_service.py:226-237 | A cleanup the same day makes them agree on every row. |
| BlacklistTable.RedetectionNeverRevivesExpired | collector/core/database/queries.py:177-187 | Detecting an address again without a removal date never revives a row whose kept date has passed. |
| BlacklistTable.RedetectionDoesNotRefreshAge | collector/core/database/queries.py:177-191 | Neither rule refreshes the detection date: an old row without a removal date is switched off by every cleanup however often it is detected. |
| BlacklistTable.CollectorUpsertCollects | collector/core/database/queries.py:168-192 | Field by field: a new row is the item; a found one counts once more, keeps its confidence, detection date and data source, takes the item's removal date and country if it has them, and its reason, sighting and raw data; either is active exactly when the item is and its removal date has not passed. No other row changes. |
| BlacklistTable.ManualBlockSurvivesIff | app/core/services/blacklist_repository.py:34-57 | A manual block survives the next cleanup exactly when the row is new or its kept dates would not end it. |
| BlacklistTable.ManualBlockWrites | app/core/services/blacklist_repository.py:41-57 | A manual block sets reason, confidence and activity of its row and nothing else; a new row has the defaults of the table. |
| BlacklistHistory.ActivityOfHistory | collector/scheduler/cleanup.py:16-46 | After any interleaving of the saves, blocks, edits, additions, removals and deletions of any rows, expiry passes and cleanups on days in order, and a cleanup at its end, a row is active exactly when its removal date as the writers left it is today or later, or it has none, was last wanted active, and was detected no more than three months ago. |
| BlacklistHistory.UpsertsLeave | app/core/services/collection/collection_persistence.py:24-44 | What this upsert and the application's leave of removal date, detection date and activity, and that no other row changes. |
| BlacklistHistory.HandWorkLeaves | app/core/routes/api/ip_management/repository.py:383-470 | The same for relisting, creating, expiring and editing a row by hand. |
| BlacklistHistory.ManyRowsLeave | app/core/services/blacklist_repository.py:125-129 | The same for switching off a source, adding and removing in batches, deleting and purging: exactly which rows are gone, off or new. |
| BlacklistHistory.CleanupMakesUpForTheRest | collector/scheduler/cleanup.py:16-46 | As long as no writer looks at the flag it finds, a cleanup makes up for every expiry pass and every cleanup that did or did not run before it. |
| BlacklistHistory.HandExpiryLooksAtTheFlag | app/core/services/expiry_service.py:126-163 | Expiring an old row by hand is different: what it does depends on whether a cleanup ran before it. |
| BlacklistHistory.PurgeLooksAtTheFlag | collector/core/data_quality_manager.py:300-307 | So is the purge of aged inactive rows: an active one without a removal date stays unless a cleanup ran before and found it older than three months. |
| BlacklistHistory.HandExpirySurvivesIff | app/core/services/expiry_service.py:156-163 | A row expired by hand stays off after a cleanup exactly when that is on a later day; the same day switches it on again. |
| BlacklistHistory.SwitchOffSurvivesIff | app/core/services/blacklist_repository.py:125-129 | A row switched off without a date stays off exactly when no removal date of today or later revives it. |
| BlacklistHistory.PassiveAreNotNoted | app/core/services/collection/collection_persistence.py:30-44 | Saves, also the one that refreshes the detection date, and blocks leave the same gist whether or not expiry passes and cleanups ran between them. |
| BlacklistHistory.EventKeepsAgreement | app/core/routes/api/ip_management/repository.py:383-420 | Each writer, also the address editor that sets dates to NULL, keeps what matters of the history readable from the row. |
| BlacklistStore.FilterInvalidIps | collector/core/database/queries.py:14-60 | Exactly these items, in their order, and the number of the others. |
| BlacklistStore.KeptExactly | collector/core/database/queries.py:30-54 | Every item with a non-empty, routable address whose removal date is none or not before today is kept as often as it occurs, and no other item. |
| BlacklistStore.MemoryOptimizedDedup | collector/core/database/queries.py:62-77 | The first item of every address, cut at the size limit. |
| BlacklistStore.CappedIs | collector/core/database/queries.py:73-75 | The cut list is everything, or as many of the first items as fit. |
| BlacklistStore.FirstsAreDistinct | collector/core/database/queries.py:62-77 | Deduplicated items have distinct, non-empty addresses and come from the list. |
| BlacklistStore.FirstsCoverAddresses | collector/core/database/queries.py:62-77 | No address is lost: each keeps its first item. |
| BlacklistStore.FirstsOfOneMore | collector/core/database/queries.py:62-77 | One more item at the end adds itself, unless its address is empty or that of an earlier one. |
| BlacklistStore.FoldSplits | collector/core/database/queries.py:109-112 | Upserting in two batches is upserting in one, so batch borders do not matter. |
| BlacklistStore.FoldRowByRow | collector/core/database/queries.py:177-191 | For distinct addresses a save upserts every listed row once from its old value and leaves every other row. |
| BlacklistStore.CountsAddUp | collector/core/database/service.py:279-282 | New and existing addresses together are the list, also after a lookup that failed half way. |
| BlacklistStore.NewCountCountsRowsIff | collector/core/database/service.py:279-282 | The count of new addresses never exceeds the rows a save adds and equals them exactly when no listed address was known only from another source. |
| BlacklistStore.BlacklistDatabase.BatchCheckExistingIps | collector/core/database/queries.py:79-107 | The listed addresses stored under any source; after an error, some of them. |
| BlacklistStore.BlacklistDatabase.CountNewAndStored | collector/core/database/service.py:280-283 | The two counts add up to the list, and without an error the first is the number of listed addresses stored under no source. |
| BlacklistStore.BlacklistDatabase.BatchInsert | collector/core/database/queries.py:121-197 | Without an error a chunk is upserted item by item and counted; an error of the server spoils the transaction, one of the driver itself leaves the first rows of the chunk in it, and either way the chunk counts as nothing. |
| BlacklistStore.BlacklistDatabase.InsertChunks | collector/core/database/service.py:297-306 | All chunks together are the one-at-a-time fold over what was kept, in order; without an error that is everything, whatever the chunk size. |
| BlacklistStore.BlacklistDatabase.SaveBlacklistIps | collector/core/database/service.py:253-340 | The table afterwards is untouched or the fold over a sublist of the filtered, deduplicated list; with no error it is the fold over all of it. Whatever fails, every new or different row is made from a routable, not outdated item of the list and the row found; with no error and within the size limit every acceptable address has the row of its first item and the total is their number; the two counts always add up to the list, with no error the first is the number of acceptable addresses stored under no source before, and a committed save whose total is that of the list lacks nothing. |
| BlacklistStore.SaveJustifiesRows | collector/core/database/service.py:253-340 | Every row that a save adds or changes has the routable address of an acceptable item of the list and was made from that item and what was there before; no row is lost. |
| BlacklistStore.SaveStoresFirsts | collector/core/database/service.py:253-340 | Within the size limit the first acceptable item of every address is the one its row is made from. |
| BlacklistStore.BlacklistDatabase.SaveUnique | collector/core/database/service.py:277-340 | The same for the filtered, deduplicated list; a transaction that an error has spoiled is never committed. |
| BlacklistStore.BlacklistDatabase.Commit | collector/core/database/service.py:320 | The work is stored exactly when the transaction was sound and the commit went well. |
| BlacklistStore.SublistIsShorter | collector/core/database/service.py:297-306 | A save that counts every item of the list has kept the list. |
| BlacklistStore.ChangedAre | collector/scheduler/cleanup.py:16-46 | The first update changes exactly the active rows whose removal date has passed, the second the active ones without one found more than three months ago, the third the inactive ones with one of today or later. |
| BlacklistStore.ActivityIsConserved | collector/scheduler/cleanup.py:16-49 | The active rows after a cleanup are those before, less the two numbers switched off, plus the number switched on. |
| BlacklistStore.BlacklistDatabase.CleanupExpiredIps | collector/scheduler/cleanup.py:11-60 | The three updates are committed together or none is, and each count is the number of rows its update is for. |
| BlacklistStore.BlacklistDatabase.CheckAndDeactivateExpiredIps | app/core/services/expiry_service.py:28-88 | With success, exactly when no call fails, the rows listed as overdue are switched off, whatever was written since they were listed; without other writers that is exactly the overdue rows; else nothing is switched off. |
| BlacklistStore.LateSwitchOffHealsIff | app/core/services/expiry_service.py:34-64 | The next cleanup repairs a switch-off that came too late exactly when no listed row has become active without a removal date. |
| DecisionCache.HitsAreRecentReadings | app/core/services/blacklist_service.py:73-192 | Whatever interleaves, a hit serves what the database did say less than 300 s, and the store's own lag, ago. |
| DecisionCache.CachedIsCurrentIff | app/core/utils/ip_cache.py:8-15 | Once every write was followed by an invalidation, a cached reading is of the current rows exactly when no write fell between its database read and its store. |
| DecisionCache.CleanAnswerIsUncached | app/core/utils/ip_cache.py:8-15 | With checks no write interrupts, and every write invalidated before the check, the answer is the uncached one. |
| DecisionCache.LateStoreOutlivesInvalidation | app/core/services/blacklist_service.py:96-102 | Without that, an old whitelisting stored after the invalidation hides a new block for the whole time to live. |
| DecisionCache.AnswerOfNoMoment | app/core/services/blacklist_service.py:117-192 | The two readings may be of different ages: an answer may be one the uncached procedure would have given at no moment. |
| DecisionCache.BlacklistService.IsWhitelisted | app/core/services/blacklist_service.py:73-115 | The answer is a whitelist state the database had less than the time to live and lag before the call, with any requests between its steps and any Redis failure; as long as Redis answers, a live entry is used and what is used is what the cache then holds; without an answer of the database the address counts as not whitelisted. |
| DecisionCache.BlacklistService.CheckBlacklist | app/core/services/blacklist_service.py:117-192 | When the database answers, an address is blocked exactly when it is listed and not whitelisted, on a whitelist and a blacklist state the database had that recently; the reason is the whitelisting, the row's own or its default, or that it is not listed, with the row's source and count; when it does not, the missing whitelist state counts as not listed and the missing blacklist state as not blocked. |
| DecisionCache.BlacklistService.ListedAnswer | app/core/services/blacklist_service.py:128-187 | As long as Redis answers, a live entry is used, and what is answered is what the cache then holds; a listed address is blocked for its row's reason, an unlisted one is not, and an error of the database is answered as not blocked. |
| DecisionCache.BlacklistService.InvalidateIpCaches | app/core/utils/ip_cache.py:8-15 | Both entries of the address go at once; a delete that raises leaves both, and a write without its invalidation; without a client nothing happens. |
| MultiSource.DeduplicateAndEnhance | collector/core/multi_source/collector.py:307-325 | The dictionary loop computes one item per group, groups in the order of their first item, or the first error. |
| MultiSource.OneItemPerAddress | collector/core/multi_source/collector.py:307-325 | One item per address, in first-seen order. |
| MultiSource.AddressesInOrder | collector/core/multi_source/collector.py:307-315 | The addresses come in the order of their first occurrences. |
| MultiSource.AddressesAre | collector/core/multi_source/collector.py:307-315 | They are exactly the non-empty addresses that occur. |
| MultiSource.ItemOfAnAddress | collector/core/multi_source/collector.py:307-356 | An address with one item keeps it; a group becomes the fields of its first item of the greatest confidence, the first of its longest reasons, all its sources in order, the sum of its detections, its earliest date, and its average confidence, cut toward zero and raised by two for every item, up to 100. |
| MultiSource.MissingFields | collector/core/multi_source/collector.py:311-339 | What a missing confidence, count, source or reason counts as, and which addresses and dates count at all. |
| MultiSource.BelowExactly | collector/core/multi_source/collector.py:339 | In text order the first difference decides, or the end of the shorter text. |
| MultiSource.DetectionsAreConserved | collector/core/multi_source/collector.py:327-356 | For every address the detections after merging are those before, a missing count being one. |
| MultiSource.InstalmentsCountTheSame | collector/core/multi_source/collector.py:307-356 | Merging in instalments counts every address as merging at once does. |
| MultiSource.SecondPassIsIdentity | collector/core/multi_source/collector.py:307-325 | A second pass changes nothing. |
| MultiSource.ConfidencesStayInRange | collector/core/multi_source/collector.py:332-334 | For inputs between zero and 100 every confidence lies between the least of its group and 100. |
| MultiSource.MergeRaisesIff | collector/core/multi_source/collector.py:336 | Merging raises exactly when no item of the group gives a reason and the first lacks the field. |
| MultiSource.DeduplicationRaisesIff | collector/core/multi_source/collector.py:307-336 | The whole raises exactly when such a group of two or more exists. |
| MultiSource.FirstMaxIsFirstAndGreatest | collector/core/multi_source/collector.py:328-336 | The base item and the reason come from the first item with the greatest confidence and length. |
| MultiSource.EarliestIsLeast | collector/core/multi_source/collector.py:338-339 | The merged date is the least in text order of those given, none when none is. |
| DuplicateFilter.PassesExactly | app/utils/structured_logging.py:32-62 | A record passes exactly when fewer than the limit of earlier ones with its key, muted ones included, are less than the window old. |
| DuplicateFilter.WindowBound | app/utils/structured_logging.py:27-62 | In any span shorter than the window at most the limit of records with one key pass, however many come. |
| DuplicateFilter.PruningIsHarmless | app/utils/structured_logging.py:32-35 | Pruning at one instant never changes what is recent at a later one. |
| DuplicateFilter.SteadyStreamStaysSilent | app/utils/structured_logging.py:37-62 | Muted records count too: a stream whose gaps are small enough is silent after its first records for as long as it lasts. |
| DuplicateFilter.RecordFilter.Filter | app/utils/structured_logging.py:27-62 | The verdict on the pruned list is the verdict on the whole history of the key, and a key is muted exactly while its latest record did not pass. |

## Left out

- HTTP, curl, SSH, SQL drivers, threads and Flask routes: their outcomes are free choices of the model.
- Cryptography: signatures cannot be forged, hashes do not collide, identifiers are new, and a page's six stable fields stand for their SHA-256 signature.
- HTML, Excel and JSON parsing, date formats, country names and address ranges: uninterpreted predicates or fields.
- Cloudflare listener: the endless loop and the draining of notifications stop after any given number of turns; the list is edited by nobody else and its age is exact when readable; the account applies replacements in the order in which they were sent, or drops them; `select` never oversleeps its timeout, any such delay comes after it; the driver may hand over notifications while a query runs; credentials, HTTP retries and the polling of an operation are one success or failure.
- RateLimiters.RateLimiter.Acquire: a request above the burst without a timeout never returns and is excluded; rates are positive, since a rate of zero divides by zero; the statistics are not kept.
- AuthLockout.MaxAttemptsBoundIff: is about the lock alone; the sleeps and the rate of the limiter, which keep the attempts of one object some seconds apart, only rule runs out, and ThreeAttemptsMayBeFour keeps them all.
- RateLimiters.AuthRateLimiter.WaitIfNeeded: an attempt whose thread dies before its report stays in flight for good; the administrator's reset of this limiter is not modelled.
- Backfill.CompleteBackfillCovers: days after the first stored run belong to the daily collection; a window counts once its collect and save calls returned, though a failed login returns an empty list and a save swallows its errors; this module has one run after the other, OverlappingBackfills any number at once.
- Scheduler: starting, stopping, the adaptive interval, the daily job, manual collections (they touch neither the active set nor the stored state) and statistics; the end of a failed backfill and the setting of its retry time are one step.
- PageLoop.CollectBlacklistData: the page cache, performance log and request pacing are not modelled; strategies are numbers, and Excel rows and the processing of the finished list parameters.
- SessionTokens: password bytes are counted as characters, subjects are not empty, the store evicts nothing and shares the clock of the application, settings rows are never soft-deleted.
- TokenServices.JWTService.EncodeToken: a caller passes only a version it has read from the credentials; a service without revocations or session versions is not modelled.
- LoginFailures.AuthSecurity.IsLoginLocked: at most `logins` logins of one key are between check and record, which the number of request threads bounds; errors of the store are not modelled.
- BlacklistTable: one date stands for the application's today and the database's; activity is never NULL; time stamps other than the last sighting are not kept.
- BlacklistStore.BlacklistDatabase.SaveBlacklistIps: the chunk size is positive, as the configuration check demands; the collection statistics are not modelled.
- BlacklistHistory: an edit that moves a row to another address or source, and the migrations of the schema; creation times, so the rows a purge counts as aged and those beyond the newest million are any; row numbers stand for their rows.
- PacedAttempts.PacedBoundIsReached: the length it asks of the lockout is enough, not the least; with a fixed lockout the sleeps of many callers add up to more than it.
- DecisionCache: an address has one blacklist entry, read as a function of the rows; decision logs and metrics are left out.
- MultiSource: a field is absent or has its usual type; confidences and counts are whole numbers.
- DuplicateFilter.WindowBound: the limit is not negative; no notice is logged for a muted message, because the code builds that record and drops it.
- Metrics, scores, A/B buckets, pagination, configuration, health endpoints, bundle scripts, the user interface, and the eviction of a cache that nothing fills.
