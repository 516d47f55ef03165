# Verified models of the backend's stateful parts

A study app keeps notes, tasks and study sessions in Postgres, caches reads in
Redis, throttles clients in memory, and shows activity as streaks. This project
models the parts whose correctness depends on whole runs rather than on single
calls, and proves what those parts are for.

`dafny verify dfyconfig.toml` checks everything.

| module | what it models |
|---|---|
| `Database`, `Contents`, `CacheProtocol`, `CachedServices`, `CacheLifetimes`, `CacheKeys`, `Calendar` | the versioned cache-aside protocol as a step system with any number of readers and writers, the queries behind it and what they show, the services' reads and writes statement by statement, and the key texts |
| `AllocationCache`, `Allocation` | the allocation report: its arithmetic, and its cache, which reads one version too late |
| `Streaks`, `StreakBatch`, `StreakIntake` | streak computation, the batched cached read over it, the client's incremental count, and where activity comes from |
| `TimeLogs`, `RateLimiter`, `LoginLockout` | the two in-memory sliding-window trackers and their eviction |
| `RefreshTokens`, `RefreshOverlap` | refresh-token rotation with reuse detection (section 5.2.2.3 of RFC 6819), with requests one at a time and overlapping |
| `Tasks`, `Push`, `DueReminders`, `ReminderRuns`, `StampDates`, `PodNudges` | the notification jobs and the edits, joins and leaves that race with them |
| `FocusTimer` | the client's timer |

Code that updates state in place is a class whose methods are proved equal to a
function of the old state; runs are sequences of events folded with those
functions, and the theorems are about all runs. A tick of the timer is a second. Instants are whole seconds (the
limiters use real seconds), days are seconds divided by 86 400, shares are reals.

## What the proofs say about the code

- **The cache comment holds** (`core/cache.py:131-138`): no read that takes its
  versions after a write's bump landed returns data from before that write. It
  does so under three conditions: version reads and bumps succeed, counters are
  never lost, and each statement sees the latest commits.
- **The allocation report is an exception.** It loads the subjects before it
  takes the reference version of its cache key, so a reseeding in between files a
  report on old weights under the new version, and its planned shares are wrong. `ReferenceHalfFreshIff` shows
  that this is so for every pair of different versions, and only for those.
- **A lockout can be shorter than the 15 minutes the code documents**
  (`services/auth_service.py:19-28`). Pruning reopens the account when the fifth
  latest failure leaves the window, whatever `_LOCKOUT_SECONDS` says.
  `LockedIff` gives the exact condition, `FullLockoutIff` says when the
  documented duration is kept, and `LockoutEndsEarly` is a run of five failures
  whose lock is gone two seconds after it began.
- **A due date moved while the due-task job is sending is stamped as announced
  although it was not** (`MoveDuringJobIsSwallowed`), and so is one moved by an
  edit that loads its task before the job and commits after it
  (`MoveAroundJobIsSwallowed`). `StampIsCurrentIff` is the exact condition.
- **One date can be announced twice.** A retried edit that rewrites the date
  already stored still clears its stamp (`RetriedEditRepeatsNotice`);
  `StampedAgainIff` says exactly when.
- **Overlapping edits can leave a completion time on an open task**
  (`OverlapLeavesCompletion`), which then counts for streaks.
- **Overlapping refreshes fork the rotation chain** (`OverlapForksTheChain`), and a
  refresh in flight survives signing out everywhere (`SignOutEscapedIff`).
- **The client's streak outlives the server's.** They agree through the day after
  the last session; from then on the server shows 0 and the client does not.
- **Two backdated days come for free.** A streak can exceed the days since a
  user's first write by two, and never by more.

## Model

| member | source | states |
|---|---|---|
| `CacheProtocol.RunInv` | backend/app/core/cache.py:131-168 | Every step of readers, writers, expiry and time keeps the invariant: each stored entry and each read in flight answers from a database prefix that contains every commit its versions count; logs, counters and clock only grow |
| `CacheProtocol.EntriesContainTheirBumps` | backend/app/core/cache.py:131-138 | In every interleaving, an entry under version v was queried from a database holding all commits behind the first v increments of its counter |
| `CacheProtocol.ReadsSeeBumpedWrites` | backend/app/core/cache.py:131-138 | A read that takes its versions after a write's bump landed never answers from before that write, however many readers and writers interleave |
| `CacheProtocol.SettledMeansSeen` | backend/app/core/cache.py:145-168 | With no relevant bump outstanding when versions are taken, an answer covering those versions has seen every relevant commit there was |
| `CacheProtocol.SettledAnswerIsDirect` | backend/app/core/cache.py:145-168 | Such an answer equals an uncached query at some moment after the versions were taken |
| `CacheProtocol.CachedReadIsDirectRead` | backend/app/services/note_service.py:47-72 | A cached note, task, exam or streak read with no relevant bump outstanding is linearizable: it is a direct read at some moment of its own duration. A session list answers from the database of such a moment, with the clock of its query |
| `CacheProtocol.UndisturbedReadIsCurrent` | backend/app/services/task_service.py:57-88 | If also no relevant commit falls within the read, it equals a direct database read at its end |
| `CacheProtocol.CachedWindowAgesGracefully` | backend/app/services/exam_prep_service.py:140-164 | With no study bump outstanding at its start, a cached session list misses nothing of the true window at the read's end, as the database stood at a moment of the read, and keeps its order; its only extras are sessions that aged out since the entry was queried |
| `CacheProtocol.CachedWindowHasOnlyAgedExtras` | backend/app/services/exam_prep_service.py:140-164 | If no study commit falls within the read either, that is the window of the database at its end |
| `Calendar.DateOfInjective` | backend/app/services/pod_service.py:85-87 | Different day numbers are different civil dates, counted on from 0001-01-01 with leap years |
| `Calendar.DateOfDayNumber` | backend/app/services/pod_service.py:85-87 | Every civil date is the date of its day number in closed form; day 0 is 1970-01-01 |
| `CacheProtocol.StoreKeysNeverCollide` | backend/app/core/cache.py:141-142 | Entries share a Redis key only if request and versions coincide, and never sit on a counter's key: modelling the store as a map is sound |
| `Database.ReadsIgnoreOtherCommits` | backend/app/services/pod_service.py:90-101 | Each read is keyed on enough counters: commits that bump none of them never change its answer |
| `Database.SameAnswer` | backend/app/core/cache.py:131-138 | Two database states with no relevant commit between them answer a request alike |
| `Database.CutOfOrdered` | backend/app/services/exam_prep_service.py:151-160 | Restricting a latest-first session list to a later window gives the latest-first list of that window |
| `Database.WindowAgesGracefully` | backend/app/services/exam_prep_service.py:140-164 | A window queried at q contains the window at any later t, in order; the extras lie between q − W and t − W |
| `Contents.NoteShowsLastWrite` | backend/app/services/note_service.py:47-72 | The last write of a note decides what reading it shows: its row, or not found after a deletion; the list agrees |
| `Contents.UnwrittenNoteIsAbsent` | backend/app/services/note_service.py:27-34 | A note never written is neither found nor listed |
| `Contents.TaskShowsLastWrite` | backend/app/services/task_service.py:57-88 | The same for tasks, field by field; a list filtered by status has the task exactly if it was last written with that status |
| `Contents.UnwrittenTaskIsAbsent` | backend/app/services/task_service.py:31-38 | A task never written is neither found nor listed |
| `Contents.ReferenceShowsLastSeeding` | backend/app/services/exam_prep_service.py:48-101 | The last seeding of a track decides its exam date and its subjects |
| `Contents.UnseededTrackIsUnknown` | backend/app/services/exam_prep_service.py:48-101 | A track never seeded has no exam date and no subjects |
| `Contents.WindowHoldsLoggedSessions` | backend/app/services/exam_prep_service.py:140-164 | A week's or month's list holds what was logged in the last 7 or 30 days, each session as often as it was logged, the latest first, and nothing else |
| `Contents.MonthHoldsWeek` | backend/app/services/exam_prep_service.py:28-33 | A month's list holds every session of the week's |
| `Contents.HappenedIsActivity` | backend/app/services/pod_service.py:41-54 | The instants behind a streak are those of logged sessions and of tasks that stand completed by their last write |
| `Contents.StreakFromCommits` | backend/app/services/pod_service.py:63-82 | Today is active exactly if something happened today; the length is that of the run of active days up to today, or yesterday, capped at 400 |
| `Contents.ActiveRunExists` | backend/app/services/pod_service.py:74-80 | There always is such a run |
| `Contents.LastActivityFromCommits` | backend/app/services/pod_service.py:119-122 | The last activity is the latest instant since midnight 400 days ago |
| `Contents.NoRecentActivity` | backend/app/services/pod_service.py:70-71 | Without one the streak is 0, inactive, with no last activity |
| `CachedServices.RunsAreHarmless` | backend/app/core/cache.py:131-138 | Whatever other readers and writers do during an `await`, in any number of steps, keeps the cache invariant and rewrites no history |
| `CachedServices.Service.CachedRead` | backend/app/services/note_service.py:62-72 | Version, lookup, query and store with others interfering at each `await`: the answer is some moment's, no older than the bumps landed at the start, on hits, misses, missing rows and cache failures alike; the cache then holds it under the versions taken; and the read itself breaks nobody else's entries |
| `CachedServices.Service.CommitAndBump` | backend/app/services/note_service.py:75-93 | Commit, interference, bump: when a write returns, its commit is in the log for good and counted by its counter |
| `CachedServices.ReadsSeeReturnedWrites` | backend/app/services/task_service.py:112-115 | A read that starts after a write returned, in whatever process, answers from a database that includes it |
| `CachedServices.ReadsShowReturnedNote` | backend/app/services/note_service.py:75-93 | Until the note is written again, a read or list that starts after an update or delete returned shows exactly that write |
| `CachedServices.ReadsShowReturnedTask` | backend/app/services/task_service.py:91-123 | The same for tasks and their filtered lists |
| `CachedServices.SettledReadIsDirect` | backend/app/services/note_service.py:47-72 | With no relevant bump outstanding at its start, the read is a direct read of the database at a moment within it; a session list is the window then, but for sessions aged out since its query |
| `CacheLifetimes.LifetimesBoundStaleness` | backend/app/core/cache.py:68-78 | Whatever versions reads take and whichever bumps get lost: an answer is what the database held at some moment, and has seen every commit at least an entry lifetime plus one slow store old |
| `CacheLifetimes.StalenessBoundIsReached` | backend/app/core/cache.py:106-115 | With one dropped bump a run misses a commit one second younger than that |
| `CacheKeys.DecimalInjective` | backend/app/core/cache.py:141-142 | Two numbers with the same decimal text are equal |
| `CacheKeys.JoinInjective` | backend/app/core/cache.py:141-142 | Separator-free pieces can be read back from their joined text |
| `CacheKeys.VersionTextInjective` | backend/app/services/pod_service.py:85-87 | Version tuples with the same dotted text are equal, lengths included |
| `CacheKeys.IsoDateInjective` | backend/app/services/pod_service.py:85-87 | ISO dates with the same text are the same date |
| `CacheKeys.KeysAreInjective` | backend/app/services/task_service.py:15-20 | Over all ten key formats of all services, two keys have one text exactly when they agree in kind, owner, item, filter, date and versions; no data key is a counter key |
| `AllocationCache.RunInv` | backend/app/services/exam_prep_service.py:167-229 | Every step keeps: a stored report's rows follow from the subjects its source read saw and from a session log covering its study version |
| `AllocationCache.StudyHalfSeesBumpedWrites` | backend/app/services/exam_prep_service.py:180-204 | In every interleaving, a finished report counts each study session whose bump had landed when the study version was taken |
| `AllocationCache.SettledReportIsDirectPlusAged` | backend/app/services/exam_prep_service.py:167-229 | With no bump of the owner's sessions or the track outstanding and the subjects read under the key's reference version, a finished report has the planned shares of a direct one at moments of the read, and its seconds plus exactly those of sessions aged out since it was computed |
| `AllocationCache.MonthReportHoldsWeek` | backend/app/services/exam_prep_service.py:28-33 | A month's report has the week's seconds and exactly the tagged time of the 23 days before |
| `AllocationCache.SameVersionIsFresh` | backend/app/services/exam_prep_service.py:176-182 | A report whose subjects were read under the reference version it is filed under includes every seeding that version counts |
| `AllocationCache.OutdatedReport` | backend/app/services/exam_prep_service.py:176-181 | For every smaller version read first there is a run that files outdated subjects under the newer version, with planned shares other than the weights in the database give |
| `AllocationCache.ReferenceHalfFreshIff` | backend/app/services/exam_prep_service.py:176-182 | The reference half is reliable for a pair of versions, one read with the subjects and one in the key, if and only if they are equal |
| `Allocation.ComputeAllocation` | backend/app/services/exam_prep_service.py:187-227 | The loops over the grouped totals build the specified rows |
| `Allocation.RowsAreProportional` | backend/app/services/exam_prep_service.py:211-227 | Rows follow the subjects in order; planned shares are in proportion to weights, actual shares to the seconds tagged with the subject, deltas their difference |
| `Allocation.SecondsAreTaggedTime` | backend/app/services/exam_prep_service.py:206-209 | The seconds total is the duration of in-window sessions tagged with a listed subject, summed straight from the sessions |
| `Allocation.PlannedSharesSum` | backend/app/services/exam_prep_service.py:206-213 | Planned shares sum to 1, or to 0 when the total weight is zero |
| `Allocation.ActualSharesSum` | backend/app/services/exam_prep_service.py:209-215 | Actual shares sum to 1, or to 0 when no tagged time is listed |
| `Allocation.AllocationConserves` | backend/app/services/exam_prep_service.py:187-227 | Rows conserve tagged time, shares sum to 1, and deltas to the difference of the sums (0 when both are 1) |
| `Allocation.AgedTimeIsTheDifference` | backend/app/services/exam_prep_service.py:187-201 | An earlier window counts what a later one does, and on top exactly the tagged time in between |
| `Allocation.UntaggedChangeNothing` | backend/app/services/exam_prep_service.py:196-208 | Dropping every untagged session leaves every row as it is |
| `Streaks.StreakFromTimestamps` | backend/app/services/pod_service.py:63-82 | The capped backward scan returns the specified streak, today flag and last activity |
| `Streaks.ActiveTodayIff` | backend/app/services/pod_service.py:70-73 | Active today means a timestamp from the midnight of that day up to the next; the last activity is the latest timestamp, if there is one |
| `Streaks.RunLengthIsMaximal` | backend/app/services/pod_service.py:74-80 | The run length is that of a maximal run of consecutive active days |
| `Streaks.StreakIsCappedMaximalRun` | backend/app/services/pod_service.py:63-82 | The streak is min(400, n) for the maximal run of n days ending today, or yesterday when today is empty |
| `Streaks.OrderAndRepetitionIrrelevant` | backend/app/services/pod_service.py:63-82 | Only the set of timestamps matters |
| `Streaks.WindowLosesNothing` | backend/app/services/pod_service.py:119-122 | Streak and today flag from the 400-day query equal those from the full history; the last activity too unless it predates the window |
| `Streaks.ClientCountsMaximalRun` | frontend/lib/useFocusTimer.ts:158-176 | The incremental updater, folded over sessions on nondecreasing days, holds the maximal run ending on the last of them |
| `Streaks.ClientRefinesServer` | frontend/lib/useFocusTimer.ts:158-176 | Capped, it equals the server's streak if and only if the server is asked no later than the day after the last session |
| `StreakBatch.MGet` | backend/app/core/cache.py:118-128 | One answer per key, in order, with a miss where Redis has nothing, and only misses when it is down |
| `StreakBatch.SliceOfFlattened` | backend/app/core/cache.py:149-158 | Slice i of the flattened key list is exactly subject i's keys, scope by scope |
| `StreakBatch.GetVersions` | backend/app/core/cache.py:145-158 | Every subject gets its own versions in scope order, 0 for missing or non-integer values and when Redis is down, duplicates in the request included |
| `StreakBatch.ActivityTimestamps` | backend/app/services/pod_service.py:30-60 | Rows are grouped by user; everybody asked for appears, with no rows if need be |
| `StreakBatch.LookUp` | backend/app/services/pod_service.py:101-115 | Hits and misses partition the requested users by whether their key is stored, everybody a miss when the lookup fails, and hits return the stored streak |
| `StreakBatch.Compute` | backend/app/services/pod_service.py:122-132 | Every missing user gets their streak, filed under their own key, and nothing else is filed |
| `StreakBatch.ComputedIsExecuted` | backend/app/services/pod_service.py:119-125 | The streak from any row order of the query equals the uncached streak of that database |
| `StreakBatch.ComputeStreaks` | backend/app/services/pod_service.py:90-134 | Exactly the requested users are answered; each answer is no older than the bumps landed when versions were taken; written back are the misses and nothing else, as queried under those versions |
| `StreakBatch.WriteBackKeepsInv` | backend/app/services/pod_service.py:127-133 | Whenever the write-back lands, the cache invariant of every reader and entry survives it |
| `StreakBatch.SettledBatchIsDirect` | backend/app/services/pod_service.py:90-134 | With the user's task and study bumps landed, the batch's answer is the uncached streak for the same day at a moment of the batch |
| `StreakBatch.ServedStreakShowsCommits` | backend/app/services/pod_service.py:90-134 | A settled batch answers, from the commits of a moment of its own, with the capped run of days on which something happened |
| `StreakIntake.AcceptedIff` | backend/app/schemas/exam_prep.py:43-59 | A session time is accepted exactly from two days before the clock to five minutes after it, and rejected for the right reason otherwise |
| `StreakIntake.ActivityBeforeNow` | backend/app/schemas/exam_prep.py:50-53 | In every run up to now, nothing is stored more than five minutes ahead |
| `StreakIntake.ActivityAfterStart` | backend/app/schemas/exam_prep.py:43-59 | In every run of task and session writes, no stored activity predates the first write by more than two days |
| `StreakIntake.DaysCannotBeMinted` | backend/app/schemas/exam_prep.py:29-59 | A user whose first write is on day D0 has a streak of at most d − D0 + 3 on every day d |
| `StreakIntake.CommitsCarryActivity` | backend/app/services/exam_prep_service.py:126-137 | The commits of a run of task and session writes hold exactly the activity the run stored |
| `StreakIntake.ServedStreakIsBounded` | backend/app/services/pod_service.py:90-134 | So the streak the batch serves from a database with these commits, whatever else is in it, keeps that bound |
| `StreakIntake.MintingBoundIsReached` | backend/app/schemas/exam_prep.py:43-59 | Some writes do reach that bound, on every later day up to the cap: it cannot be improved |
| `RateLimiter.RateLimitMiddleware.HandleRequest` | backend/app/core/middleware.py:98-132 | Mutating the tracker in place yields the specified new tracker and decision |
| `RateLimiter.RunWellKept` | backend/app/core/middleware.py:108-131 | In every clocked trace the tracker stays within 10 000 keys and each deque is nonempty, sorted and within the limit |
| `RateLimiter.OrderIsLastSeen` | backend/app/core/middleware.py:116-129 | The tracked keys are, in order, the last 10 000 distinct keys by latest request |
| `RateLimiter.TrackedIffRecent` | backend/app/core/middleware.py:126-129 | A client is tracked if and only if fewer than 10 000 distinct other keys came since its own latest request |
| `RateLimiter.StoredIsLiveEnd` | backend/app/core/middleware.py:108-131 | A client that keeps its place has stored exactly the unexpired end of its unbounded admission log |
| `RateLimiter.WindowNeverOverfull` | backend/app/core/middleware.py:62-69 | The unbounded reference never admits a client more than the limit in any closed interval one window long |
| `RateLimiter.CappedDecidesAsUnbounded` | backend/app/core/middleware.py:98-132 | The capped limiter refuses exactly when the limit's worth of the client's admissions lie in the closed window ending now |
| `RateLimiter.GrantedWithinLimit` | backend/app/core/middleware.py:98-132 | What the capped limiter really granted is that log, so it respects the limit in every closed window |
| `RateLimiter.RetryAfterIsSufficient` | backend/app/core/middleware.py:116-124 | A client that waits the reported seconds is admitted, whatever others do in between; the report exceeds the true wait by at most a second |
| `LoginLockout.LoginTracker.CheckLockout` | backend/app/services/auth_service.py:35-55 | The in-place prune-and-check yields the specified tracker and verdict |
| `LoginLockout.FailureGoesLast` | backend/app/services/auth_service.py:58-68 | A failure ends its email's log and moves the email to the end of the order; nobody else's log changes, and nobody is dropped unless the email is new and the tracker full |
| `LoginLockout.SuccessForgetsOneEmail` | backend/app/services/auth_service.py:71-73 | A success takes the email out of its place and reopens it at once; every other email keeps its log and its place |
| `LoginLockout.RunWellKept` | backend/app/services/auth_service.py:58-68 | Over interleaved logins the tracker stays sorted by latest failure and within its cap |
| `LoginLockout.EvictionDropsOldestLatest` | backend/app/services/auth_service.py:62-65 | A new email in a full tracker displaces exactly the one whose latest failure is oldest |
| `LoginLockout.TrackerHoldsRecent` | backend/app/services/auth_service.py:38-68 | Pruning and lock expiry never forget a failure younger than 15 minutes |
| `LoginLockout.FailuresBounded` | backend/app/services/auth_service.py:113-131 | With at most k attempts for an email in flight, any half-open 15 minutes hold at most 4 + k failures recorded since its last success while it stays tracked |
| `LoginLockout.BoundIsReached` | backend/app/services/auth_service.py:113-131 | For every k, a run reaches 4 + k |
| `LoginLockout.LockedIff` | backend/app/services/auth_service.py:48-55 | A check refuses if and only if the fifth latest failure is in the window and the latest is under 15 minutes old |
| `LoginLockout.FullLockoutIff` | backend/app/services/auth_service.py:19-28 | The documented full lockout holds if and only if the last five failures coincide |
| `LoginLockout.LockoutEndsEarly` | backend/app/services/auth_service.py:42-55 | A run of five spread-out failures that locks the account at the fifth and no longer two seconds later |
| `LoginLockout.ReportedWait` | backend/app/services/auth_service.py:48-55 | After any run, a refusal reports the time until 15 minutes after the latest failure, rounded up by at most a second; the account stays locked exactly until the fifth latest failure leaves the window, so the report is late by the time between the two |
| `LoginLockout.RetryAfterIsSufficient` | backend/app/services/auth_service.py:48-55 | After any run and any refused check, in every continuation that records no new failure of that email, other checks, successes and evictions included, a check made after the reported seconds goes through |
| `RefreshTokens.LoginAddsOneSession` | backend/app/services/auth_service.py:134-148 | In every reachable store, a login's token is accepted from 60 s before it was issued through its expiry, and no other token's acceptance changes |
| `RefreshTokens.AuthService.RevokeAllRefreshTokens` | backend/app/services/auth_service.py:202-211 | The loop revokes exactly that user's rows |
| `RefreshTokens.AuthService.RefreshAccessToken` | backend/app/services/auth_service.py:151-188 | The request yields the specified store and new token, on every error path too |
| `RefreshTokens.RefreshHandsOver` | backend/app/services/auth_service.py:151-188 | In every reachable store, a refresh's new token is accepted from 60 s before it was issued through 30 days after, the one presented no more, and any other token exactly as before |
| `RefreshTokens.FailedRefreshChangesNothing` | backend/app/services/auth_service.py:153-184 | Presenting an unknown, foreign, expired or undecodable token changes nothing; only a replay does |
| `RefreshTokens.LogoutEndsOneSession` | backend/app/services/auth_service.py:191-199 | A logged-out token is never accepted again in any continuation, and no other token's acceptance changes |
| `RefreshTokens.RunInv` | backend/app/services/auth_service.py:134-211 | Every request keeps: a rotated token is revoked, has one successor, and stays with its user; rows agree with the signed claims |
| `RefreshTokens.EarlierWasRotated` | backend/app/services/auth_service.py:185-188 | Of two tokens descending from one login the earlier was rotated: chains are linear |
| `RefreshTokens.OneLiveTokenPerLogin` | backend/app/services/auth_service.py:151-188 | In every reachable store at most the newest token of each login is live |
| `RefreshTokens.RevocationIsFinal` | backend/app/services/auth_service.py:178-211 | Over any run, rows are never removed, un-revoked or rewritten otherwise |
| `RefreshTokens.AcceptedIff` | backend/app/core/security.py:66-75 | A refresh succeeds if and only if the token is on file, unrevoked, its user exists, and the time is within its stored lifetime: the 60 s leeway never extends it |
| `RefreshTokens.RefreshedAtMostOnce` | backend/app/services/auth_service.py:169-188 | After one successful refresh with a token none succeeds again in any continuation |
| `RefreshTokens.ReplayEndsEverySession` | backend/app/services/auth_service.py:169-176 | Replaying a revoked, still decodable token makes every existing token of its user unacceptable forever and leaves other users' rows alone |
| `RefreshOverlap.ReadThenCommit` | backend/app/services/auth_service.py:151-188 | A refresh request whose read and commit have nothing in between is the one step of the atomic model |
| `RefreshOverlap.RotatedAgainIff` | backend/app/services/auth_service.py:163-188 | After any run of overlapping requests, a rotated token can be rotated once more if and only if another request in flight read it before |
| `RefreshOverlap.OverlapForksTheChain` | backend/app/services/auth_service.py:163-188 | A run in which two live tokens descend from one |
| `RefreshOverlap.ChainsStayLinear` | backend/app/services/auth_service.py:163-188 | In every run whose requests find their tokens unrevoked when they commit, each login has at most one live token, its newest |
| `RefreshOverlap.SignOutEscapedIff` | backend/app/services/auth_service.py:202-211 | After signing a user out everywhere, a live token can come back without a new login if and only if a refresh of theirs is in flight |
| `Tasks.Task.Update` | backend/app/services/task_service.py:96-111 | The branch-by-branch bookkeeping yields the specified row |
| `Tasks.UpdateKeepsCompletion` | backend/app/services/task_service.py:97-101 | A task carries a completion time exactly when it is done, and is restamped only on a move into done |
| `Tasks.OverlapKeepsCompletionIff` | backend/app/services/task_service.py:95-112 | An update committing over a row it did not load keeps that if and only if it does not move a task it loaded open to another open status over one that is done by now |
| `Push.Sender.SendToSubscriptions` | backend/app/services/notification_service.py:150-179 | True if and only if no send failed other than by the endpoint being gone; exactly the gone endpoints are pruned |
| `DueReminders.FilterIsFires` | backend/app/services/notification_service.py:44-74 | With SQL's three-valued logic, the candidate filter selects exactly the open tasks for which a due or lead notice fires |
| `DueReminders.DeliveredToOwner` | backend/app/services/notification_service.py:62-92 | A notice counts as delivered exactly if it fired and no subscription of the task's owner failed |
| `DueReminders.StampedColumns` | backend/app/services/notification_service.py:78-92 | Each notice stamps its own column, and nothing else of the row changes |
| `DueReminders.DueTaskJob.NotifyTask` | backend/app/services/notification_service.py:66-92 | One candidate's notices set exactly the stamps that were delivered and prune exactly the endpoints found gone |
| `DueReminders.DueTaskJob.SendDueTaskNotifications` | backend/app/services/notification_service.py:44-94 | A task is stamped if and only if it was selected and every subscription listed for its owner accepted or was pruned |
| `ReminderRuns.RunPaced` | backend/app/services/notification_service.py:32-94 | Every interleaving of edits that load and commit apart, deletions and a running job, in which no edit rewrites what is stored, keeps: a notice without its stamp means that what it goes by changed in the stored row since the last one |
| `ReminderRuns.SelectedIffOwed` | backend/app/services/notification_service.py:44-60 | After any run of edits that do not overlap with anything, a job selects exactly the open tasks with a notice whose time has come and that was not stamped since its date or lead time changed |
| `ReminderRuns.NewTaskIsSelectedInTime` | backend/app/services/task_service.py:41-54 | A new task is selected as soon as it is due or within its lead time |
| `ReminderRuns.EachNoticeOncePerDate` | backend/app/services/task_service.py:95-112 | In every such run the stored due date changed between any two due stamps of a task, and the stored due date or lead time between any two lead stamps |
| `ReminderRuns.LoneEditsRewriteNothing` | backend/app/services/task_service.py:95-112 | Edits that commit onto the row they loaded make such a run |
| `ReminderRuns.RewritesIff` | backend/app/services/task_service.py:102-112 | An edit takes a stamp without a change exactly if it loaded the row stamped, moves the date or lead time it loaded, and moves them to what is stored |
| `ReminderRuns.StampedAgainIff` | backend/app/services/notification_service.py:44-94 | After any run, a stamped notice can be stamped once more while what it goes by stays as it is, if and only if that can fire and such an edit is in flight |
| `ReminderRuns.RetriedEditRepeatsNotice` | backend/app/services/task_service.py:95-112 | A run with a retried edit, after which one unchanged date can be announced twice |
| `ReminderRuns.CompletionOverRuns` | backend/app/services/task_service.py:97-112 | Over every run in which no edit moves a task it loaded open to another open status over a done one, tasks carry a completion time exactly when they are done |
| `ReminderRuns.OverlapLeavesCompletion` | backend/app/services/task_service.py:97-112 | A run of two overlapping edits that leaves a completion time on a task in progress |
| `ReminderRuns.JobWithoutEdits` | backend/app/services/notification_service.py:43-94 | Query and commit with nothing in between have the effect of the whole job |
| `StampDates.StampIsCurrentIff` | backend/app/services/notification_service.py:78-94 | In every run, a due stamp belongs to the date its task has, as announced, if and only if it was not swallowed: the job that set it found the date it had read, and no edit loaded before it landed has moved the date away from that under it |
| `StampDates.StampsAreCurrent` | backend/app/services/notification_service.py:78-81 | In particular it does whenever no edit moves a date a running job has read, or one stamped since the edit loaded it |
| `StampDates.MoveDuringJobIsSwallowed` | backend/app/services/notification_service.py:78-94 | A run in which a date moved mid-job is stamped unannounced and never selected again |
| `StampDates.MoveAroundJobIsSwallowed` | backend/app/services/task_service.py:95-112 | The same outcome with no edit during the job: an edit loads before it and commits after it |
| `PodNudges.PodNudgeJob.SendPodInactivityNudges` | backend/app/services/notification_service.py:97-147 | Stamped are quiet memberships only: all whose pod took every push, none whose pod kept a subscription that refused |
| `PodNudges.PodNudgeJob.NudgeAbout` | backend/app/services/notification_service.py:116-145 | A membership is stamped if and only if its pod-mates' subscriptions all took the push, a pod of one included |
| `PodNudges.JobIsTwoSteps` | backend/app/services/notification_service.py:109-147 | With nothing in between, the query and commit of the runs below leave the memberships the job leaves, and one stamp, dated now, for each it stamped |
| `PodNudges.RunInv` | backend/app/services/pod_service.py:267-306 | Joins, leaves and jobs, interleaved, keep: whatever row stands for a user in a pod remembers or postdates their latest nudge, and what a running job found is unchanged or gone |
| `PodNudges.FoundIff` | backend/app/services/pod_service.py:274-306 | After any run, a job finds a membership exactly if it is over 24 hours old, the history's latest nudge about the user in the pod is over 24 hours past, and nothing was stored for 24 hours |
| `PodNudges.DeliveredJobStampsAllDue` | backend/app/services/notification_service.py:109-147 | A job nobody disturbs and whose pushes are all taken stamps each of those, and nobody else |
| `PodNudges.NudgeGoesToPodMates` | backend/app/services/pod_service.py:309-318 | A nudge goes to an endpoint exactly if it belongs to another member of that pod |
| `PodNudges.NudgesMoreThanADayApart` | backend/app/services/pod_service.py:274-306 | Two stamped nudges about a user in a pod are more than 24 hours apart, even across leaving and rejoining, before, after or during a job |
| `PodNudges.NudgeMeansSilence` | backend/app/services/pod_service.py:274-306 | Behind every stamp of every run is the start of a job that found the user over 24 hours in the pod and with nothing stored for the last 24 |
| `FocusTimer.Timer.OnZero` | frontend/lib/useFocusTimer.ts:149-188 | The completion effect yields the specified cells and reported duration |
| `FocusTimer.StartMakesTicksCount` | frontend/lib/useFocusTimer.ts:115-131 | Once started, each tick takes one second off, down to zero, and nothing else |
| `FocusTimer.PauseStopsTheClock` | frontend/lib/useFocusTimer.ts:190-191 | After a pause nothing changes until the next start, however many ticks come |
| `FocusTimer.BreakLeadsToFocus` | frontend/lib/useFocusTimer.ts:183-187 | A finished break leads to a stopped focus timer with its full time and counts for nothing |
| `FocusTimer.FocusLeadsToBreak` | frontend/lib/useFocusTimer.ts:154-182 | A finished focus session leads to a stopped break with its full time, counts once, today, and reports its duration |
| `FocusTimer.SettingTheClockStops` | frontend/lib/useFocusTimer.ts:192-210 | Reset, mode change and new durations stop the timer on the full time of its mode and leave the stats alone |
| `FocusTimer.TimeIsConserved` | frontend/lib/useFocusTimer.ts:115-210 | In every run, the one-second ticks of the running clock since it was set plus the seconds left make the mode's duration; what completion reports is the ticks really counted, across pauses; the cycle position is the number of completions modulo 4 |
| `FocusTimer.LongBreakEveryFourth` | frontend/lib/useFocusTimer.ts:154-182 | The n-th completion leads to a long break if and only if 4 divides n |
| `FocusTimer.TimerStreakIsServerStreak` | frontend/lib/useFocusTimer.ts:158-176 | From a fresh profile, the timer's streak and the server's on the same sessions agree exactly through the day after the last |

## Left out

- Failed version reads, which yield version 0, dropped bumps and lost counters, in all but `CacheLifetimes`: the protocol theorems exclude them. `CacheLifetimes` allows them all and bounds staleness by the entries' lifetime; the batched and the allocation read are not part of it.
- Entry lifetimes in the protocol: there an entry may expire at any step, or never. JSON, pipelining and connection handling are not modelled.
- `updated_at`, `created_at`, titles, descriptions and notification stamps of tasks: the due-task job commits stamps, and with them `updated_at`, without a bump, so a cached task may show an old `updated_at`. The theorems are about the other fields of the read.
- `days_remaining`: recomputed on every call and never cached. The exam configuration is its stored date.
- Order among sessions with the same `occurred_at`: the database leaves it open; the model uses insertion order.
- CacheProtocol.StoreKeysNeverCollide: owners, items and tracks are colon-free, as UUIDs and the supported tracks are, and days are those Python has, 0001-01-01 to 9999-12-31.
- AllocationCache.OutdatedReport: a counterexample run is shown for the report's subjects; how long the outdated report is served depends on entry lifetimes, which are left out.
- Floating-point rounding of shares and clocks: both are reals.
- Which header the limiter's client key comes from, and requests it does not look at (`/health`, or the limiter switched off). One call reads the clock and updates the tracker without suspension, so it is one step.
- A rate limit of zero requests: the limit is at least 1.
- Email normalisation: the tracker's keys are the normalised emails. Deciding whether a password is right is an event of the run.
- RefreshTokens.AuthService.RefreshAccessToken: the method is one atomic step. `RefreshOverlap` splits a refresh into its read and its commit; logins, logouts and the revocation of all tokens on a replay stay single steps there.
- Several clock readings within one issuance are one reading. Signatures and hashes are opaque; a token's hash is its row number. Access tokens matter only as something a client may present.
- Explicit nulls for a task's status in an update, and fields that neither bookkeeping nor streaks look at.
- PodNudges.NudgeMeansSilence: the job's membership query and its activity query are two statements in the code and one step here; and a membership's `joined_at`, the start of the joining transaction in the code, is the time of its commit.
- PodNudges.PodNudgeJob.SendPodInactivityNudges: the method has the database to itself, and delivery outcomes are arbitrary but fixed per membership and endpoint. In the runs, where others come and go, which nudges got through is arbitrary; recipients are not followed there.
- Overlapping updates of one task outside `ReminderRuns` and `StampDates`: there an edit loads and commits in two steps and writes the columns it changed; `Tasks.UpdateKeepsCompletion`, `StreakIntake` and the cache protocol take an update as the row it leaves.
- ReminderRuns.RunPaced: here and in `PodNudges` a commit that meets a stamped row deleted meanwhile is modelled as rolling back as a whole. The advisory lock is modelled as one job at a time.
- Timer durations below one second, ticks already queued when the timer is paused, the chime, desktop notifications and local storage.
- The seeding script is one commit of a track's subjects and date followed by one bump; rows from a migration are a commit that is never bumped.
- A tagged session whose subject the track does not have is rejected before anything is stored; `StreakIntake` has no such write.
- Registration, profiles, pod creation and listing, the feed's ranking, push-subscription upserts, routers, cookies, request logging and all UI components: plumbing or easy members.
