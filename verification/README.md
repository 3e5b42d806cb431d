# Slate controller: verified models of its stateful algorithms

The controller manages a GL.iNet router. Most of it is SSH plumbing and screens; this project models
the parts whose guarantees concern whole runs, and proves those guarantees for all inputs, runs and
interleavings. `dafny verify dfyconfig.toml` checks everything.

- **Connection registry** (`ConnectionRegistry`, `DeviceConnectionsRegistry`): a lazy cache behind one
  lock, as a step machine of any number of `for_slug`, `invalidate` and `aclose_all` coroutines, with
  builds that fail and cancellations at every await.
- **PIN counters** (`PinLockout`, `PinLockoutService`, `AntiTheft`, `ScreenLockWatcher`): the rolling
  lockout window, the cumulative anti-theft counter with its ledger, and the touchscreen poller that
  feeds it. Time is a non-decreasing argument.
- **Surveillance** (`SurveillanceSessions`, `SurveillanceJobs`, `SurveillanceManager`,
  `SurveillanceTimeline`): session rows and scan jobs under interleaved start, cancel, pass,
  supervisor and restart steps; and the one-pass timeline against a declarative specification.
- **DNS protection** (`AdGuardClients`, `DnsProtection`, `DnsInterleaving`, `DnsAgreement`, `DnsOverlap`,
  `DnsRequestsApart`, `DnsReconciliation`, `DnsProtectionManager`): database rows and AdGuard's client
  list under any number of requests suspended at their awaits, with calls refused, failed or half done.
- **AP-root migrations** (`ApRoot`, `ApReviewMigration`, `ApReviewChain`, `ScanNeighborMigration`): string
  normalisers down to hexadecimal parsing, duplicate resolution, row-by-row updates under a UNIQUE key,
  and the two migrations one after the other.
- **Reference-moving migrations** (`SsidBindingMigration`, `SlugAlignmentMigration`).
- **Recon discovery** (`ReconNetworks`, `ReconHosts`): CIDR clamping, the sweep, host fusion and the
  keyed host table.
- **Word wrap** (`WordWrap`): one greedy loop, used twice in the source, shown optimal.

Objects whose methods update fields are classes here; each method is proved to take the object's
state through one step of a specification, and the theorems are about runs of those steps.

## Where the code differs from its description

- A coroutine cancelled while it holds a new or popped bundle leaks it: `QuiescentLeak` gives the
  exact condition (backend/app/devices/registry.py:124-169; cancellation is not an `Exception`).
- "3 failed attempts per 60 s" holds if and only if attempts never overlap, because check and record
  are separate transactions (`ThreePerMinuteIff`).
- backend/app/db/models.py:1129 calls a failure at least 60 s old a fresh slate; the code compares
  strictly, so one exactly 60 s old still counts (`FreshAfterWindowIff`). The model follows the code.
- `retry_after_s` is rounded down (`RetryAfterRoundsDown`).
- A success in a scope that never failed does not reach the anti-theft counter (`SuccessForgivesIff`).
- The touchscreen watcher counts a streak again at lockout if a poll had seen it, against the comment
  at backend/app/scheduler/screen_lock_watcher.py:216-219 (`LockoutCountsPolledStreakAgain`).
- The watcher's header (lines 14-20) says an expired lock resets nothing; the code takes both counters at
  zero for a success and forgives (`ForgivesAsDescribedIff`, `ExpiredLockoutsFireNothingIff`).
- Counting two counters is to keep the total honest when the state between polls is missed
  (backend/app/scheduler/screen_lock_watcher.py:212-213). Failures are never over-counted, but a missed
  clear forgives nothing, so an action can fire that otherwise would not (`MissedClearFiresMore`).
- A surveillance job scheduled after its session ended is never cleaned up by the supervisor, against
  the comment at backend/app/scheduler/surveillance.py:222 (`OrphansOutliveSupervisor`).
- The timeline classes of the module header leave a gap that the code calls drifting
  (`ClassifyIsDescribedIff`).
- The AP-root updates can collide with rows not yet updated when an old root does not normalise to
  the row's new root; `LetThroughIff` and `ApReviews.Upgrade` give the exact condition.
- A protection removed while AdGuard is down, or renamed by a set whose answer is lost, leaves the two
  stores apart; so can requests on one network that overlap, which nothing prevents, a re-apply that
  works through rows listed before a removal among them (`AgreeIff`, `SetRemoveOverlapIff`,
  `StaleReapplyLeavesOrphan`).
- The slug alignment keeps references resolving, but an SSID can end up on another network row, and a
  profile entry on another SSID row, when the new name was already taken (`SameNetworkRowIff`,
  `SameSsidRowIff`, `TakenNamesMoveReferences`).

## Model

| member | source | states |
|---|---|---|
| ConnectionRegistry.InvStep | backend/app/devices/registry.py:115-169 | from any state that satisfies it, every call, lock grant, build step, failure, pop, close and cancellation keeps the invariant |
| ConnectionRegistry.RunKeepsInv | backend/app/devices/registry.py:115-169 | so every interleaving of them from the empty registry keeps it |
| ConnectionRegistry.ReachableInv | backend/app/devices/registry.py:115-169 | every state reachable from the empty cache satisfies the invariant |
| ConnectionRegistry.ExactlyOneFate | backend/app/devices/registry.py:115-169 | every bundle ever opened is in exactly one place: held by its builder, cached, popped awaiting close, closed, or abandoned by a cancellation; none is in two hands, none is closed twice |
| ConnectionRegistry.OwnersHoldOpenedBundles | backend/app/devices/registry.py:121-169 | what a caller gets back, the cache holds or a closer drains was opened by a build |
| ConnectionRegistry.OnlyAwaiting | backend/app/devices/registry.py:150-169 | no bundle that a coroutine of invalidate or aclose_all still has to close has been closed before |
| ConnectionRegistry.SingleFlight | backend/app/devices/registry.py:121-132 | at most one build runs at any time, never for a slug in the cache; per slug, builds = pops + cached + built and not yet stored + abandoned |
| ConnectionRegistry.FreshAfterPop | backend/app/devices/registry.py:121-161 | after a pop of a slug, every bundle handed out or cached for it was built from a row read after the pop, even when a build was queued or running when invalidate was called |
| ConnectionRegistry.SharedBetweenPops | backend/app/devices/registry.py:121-132 | between two pops all callers for a slug get the same bundle |
| ConnectionRegistry.LeakedIff | backend/app/devices/registry.py:124-169 | in every run, a bundle is open with nobody left to close it if and only if some event cancelled the coroutine that had it in hand |
| ConnectionRegistry.QuiescentLeak | backend/app/devices/registry.py:124-169 | when no coroutine is left, everything opened is cached or closed if and only if no event of the run cancelled a builder past opening or a closer still closing |
| ConnectionRegistry.CancelledBuildLeaks | backend/app/devices/registry.py:124-132 | such a cancellation is reachable: a caller cancelled while its build probes the device leaks the bundle |
| ConnectionRegistry.NeverStuck | backend/app/devices/registry.py:124-169 | no deadlock: while a coroutine is unfinished, some coroutine can take a step that is neither a new call nor a cancellation |
| DeviceConnectionsRegistry.Registry.ForSlug | backend/app/devices/registry.py:121-124 | the lock-free look-up: the cached bundle, or the caller now waits; the new state is a step of the protocol |
| DeviceConnectionsRegistry.Registry.ForSlugLocked | backend/app/devices/registry.py:124-130 | the double check under the lock, then the start of a build |
| DeviceConnectionsRegistry.Registry.ReadDeviceRow | backend/app/devices/registry.py:173-182 | reading the row: the build goes on or fails and frees the lock |
| DeviceConnectionsRegistry.Registry.OpenConnections | backend/app/devices/registry.py:177-294 | opening: a fresh bundle for the builder, or a failure that frees the lock |
| DeviceConnectionsRegistry.Registry.StoreBuilt | backend/app/devices/registry.py:130-132 | storing caches exactly the builder's bundle and frees the lock |
| DeviceConnectionsRegistry.Registry.PopLocked | backend/app/devices/registry.py:156-159 | invalidate pops exactly the slug's bundle, or nothing |
| DeviceConnectionsRegistry.Registry.ClearLocked | backend/app/devices/registry.py:165-167 | aclose_all takes every cached bundle once, in some order, and empties the cache |
| DeviceConnectionsRegistry.Registry.CloseOne | backend/app/devices/registry.py:160-169 | closing takes the next drained bundle and no other |
| PinLockout.FreshAfterWindowIff | backend/app/security/pin_lockout.py:108-113 | a failure 60 s or more after the last attempt starts a fresh count, as the row's description has it, if and only if it is not exactly 60 s after with a count to carry on |
| PinLockout.ThirdAtSixtySecondsLocks | backend/app/security/pin_lockout.py:108-119 | so a third failure exactly 60 s after the second still locks |
| PinLockout.RateBound | backend/app/security/pin_lockout.py:84-122 | in every success-free run on a non-decreasing clock with at most m attempts between check and record, failure n+m+2 comes at least 60 s after failure n |
| PinLockout.SequentialRateBound | backend/app/security/pin_lockout.py:40-44 | with attempts one at a time, failure n+3 comes at least 60 s after failure n |
| PinLockout.SpanBound | backend/app/security/pin_lockout.py:84-122 | n failures span at least 60 s for every full m+2 after the first |
| PinLockout.BurstIsTight | backend/app/security/pin_lockout.py:103-122 | the bound is attained: m+2 failures at one instant are possible for every overlap m |
| PinLockout.OverlapBreaksThreePerMinute | backend/app/security/pin_lockout.py:84-122 | two overlapping attempts admit four failures at one instant |
| PinLockout.ThreePerMinuteIff | backend/app/security/pin_lockout.py:84-122 | the three-per-minute bound holds of all runs if and only if attempts never overlap |
| PinLockout.RetryAfterRoundsDown | backend/app/security/pin_lockout.py:91-100 | waiting exactly retry_after_s lets a client in if and only if the remaining time was a whole number of seconds; one second more always does |
| PinLockout.SuccessStartsOver | backend/app/security/pin_lockout.py:103-156 | after a success no lock stands at any time, the next two failures lock nothing, and a third inside the window locks for 60 s |
| PinLockout.ProjectionIsHonest | backend/app/security/pin_lockout.py:195-212 | what is shown of a row: three minus the counted failures, never below zero, and the whole seconds left of a lock that stands |
| PinLockoutService.Service.CheckOrRaise | backend/app/security/pin_lockout.py:84-101 | answers Ok or the 423 seconds from the row of the scope; changes nothing |
| PinLockoutService.Service.RecordFailure | backend/app/security/pin_lockout.py:103-140 | updates exactly the row of the scope by the rolling-window rule, forwards one failure to the anti-theft counter, which stays as it was only if the hook raises before it commits, and returns the projection |
| PinLockoutService.Service.RecordSuccess | backend/app/security/pin_lockout.py:142-170 | clears exactly the row of the scope, which is then locked at no time, and forwards the success (lost only if the hook raises before it commits), except that a scope without a row returns early and forwards nothing |
| PinLockoutService.CrossServiceLedger | backend/app/security/pin_lockout.py:103-170 | over any run of failures in any scopes, touchscreen failures, successes, resets and policy edits: failures recorded = counted + consumed by fired actions + forgiven |
| PinLockoutService.LocksEndInTime | backend/app/security/pin_lockout.py:103-156 | in every run of failures and successes of all scopes on a non-decreasing clock, a lock ends at most 60 s after the last attempt of its scope |
| PinLockoutService.LockNeedsThreeFailures | backend/app/security/pin_lockout.py:103-156 | in every run of failures and successes of all scopes, a scope is locked only if three failures followed its last success |
| PinLockoutService.RecordedIsForwarded | backend/app/security/pin_lockout.py:130-134 | the anti-theft books record every failure of any scope whose hook call commits, and no other |
| PinLockoutService.LockoutNeverHidesFailures | backend/app/security/pin_lockout.py:103-140 | armed with threshold N from zero, f failures that reach the counter, spread over any scopes, fire exactly floor(f / N) actions, whatever the lockout windows do |
| PinLockoutService.SuccessForgivesIff | backend/app/security/pin_lockout.py:142-164 | a success clears the anti-theft counter if and only if its scope already has a lockout row or nothing was counted |
| PinLockoutService.SuccessInNewScopeForgivesNothing | backend/app/security/pin_lockout.py:145-150 | a first-ever success of a scope leaves the failures of the other scopes counted |
| AntiTheft.LedgerBalances | backend/app/security/anti_theft.py:107-161 | over any run, failures recorded = total_failures + consumed by fired actions + forgiven |
| AntiTheft.DisarmedNeverFires | backend/app/security/anti_theft.py:135-143 | nothing fires in a stretch that starts disarmed and sees no arming edit |
| AntiTheft.ArmedConsumesQuota | backend/app/security/anti_theft.py:136-141 | under one armed policy each fired action consumes exactly max(threshold, 1) failures |
| AntiTheft.ArmedFiresExactly | backend/app/security/anti_theft.py:136-143 | so the number of fired actions is a quotient of the unforgiven failures |
| AntiTheft.FloorOfThreshold | backend/app/security/anti_theft.py:120-143 | from a cleared armed counter, f failures fire floor(f / threshold) actions |
| AntiTheft.PolicyIsLatestEdit | backend/app/security/anti_theft.py:78-105 | over any run, the policy in force is the one the latest edit asked for, its web hook cut to 256 characters; before any edit a new device is disarmed at a threshold of 10 |
| AntiTheft.ArmingEditArms | backend/app/security/anti_theft.py:92-143 | an arming edit arms: on a device without failures, f failures after it fire floor(f / threshold) actions |
| AntiTheft.FailureChangesCountAndAction | backend/app/security/anti_theft.py:130-144 | a counted failure adds one to the count, or puts it to zero and records the policy's action at that time; policy and note stay |
| AntiTheft.AntiTheftService.OnPinFailure | backend/app/security/anti_theft.py:130-144 | the row of the slug takes exactly one failure event; true exactly when it trips, and then the count is zero and the action recorded; other rows stay |
| AntiTheft.AntiTheftService.WriteNote | backend/app/security/anti_theft.py:145-151 | the second transaction sets only the note, cut to 512 characters, if the row still exists |
| AntiTheft.AntiTheftService.OnPinSuccess | backend/app/security/anti_theft.py:153-161 | clears the counter of an existing row and touches nothing else of it, nor any other row |
| AntiTheft.AntiTheftService.ResetCounter | backend/app/security/anti_theft.py:107-116 | clears the counter of an existing row, keeps its policy, last action and note, and creates none |
| AntiTheft.AntiTheftService.Upsert | backend/app/security/anti_theft.py:78-105 | the row gets exactly the mode, threshold and action asked for and the web hook cut to 256 characters; counter, last action and note stay; a new row starts at zero |
| ScreenLockWatcher.MissedPollsNeverOverCount | backend/app/scheduler/screen_lock_watcher.py:195-220 | for every telemetry sequence, the failures dispatched on any subsequence are at most those on the whole |
| ScreenLockWatcher.RisingPollsCountExactly | backend/app/scheduler/screen_lock_watcher.py:214-220 | they are equal when neither counter ever drops and the last sample is kept |
| ScreenLockWatcher.LockoutCountsPolledStreakAgain | backend/app/scheduler/screen_lock_watcher.py:201-220 | for any telemetry before it, a lockout sample brings the count right if and only if what polls had seen of the streak is as much as still showed of an earlier lockout; with none showing, if and only if no poll had seen the streak |
| ScreenLockWatcher.ForgivesAsDescribedIff | backend/app/scheduler/screen_lock_watcher.py:239-252 | the code forgives against its header (lines 14-20) if and only if a lock has just expired with both counters at zero, and withholds a described success if and only if a lockout has just begun |
| ScreenLockWatcher.ArmedFiresByStretch | backend/app/scheduler/screen_lock_watcher.py:195-257 | over any telemetry at all, an armed counter at zero fires once for every whole threshold of failures in each stretch between samples that show everything cleared |
| ScreenLockWatcher.ExpiredLockoutsFireNothingIff | backend/app/scheduler/screen_lock_watcher.py:239-257 | any number of lockouts polled to their end fire nothing if and only if one streak is shorter than the threshold |
| ScreenLockWatcher.ReplayIsSilent | backend/app/scheduler/screen_lock_watcher.py:156-175 | a sample applied twice dispatches no failure and no success the second time |
| ScreenLockWatcher.SuccessWithoutFailure | backend/app/scheduler/screen_lock_watcher.py:239-252 | a sample never dispatches a success together with a failure |
| ScreenLockWatcher.MissedPollsFireAtMost | backend/app/scheduler/screen_lock_watcher.py:195-257 | over any telemetry, whatever polls are missed, an armed counter at zero fires at most floor(f / threshold) actions for the f failures of the whole telemetry |
| ScreenLockWatcher.MissedPollsFireNoMore | backend/app/scheduler/screen_lock_watcher.py:195-257 | over any telemetry, polls that miss no newly cleared sample fire no more actions than all the polls together would |
| ScreenLockWatcher.MissedClearFiresMore | backend/app/scheduler/screen_lock_watcher.py:239-252 | missing a cleared sample can fire an action that all the polls together would not, under every threshold above one |
| ScreenLockWatcher.FiringIgnoresMissedPolls | backend/app/scheduler/screen_lock_watcher.py:195-257 | while the counters only grow the number of actions fired depends on the last sample alone |
| ScreenLockWatcher.Watcher.ApplyTelemetry | backend/app/scheduler/screen_lock_watcher.py:156-185 | stores the sample and shows exactly its counters and lock without an error, and the anti-theft row of the slug takes exactly the events of the difference whose hook calls commit; other slugs stay |
| ScreenLockWatcher.Watcher.DiffAndDispatch | backend/app/scheduler/screen_lock_watcher.py:195-257 | one hook call per new failure, then one for a success if everything went back to zero; a call that raises does not stop the rest, and is lost only if it raises before it commits |
| ScreenLockWatcher.Watcher.PollFailed | backend/app/scheduler/screen_lock_watcher.py:138-152 | a failed poll keeps the telemetry and what is shown of it, zeros if nothing was, and records the time and the error, cut to 128 characters |
| WordWrap.StaysAhead | backend/app/profiles/status_screen.py:152-170 | greedy stays ahead: the r-th break of any split whose lines of two or more words fit is at or before the greedy one |
| WordWrap.GreedyIsShortest | backend/app/profiles/status_screen.py:152-170 | no such split has fewer lines than the greedy one, for any width measure under which part of a run of words is never wider than the run |
| WordWrap.LinesSpellTheWords | backend/app/profiles/status_screen.py:158-169 | the lines, joined, are the words in order |
| WordWrap.LinesFillTheWidth | backend/app/profiles/status_screen.py:158-169 | in widths: a line of several words is no wider than the limit, and with the next word it would be |
| WordWrap.WrapText | backend/app/profiles/wallpaper_studio.py:225-243 | the loop of both wrap functions returns lines that spell the words, each no wider than the limit unless it is a single word and wider with the next word, and as few as any such split |
| ApRoot.SplitJoin | backend/alembic/versions/w3m0h25o6pk4_ap_root_la_mask.py:48-55 | splitting what was joined gives the parts back |
| ApRoot.JoinSplit | backend/alembic/versions/w3m0h25o6pk4_ap_root_la_mask.py:48-55 | joining what was split gives the text back |
| ApRoot.ParsePrint | backend/alembic/versions/w3m0h25o6pk4_ap_root_la_mask.py:109-112 | what `:02x` prints of a byte, `int(.., 16)` reads back |
| ApRoot.MaskIsByte | backend/alembic/versions/w3m0h25o6pk4_ap_root_la_mask.py:52-55 | the mask 0xF1 yields a byte that it leaves alone |
| ApRoot.MaskKeepsBits | backend/alembic/versions/w3m0h25o6pk4_ap_root_la_mask.py:52-55 | the mask keeps the bits 0 and 4 to 7 of any number, two's complement for a negative one |
| ApRoot.MaskClearsBits | backend/alembic/versions/w3m0h25o6pk4_ap_root_la_mask.py:52-55 | and clears the bits 1 to 3 |
| ApRoot.StripTrims | backend/alembic/versions/w3m0h25o6pk4_ap_root_la_mask.py:47 | `strip` removes only white space, and only at the two ends |
| ApRoot.StripLeavesNone | backend/alembic/versions/w3m0h25o6pk4_ap_root_la_mask.py:47 | and leaves none there |
| ApRoot.LowerKeepsLetters | backend/alembic/versions/w3m0h25o6pk4_ap_root_la_mask.py:47 | `lower` turns each ASCII capital into its own small letter and changes nothing else |
| ApRoot.RootsOfBssid | backend/alembic/versions/w3m0h25o6pk4_ap_root_la_mask.py:45-55 | the two roots of a BSSID, octet by octet: the first five, and the first five with only the kept bits of the first |
| ApRoot.SameMaskedRootIff | backend/alembic/versions/w3m0h25o6pk4_ap_root_la_mask.py:45-55 | two BSSIDs get one masked root if and only if their octets two to five are the same and their first ones differ at most in the cleared bits |
| ApRoot.HexAsPythonReadsIt | backend/alembic/versions/w3m0h25o6pk4_ap_root_la_mask.py:109 | white space around, either case, a sign and the prefix are read |
| ApRoot.HexAsPythonRefusesIt | backend/alembic/versions/w3m0h25o6pk4_ap_root_la_mask.py:109 | single underscores between digits are read; no digits, other letters and stray underscores are refused |
| ApRoot.MaskExistingIdempotent | backend/alembic/versions/w3m0h25o6pk4_ap_root_la_mask.py:102-112 | re-masking an existing root twice is re-masking it once, for every string |
| ApRoot.StripChannelIdempotent | backend/alembic/versions/v2l9g14n5oj3_ap_root_drop_channel.py:99-102 | stripping the channel twice is stripping it once, and nothing with `@` is left |
| ApRoot.MaskAfterUpperFive | backend/alembic/versions/w3m0h25o6pk4_ap_root_la_mask.py:45-55 | re-masking what the previous migration made of a sample is masking the sample, if and only if the sample is not of five parts headed by a number that the mask changes |
| ApReviewMigration.WinsIsTotalOrder | backend/alembic/versions/w3m0h25o6pk4_ap_root_la_mask.py:128-131 | the comparison of the survivors loop is a total order on rows with distinct ids: latest review first, null lowest, then the id |
| ApReviewMigration.ArgmaxIsUnique | backend/alembic/versions/w3m0h25o6pk4_ap_root_la_mask.py:114-136 | the survivors do not depend on the order in which rows are read |
| ApReviewMigration.ArgmaxKeepsNewest | backend/alembic/versions/w3m0h25o6pk4_ap_root_la_mask.py:125-136 | for every row, the survivor of its slug and new root was reviewed no earlier, null counting as earliest, and among equally reviewed ones has the highest id |
| ApReviewMigration.ResolveRow | backend/alembic/versions/w3m0h25o6pk4_ap_root_la_mask.py:116-136 | one turn of the loop: the key's survivor becomes the winner and the loser's id is dropped |
| ApReviewMigration.Resolve | backend/alembic/versions/w3m0h25o6pk4_ap_root_la_mask.py:114-136 | for every row the survivor of its (slug, new root) was reviewed no earlier, and has the highest id of those reviewed at the same time; survivors and dropped rows partition the table |
| ApReviewMigration.IdempotentNeverClashes | backend/alembic/versions/w3m0h25o6pk4_ap_root_la_mask.py:149-155 | a normaliser that depends on the old root alone and leaves its own results alone never collides, in whatever order survivors are updated |
| ApReviewMigration.MaskedNeverClashes | backend/alembic/versions/w3m0h25o6pk4_ap_root_la_mask.py:102-155 | the mask migration never collides midway when each sample masks to what its row's old root masks to |
| ApReviewMigration.MaskedAfterUpperFiveNeverClashes | backend/alembic/versions/w3m0h25o6pk4_ap_root_la_mask.py:102-155 | that holds of the rows as the previous migration leaves them, unless a sample has exactly five parts that the mask would change |
| ApReviewMigration.UpperFiveNeverClashes | backend/alembic/versions/v2l9g14n5oj3_ap_root_drop_channel.py:99-145 | the drop-channel migration never collides midway while every old root carries a channel suffix and no new root does |
| ApReviewMigration.OrderDecidesTheClash | backend/alembic/versions/w3m0h25o6pk4_ap_root_la_mask.py:102-155 | in general whether an update collides depends on the order of the rows: a table that passes in one order and fails in another |
| ApReviewMigration.LetThroughIff | backend/alembic/versions/w3m0h25o6pk4_ap_root_la_mask.py:149-155 | the n-th update is accepted if and only if no later survivor still has its new root as old root |
| ApReviewMigration.ApReviews.DeleteInChunks | backend/alembic/versions/w3m0h25o6pk4_ap_root_la_mask.py:138-147 | the statements name every dropped id exactly once, at most 500 each, and the table loses exactly those rows |
| ApReviewMigration.ApReviews.SetRoot | backend/alembic/versions/w3m0h25o6pk4_ap_root_la_mask.py:150-154 | one UPDATE re-keys one row, or is refused exactly when another row has the key |
| ApReviewMigration.ApReviews.UpdateSurvivors | backend/alembic/versions/w3m0h25o6pk4_ap_root_la_mask.py:149-155 | the loop ends well if and only if no survivor clashes with a later one, and then every row has its new root |
| ApReviewMigration.ApReviews.Upgrade | backend/alembic/versions/v2l9g14n5oj3_ap_root_drop_channel.py:92-145 | the whole upgrade under either normaliser: it succeeds if and only if the survivors are free of clashes, and then leaves exactly the survivors, the most recently reviewed row of each new key, re-keyed; the key is unique after every statement |
| ApReviewChain.FinalRootIs | backend/alembic/versions/w3m0h25o6pk4_ap_root_la_mask.py:45-55 | the mask of the drop-channel migration's root is the mask migration's root, for a sample not of the five-part shape |
| ApReviewChain.ChainIsArgmax | backend/alembic/versions/w3m0h25o6pk4_ap_root_la_mask.py:114-136 | resolving duplicates in both migrations is resolving them once: the survivors of the second are, for every final root, the winners of the original table |
| ApReviewChain.MiddleIsReady | backend/alembic/versions/w3m0h25o6pk4_ap_root_la_mask.py:149-155 | the table the drop-channel migration leaves never makes the mask migration collide, unless some sample has five parts that the mask would change |
| ApReviewChain.UpgradeBoth | backend/alembic/versions/w3m0h25o6pk4_ap_root_la_mask.py:39-155 | both upgrades in turn on one table: where no sample has that shape and every old root is suffixed both get through, and the table then holds exactly the original winners, the most recently reviewed of each final key, under their final roots |
| ScanNeighborMigration.GroupByRoot | backend/alembic/versions/w3m0h25o6pk4_ap_root_la_mask.py:76-79 | the dictionary groups every id under the root of its own bssid, each id once |
| ScanNeighborMigration.ScanNeighbors.UpdateInChunks | backend/alembic/versions/w3m0h25o6pk4_ap_root_la_mask.py:80-91 | the statements of one group name its ids exactly once, at most 500 each |
| ScanNeighborMigration.ScanNeighbors.Recompute | backend/alembic/versions/v2l9g14n5oj3_ap_root_drop_channel.py:66-86 | every row ends with the root of its own bssid and every id is named by exactly one statement |
| SsidBindingMigration.Database.Upgrade | backend/alembic/versions/a1d7f3b52e89_ssid_network_binding_to_profile.py:48-90 | the nested loops bind every reference that has no binding to its SSID's network, lan by default, and drop the column |
| SsidBindingMigration.Database.Downgrade | backend/alembic/versions/a1d7f3b52e89_ssid_network_binding_to_profile.py:93-136 | the column comes back holding each SSID's first binding in any profile, lan otherwise, and references lose their bindings |
| SsidBindingMigration.StripRefs | backend/alembic/versions/a1d7f3b52e89_ssid_network_binding_to_profile.py:117-125 | the inner loop: first binding of each slug wins, every binding is removed |
| SsidBindingMigration.UpgradeBindsEach | backend/alembic/versions/a1d7f3b52e89_ssid_network_binding_to_profile.py:74-80 | reference by reference: one without a binding gets the network of its SSID, lan where that is empty or unknown, and nothing else of it changes; one with a binding stays |
| SsidBindingMigration.DowngradeStripsEach | backend/alembic/versions/a1d7f3b52e89_ssid_network_binding_to_profile.py:105-136 | reference by reference only the binding goes; an SSID's network is that of the first reference in any profile that gives it one, else lan |
| SsidBindingMigration.PayloadsBackIff | backend/alembic/versions/a1d7f3b52e89_ssid_network_binding_to_profile.py:75-85 | the payloads come back exactly if and only if no reference carried a binding before the upgrade |
| SsidBindingMigration.FirstBindingOfUpgraded | backend/alembic/versions/a1d7f3b52e89_ssid_network_binding_to_profile.py:117-122 | after the upgrade the first binding of a mentioned SSID is its own network |
| SsidBindingMigration.RoundTripIff | backend/alembic/versions/a1d7f3b52e89_ssid_network_binding_to_profile.py:48-136 | downgrade after upgrade restores networks and payloads exactly if and only if no reference carried a binding and every SSID has a non-empty network that is lan or whose SSID is referenced |
| SlugAlignmentMigration.NetworkRenameIsProper | backend/alembic/versions/281b831b96da_cyberpunk_slug_alignment.py:35-40 | the network map renames distinct names to distinct names, none of them an old one |
| SlugAlignmentMigration.SsidRenameIsProper | backend/alembic/versions/281b831b96da_cyberpunk_slug_alignment.py:57-66 | so does the SSID map |
| SlugAlignmentMigration.AdmittedRename | backend/alembic/versions/281b831b96da_cyberpunk_slug_alignment.py:119-142 | a name moves if and only if its new name was free in the table |
| SlugAlignmentMigration.SlugsStayUnique | backend/alembic/versions/281b831b96da_cyberpunk_slug_alignment.py:118-142 | network slugs and SSID slugs are unique after the upgrade, even where old and new names both existed |
| SlugAlignmentMigration.ReferenceFollows | backend/alembic/versions/281b831b96da_cyberpunk_slug_alignment.py:107-129 | a rename carries a reference to a name that exists afterwards |
| SlugAlignmentMigration.ReferencesStayWhole | backend/alembic/versions/281b831b96da_cyberpunk_slug_alignment.py:69-166 | every SSID-to-network and profile-to-SSID reference that resolved before still resolves after all six steps |
| SlugAlignmentMigration.ShadowrunStays | backend/alembic/versions/281b831b96da_cyberpunk_slug_alignment.py:80-105 | the network added first is not renamed and is there at the end |
| SlugAlignmentMigration.SameNetworkRowIff | backend/alembic/versions/281b831b96da_cyberpunk_slug_alignment.py:107-129 | an SSID still points at the same network row if and only if its network was not to take a name that another row already had |
| SlugAlignmentMigration.SameSsidRowIff | backend/alembic/versions/281b831b96da_cyberpunk_slug_alignment.py:131-156 | a profile entry still names the same SSID row if and only if that SSID was not to take a slug that another row already had; otherwise it names that row |
| SlugAlignmentMigration.TakenNamesMoveReferences | backend/alembic/versions/281b831b96da_cyberpunk_slug_alignment.py:118-156 | a table with old and new names side by side on which an SSID ends on another network row and a profile entry on another SSID row |
| SlugAlignmentMigration.ShippedSsidsAlign | backend/alembic/versions/281b831b96da_cyberpunk_slug_alignment.py:35-66 | each of the five shipped SSIDs, on the network it was shipped with, ends with one and the same slug for itself and its network |
| SlugAlignmentMigration.OnlyOsintMoves | backend/alembic/versions/281b831b96da_cyberpunk_slug_alignment.py:98-105 | in every database exactly the SSID dmz-osint, and only off dmz, moves to shadowrun, which is there to move to; SSIDs on networks that are not renamed stay |
| SlugAlignmentMigration.Database.UpdateNetworks | backend/alembic/versions/281b831b96da_cyberpunk_slug_alignment.py:124-129 | one UPDATE renames one network; the guard keeps it off names in use |
| SlugAlignmentMigration.Database.MoveReferences | backend/alembic/versions/281b831b96da_cyberpunk_slug_alignment.py:98-116 | steps 2 and 3 move every SSID's reference as the maps say |
| SlugAlignmentMigration.Database.RenameNetworks | backend/alembic/versions/281b831b96da_cyberpunk_slug_alignment.py:118-129 | step 4 renames exactly the admitted networks |
| SlugAlignmentMigration.Database.RenameSsids | backend/alembic/versions/281b831b96da_cyberpunk_slug_alignment.py:131-142 | step 5 renames exactly the admitted SSIDs |
| SlugAlignmentMigration.Database.UpdateProfiles | backend/alembic/versions/281b831b96da_cyberpunk_slug_alignment.py:144-166 | step 6 renames the slug of every profile entry in the map |
| SlugAlignmentMigration.Database.Upgrade | backend/alembic/versions/281b831b96da_cyberpunk_slug_alignment.py:69-166 | the six steps together, for every starting database |
| AdGuardClients.NameOfIff | backend/app/dns/manager.py:363-366 | which strings are client names of a slug |
| AdGuardClients.NameDeterminesSlug | backend/app/dns/manager.py:363-366 | a client name determines its slug, as long as slugs have no opening parenthesis (the API's pattern allows none) |
| AdGuardClients.ParenthesisConfusesNames | backend/app/dns/manager.py:363-366 | with one, two networks can print the same name |
| AdGuardClients.FindManagedFirst | backend/app/dns/manager.py:495-509 | the look-up finds the first managed client of that name or CIDR, and none exactly when there is none |
| AdGuardClients.ApplyEffect | backend/app/dns/manager.py:511-530 | applying a network's payload is refused if and only if an operator's client holds the CIDR; otherwise the payload becomes the network's only managed client and no other client changes |
| AdGuardClients.DeleteEffect | backend/app/dns/manager.py:532-542 | deleting removes exactly the client of that name |
| DnsProtection.SoleClient | backend/app/dns/manager.py:483-489 | a network never has two managed clients |
| DnsProtection.RequestedServes | backend/app/dns/manager.py:245-262 | the payload of a set filters as the level asked for says, through the provider asked for or else the level's own, encrypted endpoints before plain ones; otherwise the first failing check decides the error |
| DnsProtection.ResolvedServes | backend/app/dns/manager.py:330-352 | so for a re-applied row, under the name stored with it if there is one |
| DnsProtection.RequestsStayHome | backend/app/dns/manager.py:232-359 | an undisturbed request for one network leaves the clients of all others alone |
| DnsInterleaving.StepKeeps | backend/app/dns/manager.py:232-359 | every step of every request, whatever others are under way and whatever fails, keeps clients pairwise distinct and each managed one at its network's CIDR and name, and leaves the operator's clients exactly as they were |
| DnsInterleaving.RunKeeps | backend/app/dns/manager.py:232-359 | so does every interleaving of any number of sets, removals and re-applies suspended at their awaits, and no network ever has two managed clients |
| DnsInterleaving.PostKeeps | backend/app/dns/manager.py:476-542 | a push or deletion changes clients of its own network only, however stale its look-up is |
| DnsInterleaving.LevelReadMeetsTask | backend/app/dns/manager.py:245-262 | whatever interleaves, the payload a request goes on with serves the level and the provider that its level step reads, and a set stores what it was asked for |
| DnsAgreement.StepAgreesIff | backend/app/dns/manager.py:232-359 | for every step of every request, the exact condition under which row and client of a network stay in agreement |
| DnsAgreement.SidesFollowMarks | backend/app/dns/manager.py:232-359 | in every interleaving, row and client are what the writes carried out so far for the network make of them |
| DnsAgreement.AgreeIff | backend/app/dns/manager.py:232-359 | in every interleaving, they agree after any number of steps if and only if those writes leave both with one name; the network is covered, or has a row, if and only if they leave a client, or a row |
| DnsOverlap.OverlapAgreesIff | backend/app/dns/manager.py:274-319 | of all interleavings of the writes of one set and one removal, those that end in agreement are exactly those in which the row is saved last just when the client is put last or bears another name |
| DnsOverlap.SetRemoveOverlapIff | backend/app/dns/manager.py:274-319 | so in every run whose only writes for a network are those of one set and one removal |
| DnsOverlap.LatePushLeavesOrphanIff | backend/app/dns/manager.py:511-530 | a push that arrives when its network has neither row nor client leaves an orphan client if and only if it is sent as an addition and no operator's client holds the CIDR |
| DnsOverlap.StaleReapplyLeavesOrphan | backend/app/dns/manager.py:322-359 | a re-apply that listed a row before its removal and pushes it after leaves an orphan client, and reports it as applied |
| DnsRequestsApart.ApartRequestsAgree | backend/app/dns/manager.py:232-359 | where requests on one network do not overlap and none fails halfway, row and client agree whenever no request is between its two writes, however requests on other networks interleave |
| DnsRequestsApart.RowsStayCovered | backend/app/dns/manager.py:232-359 | where requests on one network do not overlap, AdGuard keeps its clients and no row outlives its deleted client, the row has exactly one managed client at its CIDR at all times except while about to be dropped, however AdGuard refuses, fails or loses answers |
| DnsReconciliation.TidyIsBijection | backend/app/dns/manager.py:476-489 | when the stores agree, every managed client belongs to exactly one row and carries the stored name |
| DnsReconciliation.SetTidyIff | backend/app/dns/manager.py:274-285 | an undisturbed set keeps the stores in agreement if and only if it is not carried out in AdGuard under a new name without the row being saved |
| DnsReconciliation.RemoveTidyIff | backend/app/dns/manager.py:303-319 | an undisturbed removal keeps them in agreement if and only if the client and the row go together; with AdGuard down it leaves an orphan client |
| DnsReconciliation.ReapplyTidy | backend/app/dns/manager.py:322-359 | an undisturbed re-apply keeps them in agreement, whatever fails |
| DnsReconciliation.ErrorsAreBlocked | backend/app/dns/manager.py:336-358 | with AdGuard answering, an undisturbed re-apply reports as errors exactly the rows whose level or provider is gone or whose CIDR an operator's client holds |
| DnsReconciliation.ReportPartitions | backend/app/dns/manager.py:328-359 | every row is reported exactly once: applied, failed, or skipped because its network is gone |
| DnsReconciliation.ReapplyRestores | backend/app/dns/manager.py:322-359 | every row that is not blocked has its payload in AdGuard after re-apply |
| DnsReconciliation.AppliedRowsAreServed | backend/app/dns/manager.py:338-356 | after an undisturbed re-apply every row reported as applied has in AdGuard a client with the row's name and the network's CIDR, the filter settings of the row's level, and exactly the endpoints of its provider that there are, encrypted ones first |
| DnsReconciliation.AcceptedSetIsServed | backend/app/dns/manager.py:244-285 | so has the network after a set that AdGuard accepts |
| DnsReconciliation.ReapplyTwice | backend/app/dns/manager.py:322-327 | a second re-apply, in any order of rows, changes nothing |
| DnsReconciliation.RecoveryIsExact | backend/app/dns/manager.py:322-359 | after AdGuard lost all managed clients, a re-apply without errors leaves as managed clients exactly the payloads of the rows that have a network, and the operator's clients untouched |
| DnsProtectionManager.Manager.BeginSet | backend/app/dns/manager.py:244 | a set reads its network, or ends |
| DnsProtectionManager.Manager.BeginRemove | backend/app/dns/manager.py:305-310 | a removal reads its row, or ends |
| DnsProtectionManager.Manager.BeginReapply | backend/app/dns/manager.py:328-329 | a re-apply lists the rows once |
| DnsProtectionManager.Manager.ReadNetwork | backend/app/dns/manager.py:330-335 | the next listed row: its network, or skipped |
| DnsProtectionManager.Manager.ReadLevel | backend/app/dns/manager.py:245-262 | level and provider: a payload with the level's settings and the provider's endpoints, or the error that ends the set or is reported for the row |
| DnsProtectionManager.Manager.FindManagedClient | backend/app/dns/manager.py:476-509 | the loop returns what the look-up specifies; the name found is a managed one |
| DnsProtectionManager.Manager.HasClient | backend/app/dns/manager.py:536-538 | the loop finds whether some client has the name |
| DnsProtectionManager.Manager.GetList | backend/app/dns/manager.py:522-523 | what the list says becomes what the request will ask for |
| DnsProtectionManager.Manager.Post | backend/app/dns/manager.py:524-530 | the list changes exactly as AdGuard carries out the request, whatever it has become since the look-up; an accepted push leaves the payload in it |
| DnsProtectionManager.Manager.Write | backend/app/dns/manager.py:280-285 | the row is saved or dropped, or nothing when the database refuses |
| DnsProtectionManager.Manager.SetProtection | backend/app/dns/manager.py:232-301 | the steps of a set with nothing in between: accepted, the network's client has the settings of the level and the endpoints of the provider and the row stores both; each error exactly when its check fails |
| DnsProtectionManager.Manager.RemoveProtection | backend/app/dns/manager.py:303-320 | the steps of a removal with nothing in between: the row is deleted whether or not AdGuard's client was |
| DnsProtectionManager.Manager.ReapplyAll | backend/app/dns/manager.py:322-359 | the steps of a re-apply with nothing in between, with its report: each row reported as applied has a client with its level's settings and its provider's endpoints |
| DnsProtectionManager.Manager.ReapplyOne | backend/app/dns/manager.py:330-358 | one row: skipped, failed or pushed |
| SurveillanceSessions.BandsRoundTrip | backend/app/scheduler/surveillance.py:67-74 | the stored band list parses back to the bands that were scheduled |
| SurveillanceSessions.RunKeeps | backend/app/scheduler/surveillance.py:96-324 | in every interleaving: ended_at is set if and only if a session is not active; a completed one ended no earlier than its deadline; while active, total_passes is the number of its persisted runs and unique_bssids the number of their distinct BSSIDs; jobs and passes run listed bands of existing sessions |
| SurveillanceSessions.FinishedIsFinal | backend/app/scheduler/surveillance.py:180-192 | a session that is over never changes again: its status leaves active at most once, its end and both counters are frozen |
| SurveillanceSessions.KeptBandsAre | backend/app/scheduler/surveillance.py:67-74 | the bands kept of a list are those of its parts that are 2, 5 or 6, white space aside |
| SurveillanceSessions.RowsAreAsRequested | backend/app/scheduler/surveillance.py:153-163 | in every run, from the step that starts it on, a session's row keeps the device, start, duration and interval it was asked for, and lists exactly the bands asked for |
| SurveillanceSessions.DeadlineIsAsRequested | backend/app/scheduler/surveillance.py:301-324 | a supervisor tick or restart at t completes a session started at now for a duration, if still active, if and only if now + duration <= t, and then ends it at t |
| SurveillanceSessions.CountersAreOfPasses | backend/app/scheduler/surveillance.py:286-299 | in every run the counters of an active session are the number of passes persisted for it and the number of different BSSIDs that they saw, on all bands together |
| SurveillanceSessions.NoneOverdue | backend/app/scheduler/surveillance.py:301-324 | after a supervisor tick or a restart no active session is overdue, the overdue ones are completed at that instant, and the others are untouched |
| SurveillanceJobs.JobExistsIff | backend/app/scheduler/surveillance.py:171-214 | which jobs exist: those of the listed bands of each scheduled session that is active, still being cancelled, or orphaned |
| SurveillanceJobs.JobsFollowStatusIff | backend/app/scheduler/surveillance.py:171-192 | for a session nobody is starting or cancelling, jobs are those of its bands while active and none after, if and only if its jobs were not scheduled after it was over |
| SurveillanceJobs.CancelBeforeScheduleLeavesJobs | backend/app/scheduler/surveillance.py:168-191 | a cancellation between a start's commit and its schedule leaves every job behind |
| SurveillanceJobs.OrphansOutliveSupervisor | backend/app/scheduler/surveillance.py:216-222 | such jobs outlast every step but a restart, supervisor ticks included |
| SurveillanceJobs.FewLateScans | backend/app/scheduler/surveillance.py:250-299 | at most three scans, one per band, are stored for a session beyond its final counter |
| SurveillanceManager.Manager.StartCommit | backend/app/scheduler/surveillance.py:149-170 | an active row with exactly the device, start, duration and interval asked for and empty counters, or no change when no band is valid |
| SurveillanceManager.Manager.StartSchedule | backend/app/scheduler/surveillance.py:171-172 | one job per band of the row |
| SurveillanceManager.Manager.CancelCommit | backend/app/scheduler/surveillance.py:180-190 | ends an active session as cancelled at that time, leaves any other alone |
| SurveillanceManager.Manager.CancelRemove | backend/app/scheduler/surveillance.py:191-214 | removes the jobs of the session's bands |
| SurveillanceManager.Manager.PassCheck | backend/app/scheduler/surveillance.py:216-223 | a pass goes on exactly when its session is active |
| SurveillanceManager.Manager.PassPersist | backend/app/scheduler/surveillance.py:250-299 | stores a run of the session, band and BSSIDs of the pass in any case and counts it only while the session is active |
| SurveillanceManager.Manager.Supervise | backend/app/scheduler/surveillance.py:301-324 | ends exactly the overdue sessions and removes their jobs |
| SurveillanceManager.Manager.SuperviseAll | backend/app/scheduler/surveillance.py:305-317 | the loop of the supervisor, over the rows in any order |
| SurveillanceManager.Manager.RegisterAll | backend/app/scheduler/surveillance.py:102-120 | the loop of the boot: overdue sessions end, jobs of the others are scheduled |
| SurveillanceManager.Manager.Restart | backend/app/scheduler/surveillance.py:96-129 | a restart of the process, then the boot |
| SurveillanceTimeline.BucketsTile | backend/app/scheduler/surveillance.py:399-409 | buckets tile the window; an observation lies in its bucket if and only if its offset is inside the window |
| SurveillanceTimeline.BucketIsClampedFloor | backend/app/scheduler/surveillance.py:408-409 | the bucket is the whole part of offset over size, clamped to the first and last bucket |
| SurveillanceTimeline.BucketsShareTheSession | backend/app/scheduler/surveillance.py:397-400 | the buckets together are as long as the session, or one second if it is shorter |
| SurveillanceTimeline.FirstAndLastAre | backend/app/scheduler/surveillance.py:402-440 | the observations a row takes its facts from have no earlier, and its names no later, one of the same BSSID |
| SurveillanceTimeline.KeysInOrder | backend/app/scheduler/surveillance.py:402-440 | the rows are made in the order in which their BSSIDs were first observed |
| SurveillanceTimeline.TimelineOrder | backend/app/scheduler/surveillance.py:478-482 | sorted, the higher (maximum + minimum) // 2 comes first, and equal ones in the order in which their BSSIDs were first observed |
| SurveillanceTimeline.StrongerComesFirst | backend/app/scheduler/surveillance.py:478-482 | a row stands before every row whose maximum and minimum are both at least 2 dB below its own |
| SurveillanceTimeline.Accumulate | backend/app/scheduler/surveillance.py:402-440 | the one-pass dictionary loop yields, per BSSID, the declared maximum, minimum, per-bucket maxima, scans, first and latest observation |
| SurveillanceTimeline.TimelineFor | backend/app/scheduler/surveillance.py:402-482 | one row per observed BSSID, each as declared over all its observations, the higher (maximum + minimum) // 2 first and equal ones in the order first observed |
| SurveillanceTimeline.OverallIsBucketMax | backend/app/scheduler/surveillance.py:427-435 | the overall maximum is the maximum over the buckets, and no bucket is below the overall minimum |
| SurveillanceTimeline.PresenceIsARatio | backend/app/scheduler/surveillance.py:453-454 | presence is above 0 and at most 1, and 1 if and only if the BSSID was in every scan |
| SurveillanceTimeline.OrderDoesNotMatter | backend/app/scheduler/surveillance.py:387-440 | the numbers of a row do not depend on the order of the observations |
| SurveillanceTimeline.ClassifyIsDescribedIff | backend/app/scheduler/surveillance.py:442-449 | the classification is the one the module header describes, if and only if the presence is not in [0.5, 0.8) with a drift below 5; there it is drifting |
| SurveillanceTimeline.SortIsStable | backend/app/scheduler/surveillance.py:478-482 | the sort orders rows, keeps them all, and moves none of equal strength past another |
| ReconNetworks.ScanIsBounded | backend/app/recon/interfaces.py:149-169 | for every address and prefix, the scanned network lies inside the declared one, contains the Slate and has at most 1024 addresses; networks of up to 1024 are scanned whole, of wider ones the addresses that share three octets with the Slate |
| ReconNetworks.HostsAreUsable | backend/app/recon/discovery.py:128-131 | the host list is, in increasing order, the usable addresses of the network, /31 and /32 included |
| ReconNetworks.TargetsAreComplete | backend/app/recon/discovery.py:128-131 | the targets are, each once, all usable addresses of the scanned network except the Slate's, at most 1022 |
| ReconNetworks.SmallNetworksAreSwept | backend/app/recon/interfaces.py:149-169 | where the declared network is scanned whole, every usable neighbour is a target |
| ReconNetworks.PingSweep | backend/app/recon/discovery.py:175-195 | whatever the order in which probes end, the responders are exactly the targets that answer, each once, and progress is reported after every sixteenth probe and the last, out of the number of targets |
| ReconNetworks.OctetOrder | backend/app/recon/discovery.py:227 | comparing dotted octets as tuples orders addresses as numbers |
| ReconHosts.ReadFirst | backend/app/recon/discovery.py:211-213 | of several first-pass entries for an address the last one counts |
| ReconHosts.LastMacIs | backend/app/recon/discovery.py:211-213 | it is the MAC of an entry that no later one for the address follows |
| ReconHosts.ReadSecond | backend/app/recon/discovery.py:214-217 | a second-pass entry counts only where no MAC is known yet |
| ReconHosts.FilledKeeps | backend/app/recon/discovery.py:214-217 | a first-pass MAC is never overwritten |
| ReconHosts.FilledSupplies | backend/app/recon/discovery.py:214-217 | where there was none, the first MAC of the second pass is taken |
| ReconHosts.Fuse | backend/app/recon/discovery.py:198-228 | the fused list is strictly increasing by address and holds exactly the expected host of every source address |
| ReconHosts.HostListIsUnion | backend/app/recon/runner.py:155-160 | with gateway and Slate added, the addresses are exactly the union of all sources, each tag says exactly where the host was seen, a first-pass MAC is kept, and where the first pass has none the first of the second pass is taken |
| ReconHosts.AddExtras | backend/app/recon/runner.py:156-160 | the extras are added once, only where missing, and the list stays strictly increasing |
| ReconHosts.ReplaceIsUniqueIff | backend/app/db/models.py:1409-1413 | replacing an interface's rows keeps (scan, interface, ip) unique if and only if no address is listed twice |
| ReconHosts.ReplaceIsIdempotent | backend/app/recon/store.py:115-121 | writing the same list again changes nothing, and rows of other scans and interfaces stay |
| ReconHosts.RowsAreWritten | backend/app/recon/store.py:115-143 | every host has a row with its address and source, the first 17 characters of its MAC, and the gateway and self flags exactly at those addresses; the scan and interface have no other rows |
| ReconHosts.ReconStore.UpsertHosts | backend/app/recon/store.py:106-143 | replace-all in one transaction: the rows of the scan and interface become those of the list, or nothing changes when the key would break |
| ReconHosts.ReconStore.RunOneInterface | backend/app/recon/runner.py:155-168 | fuse, add, sort and persist: the write never breaks the key, and every host of the list has its row |

## Left out

- SSH commands, HTTP calls, device probing and the bodies of anti-theft actions: only their outcome (done, failed, done without an answer) is modelled.
- The credentials, key and URL checks inside the registry's build: they appear as a build step that may fail.
- Log lines, the audit trail, `snapshot` views and `test_run`: they change no state.
- `SlugAlignmentMigration.Database.Upgrade`: timestamps, JSON text and columns other than the slugs are not modelled.
- `SsidBindingMigration.Database.Upgrade`: payloads are lists of references with string fields or other values; JSON text is not modelled, nor is the re-run on a table without the column beyond its guard, and NULL and the empty network are one value.
- `ApRoot.MaskAfterUpperFive`: lower-casing, white space and digits are those of ASCII text; Python also knows other scripts'.
- `ApReviewMigration.ApReviews.Upgrade`: `reviewed_at` is a position on a time line; the rows' other columns are not modelled.
- The downgrades of the two AP-root migrations: they restore a default, not the old values.
- `WordWrap.WrapText`: starts from the list of words; `text.split()` and font metrics are parameters.
- `ScreenLockWatcher.Watcher.ApplyTelemetry`: samples are applied one at a time.
- `ScreenLockWatcher.Watcher.DiffAndDispatch`: the action and the note that follow a count are no part of the hook call; `AntiTheft.AntiTheftService.WriteNote` is their own step.
- `PinLockoutService.Service.RecordFailure`: likewise.
- `DnsInterleaving.StepKeeps`: the admin bootstrap is part of "AdGuard's list cannot be read", and requests run in one process.
- `reapply_protections_using_level`: it is a loop of `set_protection` calls, so interleavings of sets cover it.
- Network CIDRs are fixed and pairwise distinct; what AdGuard does with overlapping but unequal subnets is not modelled.
- Deleting a surveillance session (backend/app/api/routes/surveillance.py:198-236), which removes rows outside the manager.
- `SurveillanceManager.Manager.Restart`: the boot runs on an empty scheduler, as when the process starts; a pass's location and device look-ups only decide whether it goes on.
- `SurveillanceTimeline.TimelineFor`: offsets and ratios are reals; rounding of the shown ratio to three digits and the fixed session header of the answer are not modelled.
- `ReconNetworks.TargetsAreComplete`: addresses are numbers; dotted text is assumed to be in canonical form, as `ip` prints it.
- Parsing of `ip`, `arp-scan` and `nmap` output, port probing and banners.
- `ReconHosts.ReconStore.UpsertHosts`: vendor and hostname columns, which discovery leaves empty.
- Scores, plans, catalogues, image rendering and plain CRUD stores: they would add easy members only.
