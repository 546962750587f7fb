# Ansina, modelled in Dafny

Ansina is a self-hosted agent daemon. This project models the parts of it whose correctness
depends on state that builds up over many operations, and proves what they promise over every
input, every history or every reachable state.

Times are integers of microseconds and stored ISO timestamps are cut to whole milliseconds, as
`iso` cuts them. SQLite tables are maps and sets, one transaction is one update, and a directory
is a map from file names to files. Randomness, clocks, the network, password and token hashes,
`casefold`, one-time-code generation, regular expressions, token counting and the model's replies
are parameters over which every statement is universal.

| files | what they model |
|---|---|
| `Clock`, `Text` | ISO timestamps whose text order is their time order |
| `Lockout`, `LockoutBounds`, `LoginThrottle`, `Sudo`, `Totp` | login throttle, sudo lockout and grants, one-time codes |
| `Counting`, `OpencodeRuns`, `OpencodeTelemetry`, `OpencodeRunner`, `OpencodeProtocol`, `OpencodeInvariant`, `OpencodePromises`, `OpencodeSchedules`, `OpencodeRecords` | the run lifecycle: rows, tasks, admission, semaphore, children, telemetry, crashes and boots |
| `SpoolNames`, `Rotation` | the rotating spool of telemetry and log lines |
| `Policy`, `RbacTables`, `Rbac`, `RbacStore`, `RbacEffects` | users, groups, roles, grants and the guards over them |
| `Reconciler`, `BootScope`, `RoleSync` | boot-time grant reconciliation and its scope, claims to roles |
| `OidcLogin`, `OidcHistory`, `OidcOutcome` | federated login |
| `Masking`, `Redaction` | secret redaction |
| `BrainStream` | the retrying, never-throwing model stream |
| `PermissionRules` | rendering glob lists for a last-match-wins reader |
| `Toml`, `HostsToml` | printing the terminal client's credentials file and reading it back |
| `Journal`, `Curation` | the bounded journal, selection under a token budget |

Where the source updates state in place, the model is a class whose methods are proved against
functions of the old state; theorems over histories are stated about those functions.

## Where the code and its own documentation disagree

The model follows the code. Each point is proved, or follows directly from the cited lines.

- `src/ansina/auth/login_throttle.py:147-184`: because stored instants lose their microseconds, an interval as long
  as both settings can hold `2 * max` failures; with settings of whole milliseconds it can exactly if the two are
  equal, as shipped for login, or the lock is the shorter one and `max` is one
  (`LockoutBounds.PlainBoundHoldsExactlyWhenSound`, `LockoutBounds.SoundInMilliseconds`,
  `LoginThrottle.ShippedSettingsOverrun`). The reset branch at line 162 never runs after a sweep
  (`Lockout.SurvivorIsInsideItsWindow`).
- `src/ansina/opencode/runner.py:104-106`: the semaphore is said to bound how many children run at once, but a
  cancellation that lands in `_finish` (lines 322-366) gives its place back under a living child, so more children
  than the limit can run; exactly then (`OpencodeSchedules.OverrunsExactlyOnceAbandoned`,
  `OpencodeSchedules.OneCancellationOverruns`).
- `src/ansina/opencode/telemetry.py:294-302`: the counter map is said not to grow without bound, but a line written
  after a run's terminal line makes an entry nobody removes (`OpencodeTelemetry.EndedRunsLeakEntries`).
- `src/ansina/telemetry/rotation.py:7-9`: families in one directory are said never to interact; that holds exactly
  when neither prefix begins with the other (`SpoolNames.FamiliesAreApart`).
- `src/ansina/logging/redaction.py:83-92`: a registered secret that begins or ends with `*`, or holds `***`, can be
  completed by a mask next to it (`Redaction.OnlyCleanSecretsAreSafe`).
- `src/ansina/brain/provider.py:95-103`: the stream raises after all when more than 1024 retries are configured,
  because `2.0 ** 1024` overflows inside the handler (`BrainStream.NeverThrowsUpToOverflow`).
- `src/ansina/opencode/config.py:23-31`: an overlapping denial does not always beat an allowance, because a
  reassigned dict key keeps its first place (`PermissionRules.ExactlyWhenAllowedComeFirst`).
- `src/ansina/auth/reconciler.py:75-77`: the pass goes by slug where its documentation goes by the `builtin` flag; the
  documented scope holds exactly if no custom role has a builtin slug
  (`Reconciler.ScopeHoldsExactlyWithoutImpostor`, a failing state in `Reconciler.ImpostorLosesGrants`), which every
  run of the management routes from a seeded table keeps (`BootScope.RunKeepsScope`).
- `src/ansina/heart/curation.py:153-184`: a run of more than 4300 digits makes `int()` raise instead of falling back
  (`Curation.Curate`).
- `tui/src/ansina_tui/config.py:191-193`: control characters are not escaped, so a file holding one is written but
  cannot be read (`HostsToml.PrintThenRead`).

## Model

| member | source | states |
|---|---|---|
| Clock.ParseInvertsIso | src/ansina/auth/clock.py:27-38 | for years 1000 to 9999 `parse_iso` gives back the instant `iso` printed, cut to milliseconds |
| Clock.TruncateMicros | src/ansina/auth/clock.py:27-34 | that cut, on the instant's microseconds, rounds down to the millisecond |
| Clock.IsoOrderIsTimeOrder | src/ansina/auth/clock.py:27-34 | two `iso` texts compare as text exactly as their millisecond-truncated times compare |
| Clock.IsoLayout | src/ansina/auth/clock.py:27-34 | the text is `YYYY-MM-DDTHH:MM:SS.mmmZ`, 24 characters, every field the number it stands for |
| Lockout.NextIsCounted | src/ansina/auth/login_throttle.py:147-184 | with and without the sweep, an unlocked bucket's streak starts anew exactly at the end of its life, and otherwise counts one more |
| LockoutBounds.FailureUsesRoom | src/ansina/auth/login_throttle.py:147-184 | for each of the four ways an interval can be too short for more, every failure an unlocked bucket records inside it uses up room |
| Lockout.SurvivorIsInsideItsWindow | src/ansina/auth/login_throttle.py:161-166 | after the sweep a surviving unlocked row is still inside its streak window, so the count goes up by one |
| LockoutBounds.BoundIsAttained | src/ansina/auth/login_throttle.py:147-184 | the tight bound is tight: after one earlier failure some short interval takes exactly that many |
| LockoutBounds.FullWindowIsTooLong | src/ansina/config/settings.py:429-432 | at the shipped login settings, for every `max`, one interval of 900 seconds takes `2 * max` failures of a clean bucket |
| LockoutBounds.BoundHoldsExactlyWhenShort | src/ansina/auth/login_throttle.py:121-184 | for all settings, with and without the sweep: `[a, b)` takes at most `max(1, 2*max - 2)` failures from every row if and only if it is `Short`, a comparison of `b` with the stored ends of a streak and a lock begun at `a` |
| LockoutBounds.PlainBoundHoldsExactlyWhenSound | src/ansina/auth/login_throttle.py:121-184 | for all settings, with and without the sweep: every interval no longer than the window and the lock takes at most `2*max - 1` failures from every row if and only if the settings are `Sound`, a check on the settings alone |
| LockoutBounds.SoundInMilliseconds | src/ansina/auth/login_throttle.py:156-172 | settings of whole milliseconds are `Sound` if and only if the lock is longer than the window, or shorter with a `max` above one |
| LockoutBounds.ShippedSettings | src/ansina/config/settings.py:409-432 | the shipped sudo settings keep the plain bound; the shipped login settings break it for every `max` |
| Lockout.CleanBucketTakesMax | src/ansina/auth/login_throttle.py:147-184 | a bucket without a row takes `max` failures within one window, and exactly the last of them sets the lock, for the length of the setting |
| LoginThrottle.LoginThrottle.Check | src/ansina/auth/login_throttle.py:94-119 | refuses exactly while a bucket is locked, and names the exact wait after which it stops refusing |
| LoginThrottle.LoginThrottle.RecordFailure | src/ansina/auth/login_throttle.py:121-145 | sweeps, then counts the failure in both buckets; the whole new table is stated |
| LoginThrottle.LoginThrottle.BumpBucket | src/ansina/auth/login_throttle.py:147-184 | one bucket's new row: streak, count and lock; every other row stays |
| LoginThrottle.LoginThrottle.RecordSuccess | src/ansina/auth/login_throttle.py:186-191 | removes both buckets and nothing else |
| LoginThrottle.LoginThrottle.Login | src/ansina/auth/login_throttle.py:94-191 | check, then record, as one step of the history the bound is about |
| LoginThrottle.SuccessClearsBothBuckets | src/ansina/auth/login_throttle.py:186-191 | after a success neither its username nor its address has a row, and every other key keeps its row |
| LoginThrottle.CleanBucketTakesMaxAttacks | src/ansina/auth/login_throttle.py:94-184 | over histories a bucket without a row takes its own maximum of failures within one window, none refused, and exactly the last sets a lock |
| LoginThrottle.SuccessForgetsFailures | src/ansina/auth/login_throttle.py:186-191 | so does every bucket a success touched, whatever it held before: earlier failures do not count |
| LoginThrottle.StepKeepsTableOk | src/ansina/auth/login_throttle.py:121-184 | every attempt keeps each row locked exactly from its bucket's `max` on |
| LoginThrottle.FailuresAreRecordable | src/ansina/auth/login_throttle.py:94-191 | in every sequential history the failures recorded against one bucket in an interval are failures of that one row, whatever happens to the other buckets |
| LoginThrottle.HistoriesAreRows | src/ansina/auth/login_throttle.py:94-191 | over all well-formed tables and sequential histories a bucket records at most `n` failures in an interval without a success of its own if and only if one row does |
| LoginThrottle.SlidingWindowBound | src/ansina/auth/login_throttle.py:94-191 | so over all histories the tight bound holds of exactly the `Short` intervals |
| LoginThrottle.PlainWindowBound | src/ansina/auth/login_throttle.py:94-191 | and `2*max - 1` holds of all intervals no longer than the two settings if and only if they are `Sound` |
| LoginThrottle.ShippedSettingsOverrun | src/ansina/config/settings.py:429-432 | as shipped, some history from an empty table records `2*max` failures of one bucket in 900 seconds, whatever the two maxima |
| Sudo.ResolveFactor | src/ansina/auth/sudo.py:178-226 | a named factor counts only if enrolled, an unnamed one only if it is the only one |
| Sudo.SudoService.StepUp | src/ansina/auth/sudo.py:109-176 | the lock, factor, denial and grant outcomes, and both tables after each |
| Sudo.SudoService.RecordFailure | src/ansina/auth/sudo.py:234-263 | one user's streak moves as in the shared lockout arithmetic; no other row changes |
| Sudo.SudoService.Resolve | src/ansina/auth/sudo.py:265-271 | the grant that `find_active` finds for this user, token and time, and no state change |
| Sudo.SudoService.RevokeForUser | src/ansina/auth/repositories.py:1167-1173 | revokes that user's grant and touches no other |
| Sudo.SudoService.RevokeEverything | src/ansina/auth/repositories.py:1175-1183 | revokes every grant |
| Sudo.SudoService.DropForTombstone | src/ansina/auth/repositories.py:456-477 | a tombstone removes the user's grant row |
| Sudo.ResolveIsLatestStepUp | src/ansina/auth/sudo.py:152-176 | if distinct tokens hash apart, a token resolves exactly when the user's latest grant event is the step-up that issued it and its lifetime has not passed, for every history |
| Sudo.StepUpAnswers | src/ansina/auth/sudo.py:124-176 | a step-up is answered by the first of a running lock with its wait, no single factor, a wrong code; else it is granted for the lifetime |
| Sudo.GrantIsStored | src/ansina/auth/sudo.py:152-176 | a granted step-up stores one grant, and the user's token finds it until the lifetime ends |
| Sudo.CleanUserTakesMax | src/ansina/auth/sudo.py:234-263 | a user without a lockout row is denied `max` times within one window, none refused, and exactly the last sets a lock |
| Sudo.SuccessForgetsFailures | src/ansina/auth/sudo.py:152-176 | so is a user right after a granted step-up, whatever was denied before |
| Sudo.HistoriesAreRows | src/ansina/auth/sudo.py:124-150 | over all histories, revocations, tombstones and other users included, a user is denied at most `n` times in an interval without a success of their own if and only if one row allows no more |
| Sudo.SlidingWindowBound | src/ansina/auth/sudo.py:124-150 | over all histories the tight bound holds of exactly the intervals that are `Short` without a sweep |
| Sudo.PlainWindowBound | src/ansina/auth/sudo.py:124-150 | and `2*max - 1` holds of all intervals no longer than the two settings if and only if they are `Sound` without a sweep |
| Totp.FindValidStep | src/ansina/auth/totp.py:63-90 | finds the earliest step of the drift window that matches and lies above the floor, or none exists |
| Totp.TotpStepUpVerifier.Verify | src/ansina/auth/step_up.py:103-137 | accepts exactly on such a step and stores it; a refused code stores nothing |
| Totp.AcceptedStepsIncrease | src/ansina/auth/step_up.py:123-137 | while an enrolment stands the accepted steps strictly increase, whatever the clock reads, so no step is accepted twice |
| Totp.VerifyAcceptsExactly | src/ansina/auth/totp.py:63-90 | a code is accepted if and only if it is the code of a step within one of the clock's and above the floor; the earliest such step becomes the floor, a refusal changes nothing |
| Totp.FreshCodeWorksOnce | src/ansina/auth/step_up.py:103-137 | right after an enrolment the code of the moment, or one step off, is accepted, and the same code again is refused |
| Totp.EnrolmentChanges | src/ansina/auth/management.py:296-308 | a second enrolment keeps the first secret and floor; a removal ends the enrolment; no other user is touched |
| OpencodeRuns.OpencodeRunRepository.Create | src/ansina/opencode/repository.py:93-123 | adds one queued row and keeps every other |
| OpencodeRuns.OpencodeRunRepository.UpdateStatus | src/ansina/opencode/repository.py:125-207 | refuses to leave a terminal status; otherwise sets the status and the patched columns of one row |
| OpencodeRuns.OpencodeRunRepository.CountActive | src/ansina/opencode/repository.py:246-259 | the number of queued or running rows |
| OpencodeRuns.OpencodeRunRepository.IncrementInterventionCount | src/ansina/opencode/repository.py:362-389 | adds one to that counter of one row only |
| OpencodeRuns.OpencodeRunRepository.SweepStaleOnBoot | src/ansina/opencode/repository.py:391-412 | fails every active row, leaves the rest, and returns how many there were |
| OpencodeRuns.UpdateSetsNamedColumns | src/ansina/opencode/repository.py:125-207 | an update is refused exactly on a terminal row; otherwise every column it names takes its value, every other column stays, and prompt, session, creation time and parent cannot change |
| OpencodeTelemetry.OpencodeTelemetryWriter.NextSeq | src/ansina/opencode/telemetry.py:294-302 | hands out the stored number, and drops the entry on a terminal line |
| OpencodeTelemetry.OpencodeTelemetryWriter.Write | src/ansina/opencode/telemetry.py:304-340 | the number advances whether or not the line reaches the file |
| OpencodeTelemetry.NumberCountsLinesSinceEnded | src/ansina/opencode/telemetry.py:294-340 | a line's number is the count of attempted lines of its run since that run's last terminal line, for every history, so a lost line shows as a gap |
| OpencodeTelemetry.EndedRunsLeakEntries | src/ansina/opencode/telemetry.py:294-302 | for any set of runs some history leaves an entry for each although all of them ended |
| OpencodeRunner.RunOne | src/ansina/opencode/runner.py:199-296 | exactly the events before the ending tick are delivered, numbered from 0 in order; the ending tick decides the status, a timeout before the output cap before the exit code; the bytes taken never exceed the cap |
| OpencodeRunner.EndsAfterLines | src/ansina/opencode/runner.py:229-262 | the loop ends at the first tick, after lines that came in time and fit the cap together, that is too late, brings nothing, closes the pipe or breaks the cap |
| OpencodeInvariant.StepKeepsInv | src/ansina/opencode/service.py:243-429 | every step of the protocol keeps the counters, rows, telemetry and lineage consistent |
| OpencodeInvariant.RunnerNeverRefuses | src/ansina/opencode/runner.py:139-165 | a task about to enter the runner always finds room |
| OpencodePromises.BacklogIsBounded | src/ansina/opencode/runner.py:139-165 | in every reachable state the admitted count is exactly the calls past admission, at most the queued or running rows, which are at most the queue depth; at most the concurrency limit of runs hold the semaphore; the runner never refuses |
| OpencodePromises.EnteredTasksEndTerminal | src/ansina/opencode/service.py:339-392 | a task that entered `_execute` and is over has a terminal row or its terminal write in flight, a terminal row once no write is in flight, and a live task's cancellation is never refused |
| OpencodePromises.TracesAreLegal | src/ansina/opencode/telemetry.py:183-341 | every run's own lines are numbered 0, 1, 2, ... and, interventions aside, read submitted, started, events, one terminal, or submitted then cancelled; a terminal row agrees with its trace in status and event count |
| OpencodeSchedules.EveryTaskCanFinish | src/ansina/opencode/runner.py:139-165 | from every consistent state a schedule without cancellation runs every task to its end, children left behind staying alive: no wait for the semaphore is hopeless |
| OpencodeSchedules.OrphansAreAbandoned | src/ansina/opencode/runner.py:322-366 | a step leaves a living child without a place in the semaphore exactly if it is a cancellation that lands while that child is being reaped |
| OpencodeSchedules.ChildrenAreBounded | src/ansina/opencode/runner.py:199-296 | over every run in which no cancellation does so, the living children never exceed the concurrency limit |
| OpencodeSchedules.OverrunsExactlyWithOrphans | src/ansina/opencode/runner.py:139-165 | from every consistent state of a running daemon, more children than the limit can run without a further cancellation if and only if the children left behind and the places that can be filled exceed it |
| OpencodeSchedules.OverrunsExactlyOnceAbandoned | src/ansina/opencode/runner.py:322-366 | while no child is left behind and the queue has room, a step makes that possible if and only if it is such a cancellation |
| OpencodeSchedules.OneCancellationOverruns | src/ansina/opencode/runner.py:260-266 | for every configuration a schedule from the first boot with a single cancellation ends with one child more than the limit |
| OpencodePromises.RowsOnlyMoveForward | src/ansina/opencode/repository.py:125-207 | across every run, crashes and reboots included, a row moves only from queued to running to one terminal status, and a terminal row changes nothing but its intervention count |
| OpencodeInvariant.BootKeepsInv | src/ansina/opencode/repository.py:391-412 | right after the boot sweep no row is active and the state is consistent |
| OpencodeInvariant.LeadsKeepsInv | src/ansina/opencode/service.py:243-429 | the invariant holds after every sequence of steps |
| OpencodePromises.LineageHasNoRepeats | src/ansina/opencode/service.py:482-497 | following `retry_of` always leads to older runs and never repeats one |
| OpencodeRecords.PausedIntakeTakesNoRun | src/ansina/opencode/service.py:221-264 | over every history from a pause, or a boot that starts paused, to the next reopening or boot that does not, no submission adds a run |
| OpencodeRecords.SubmitTakesOrRefuses | src/ansina/opencode/service.py:243-295 | a submission adds exactly one queued run, holding its prompt, session, time and parent, if the intake is open, the prompt is not too long and fewer rows than the queue depth are queued or running; otherwise nothing changes |
| OpencodeRecords.OpenIntakeTakesRuns | src/ansina/opencode/service.py:230-295 | from a reopening to the next pause every submission that fits and finds room is taken |
| OpencodeRecords.PromptsFit | src/ansina/opencode/runner.py:147-151 | no run in any reachable state has a prompt the runner would refuse |
| OpencodeRecords.OwnStepsDecide | src/ansina/opencode/service.py:339-392 | two histories with the same steps about a run leave it the same row, task, child and trace, whatever other runs, the queue and the intake do |
| OpencodeRecords.OtherStepsLeaveRun | src/ansina/opencode/service.py:339-392 | steps about other runs leave a run as it is |
| OpencodeRecords.AdmissionRecord | src/ansina/opencode/service.py:339-366 | a submission that finds room and a free place can be driven to a running row with its start time and a reading task with a living child |
| OpencodeRecords.ReadingRecord | src/ansina/opencode/service.py:353-363 | each event read is one numbered line and one more in the task's count; the row does not change meanwhile |
| OpencodeRecords.EndingRecord | src/ansina/opencode/service.py:381-392 | a reaped child's status, error, time and event count reach the row, and its status closes the trace |
| OpencodeRecords.WholeRunRecord | src/ansina/opencode/service.py:243-392 | the whole course of a run, for every prompt, number of events, outcome and time: the exact row and trace it leaves, and no other run is touched |
| OpencodeRecords.CancelBeforeStart | src/ansina/opencode/service.py:394-407 | a task cancelled before its first step goes, and its row stays queued |
| OpencodeRecords.CancelBetween | src/ansina/opencode/service.py:367-380 | a cancellation outside the reading loop writes one terminal line and a cancelled row with the events read so far; the child stays as it is, an interrupted `running` write stays in flight |
| OpencodeRecords.CancelWhileReading | src/ansina/opencode/runner.py:263-296 | a cancellation in the reading loop reaps the child before the same line and row are written |
| OpencodeRecords.CancelWhileWriting | src/ansina/opencode/service.py:381-392 | a cancellation while the outcome is written: the late write leaves the row the undisturbed one would |
| OpencodeRecords.SpawnFailureRecord | src/ansina/opencode/runner.py:199-216 | a failed spawn fails the run with its error and no event |
| OpencodeRecords.LateRunningWrite | src/ansina/opencode/repository.py:125-207 | a late `running` write sets status and start time of an open row, and changes nothing on a terminal one |
| OpencodeRecords.LateIntervention | src/ansina/opencode/telemetry.py:265-302 | an intervention after the end is numbered anew from zero, or on from the last such line |
| OpencodeRecords.RestartRecord | src/ansina/opencode/repository.py:391-412 | a crash and the next boot lose no run: open rows fail as `daemon restarted`, ended rows and all lines stand, tasks, children, writes in flight and counters are gone |
| OpencodeRecords.RowsCountWhatHappened | src/ansina/opencode/service.py:353-392 | in every reachable state a run has one line for each event read and each intervention logged, its row counts the interventions, and a row ended by its task holds the number of events read |
| SpoolNames.TriesDiffer | src/ansina/telemetry/rotation.py:84-96 | two tries for a rotated name differ whatever the clock reads |
| SpoolNames.FamiliesAreApart | src/ansina/telemetry/rotation.py:98-103 | two families never see each other's files if and only if neither prefix extends the other |
| SpoolNames.FamilyIsGlob | src/ansina/telemetry/rotation.py:98-103 | a name is in the family if and only if it is the prefix, anything, and `.jsonl` |
| SpoolNames.NamesOfTries | src/ansina/telemetry/rotation.py:84-96 | a rotated file is named after its family and 13 digits of the clock, from the second try on with the try's number |
| SpoolNames.StampsSortByTime | src/ansina/telemetry/rotation.py:95-96 | up to the year 2286 time stamps in names have 13 digits, read back, and sort as their times |
| Rotation.SpooledRotatingWriter.WriteLine | src/ansina/telemetry/rotation.py:66-77 | after every line the surviving files in rotation order and then the active one hold exactly a suffix of all lines ever written; the line is the active file's last; the total is within the cap or only the active file is left; survivors are young; files outside the family are untouched |
| Rotation.SpooledRotatingWriter.Rotate | src/ansina/telemetry/rotation.py:79-93 | the collision loop ends at a name that did not exist, and the active file moves there unchanged |
| Rotation.SpooledRotatingWriter.RotateWhenFull | src/ansina/telemetry/rotation.py:73-74 | rotates exactly when the active file has reached its size |
| Rotation.SpooledRotatingWriter.AgeSweep | src/ansina/telemetry/rotation.py:120-127 | removes exactly the rotated files older than the cutoff and keeps the rest of the family |
| Rotation.SpooledRotatingWriter.CapSweep | src/ansina/telemetry/rotation.py:130-137 | removes the oldest rotated files until the total fits, never the active one |
| Rotation.SpooledRotatingWriter.EnforceBudget | src/ansina/telemetry/rotation.py:105-137 | both sweeps together remove a stretch of the oldest rotated files and leave a suffix of the history |
| Rotation.EvictedIsLeast | src/ansina/telemetry/rotation.py:120-137 | what is left fits the cap or is empty, and the last file removed failed a bound |
| Rotation.EvictedLeavesYoung | src/ansina/telemetry/rotation.py:117-127 | every file that is left is younger than the cutoff |
| Rotation.AppendKeepsSpool | src/ansina/telemetry/rotation.py:75-76 | appending to the newest file extends the kept suffix by the line |
| Rotation.RemoveOldestKeepsSpool | src/ansina/telemetry/rotation.py:119-137 | removing oldest files leaves a suffix of the history |
| Rotation.SortByTime | src/ansina/telemetry/rotation.py:129 | the survivors in strictly increasing file time, none lost and none added |
| Rotation.OneOrder | src/ansina/telemetry/rotation.py:129 | with distinct file times there is only one such order |
| Rotation.BudgetIsBytes | src/ansina/telemetry/rotation.py:105-137 | the total the budget is held to is the number of bytes of all lines with their newlines |
| Policy.ClassDecidesVerbs | src/ansina/auth/policy.py:52-102 | two resources are of one class if and only if every role has the same verbs on both; each builtin role may do what the one below may; a resource cannot be granted exactly if everybody has every verb on it |
| Policy.VerbNeedsRank | src/ansina/auth/policy.py:77-102 | what is one's own is open to all; `auth.*` takes Maintain or Admin; elsewhere reading takes Read, changing takes Write, deleting takes Maintain |
| RbacTables.UserIdsInvertRoles | src/ansina/auth/repositories.py:690-760 | over living users `user_ids_with_role` is exactly the inverse of `roles_for_user` |
| RbacTables.AdminHolders | src/ansina/auth/management.py:257-262 | the holders of the admin role are exactly the living Admins |
| Rbac.StepKeepsValid | src/ansina/auth/repositories.py:163-371 | every operation keeps slugs unique and every foreign key in place |
| Rbac.StepKeepsOthers | src/ansina/api/routes/groups.py:82-133 | an operation takes the admin role away only from users its guard asked about |
| Rbac.StepKeepsAnAdmin | src/ansina/auth/management.py:251-267 | from a state with a living Admin every guarded operation leaves one |
| Rbac.RunKeepsAnAdmin | src/ansina/auth/management.py:251-267 | the last Admin outlives every run of group deletions, member removals, detachments, deactivations, tombstones and anything else the routes do |
| Rbac.BoundedUser | src/ansina/auth/repositories.py:310-371 | what the escalation bound means for one user's grants and admin role |
| Rbac.StepKeepsBound | src/ansina/auth/management.py:121-215 | no single guarded operation by a non-Admin caller leaves the bound |
| Rbac.RunKeepsRecords | src/ansina/api/routes/roles.py:146-167 | in every run builtin roles and their grants stay as they are, and a tombstoned user stays tombstoned |
| Rbac.RunKeepsLiveGrants | src/ansina/auth/management.py:218-248 | in every run a custom role's grants stay on served verbs of grantable, catalogued resources |
| Rbac.NoEscalation | src/ansina/auth/management.py:121-215 | over every run of assignments and grant edits by callers who were no Admins, with nobody joining a group, no user ever holds a grant beyond their own at the start and the callers' initial grants outside `auth.*`, and nobody becomes an Admin |
| RbacStore.RbacStore.AssertAdminRemains | src/ansina/auth/management.py:251-267 | passes exactly when no admin role exists or a living Admin is left outside the losing users |
| RbacStore.RbacStore.AssertNoExcessGrants | src/ansina/auth/management.py:121-158 | passes exactly when the caller holds all the grants and is an Admin if any is an auth grant |
| RbacStore.RbacStore.AssertGrantsGrantable | src/ansina/auth/management.py:218-248 | collects exactly the grants that are uncatalogued, on a self resource or on a verb not served; none exactly when all are grantable |
| RbacStore.RbacStore.AssignRole | src/ansina/api/routes/role_assignments.py:63-73 | the refusals in the route's order, those of the escalation guard only with a caller, else one row is added, and an existing row keeps its source |
| RbacStore.RbacStore.UnassignRole | src/ansina/api/routes/role_assignments.py:76-88 | guarded detachment from a user or a group; the row is gone afterwards and every other row stands |
| RbacStore.RbacStore.CreateCustomRole | src/ansina/api/routes/roles.py:133-143 | grantable and, with a caller, not excessive, else refused; the role and all its grants appear together |
| RbacStore.RbacStore.UpdateRoleGrants | src/ansina/api/routes/roles.py:146-162 | replaces a custom role's grants as a whole under the same checks |
| RbacStore.RbacStore.DeleteCustomRole | src/ansina/auth/repositories.py:214-248 | refuses a builtin or an assigned role; otherwise the role goes with its grants |
| RbacStore.RbacStore.DeleteUserGroup | src/ansina/api/routes/groups.py:117-120 | guarded only if the group carries admin; takes its members and assignments along |
| RbacStore.RbacStore.AddGroupMember | src/ansina/api/routes/groups.py:123-125 | adds one membership and changes nothing else |
| RbacStore.RbacStore.RemoveGroupMember | src/ansina/api/routes/groups.py:128-133 | removes one membership, guarded if the group carries admin |
| RbacStore.RbacStore.SetActive | src/ansina/api/routes/users.py:158-169 | guarded deactivation, unguarded activation |
| RbacStore.RbacStore.SoftDelete | src/ansina/auth/repositories.py:456-477 | the tombstone: the row stays, memberships and assignments go, guarded |
| RbacEffects.AssignGives | src/ansina/auth/repositories.py:600-637 | an assignment adds its one row, keeps the source of one already there, and gives the role with its grants to exactly the users its subject reaches |
| RbacEffects.UnassignTakes | src/ansina/auth/repositories.py:639-666 | a detachment removes its one row and no other; a user has exactly the roles some other row gives |
| RbacEffects.DetachedRoleIsGone | src/ansina/api/routes/role_assignments.py:76-88 | a user who had the role through that row alone has it neither in `roles_for_user` nor in `user_ids_with_role` |
| RbacEffects.CreateRoleAdds | src/ansina/auth/repositories.py:163-201 | a new role is a custom one with just its grants; nobody's roles or grants change |
| RbacEffects.UpdateRoleReplaces | src/ansina/auth/repositories.py:310-330 | afterwards each holder has the new grants and those of their other roles, everybody else what they had |
| RbacEffects.DeleteRoleRemoves | src/ansina/auth/repositories.py:214-248 | a deleted role was nobody's; it goes with its grants and nothing else changes |
| RbacEffects.AddMemberGives | src/ansina/auth/repositories.py:540-546 | a new member gains exactly the group's roles, nobody else gains or loses one |
| RbacEffects.RemoveMemberTakes | src/ansina/auth/repositories.py:548-553 | a former member has exactly the roles some other row gives |
| RbacEffects.DeleteGroupTakes | src/ansina/auth/repositories.py:525-538 | the group, its memberships and its rows are gone, and everybody has exactly the roles some other row gives |
| RbacEffects.CreatedComeBare | src/ansina/auth/repositories.py:416-441 | a new group and a new user come without roles; the user is active and of the name asked for |
| RbacEffects.UpdateUserSwitches | src/ansina/auth/repositories.py:443-447 | switching a user on or off decides whether they are living and changes nothing else |
| RbacEffects.DeleteUserEnds | src/ansina/auth/repositories.py:456-477 | a tombstoned user is not living and has no role; everybody else keeps theirs |
| RbacEffects.AssignRefusedExactly | src/ansina/auth/management.py:161-197 | a caller may assign exactly the roles that would give the caller nothing new; without a caller only a missing role or subject refuses |
| RbacEffects.RoleEditsRefusedExactly | src/ansina/auth/management.py:200-248 | when creating, updating and deleting a role is refused, and with which error |
| RbacEffects.DetachmentsRefusedExactly | src/ansina/auth/management.py:251-267 | a detachment or a group deletion is refused for the last Admin exactly if it concerns the admin role and reaches every living Admin |
| RbacEffects.UserRemovalsRefusedExactly | src/ansina/auth/management.py:251-267 | likewise a member removal, a deactivation and a tombstone |
| RbacEffects.CreationsRefusedExactly | src/ansina/auth/repositories.py:416-441 | a new role, group or user is refused for its name exactly if one of its kind, tombstones included, has it |
| Reconciler.WantedIsLast | src/ansina/auth/reconciler.py:35 | a name is catalogued exactly if some spec names it, as its last spec says |
| Reconciler.Reconciler.SyncResources | src/ansina/auth/reconciler.py:23-56 | one pass makes the catalog exactly the wanted one and drops exactly the grants on retired resources |
| Reconciler.Reconciler.EnsureBuiltin | src/ansina/auth/repositories.py:203-212 | finds the role by slug or creates it, and changes no other role |
| Reconciler.Reconciler.Converge | src/ansina/auth/reconciler.py:91-101 | one role's grants become the desired set and no other role's row is touched |
| Reconciler.Reconciler.ReconcileBuiltinRoles | src/ansina/auth/reconciler.py:59-101 | one pass gives every builtin role exactly the policy cut to served verbs, leaves all other grants, and from a settled state changes nothing |
| Reconciler.TargetIsUnique | src/ansina/auth/reconciler.py:88-101 | there is one such set of grants, and a second pass from it lands on itself |
| Reconciler.ScopeHoldsExactlyWithoutImpostor | src/ansina/auth/reconciler.py:75-101 | the pass leaves every custom role's grants alone, for all catalogs and grants, if and only if no custom role has a builtin slug |
| Reconciler.ImpostorLosesGrants | src/ansina/auth/reconciler.py:81-101 | a state in which a custom role called `read` loses a grant to the pass |
| BootScope.RunKeepsScope | src/ansina/auth/repositories.py:163-248 | from such a table no run of the management operations ever gives a custom role a builtin slug |
| BootScope.BootKeepsCustomGrants | src/ansina/auth/reconciler.py:75-101 | so the next boot's pass leaves every custom role's grants alone |
| Reconciler.Reconciler.Boot | src/ansina/auth/reconciler.py:1-7 | both passes in boot order: builtin roles settle, every other role keeps exactly its grants on surviving resources, a second boot changes nothing |
| Reconciler.SettledMeans | src/ansina/auth/reconciler.py:81-101 | in a settled state a builtin role has a grant if and only if the resource is catalogued, serves the verb, and the policy permits it |
| Reconciler.SettledHasBuiltins | src/ansina/auth/policy.py:107-140 | the builtin slugs are `read`, `write`, `maintain` and `admin`, and each has its role |
| RoleSync.RoleSync.AssignUser | src/ansina/auth/repositories.py:600-637 | refuses an unknown user; a row already there keeps its source |
| RoleSync.RoleSync.UnassignUser | src/ansina/auth/repositories.py:639-666 | removes the row only if it has that source |
| RoleSync.RoleSync.SyncMappedRoles | src/ansina/auth/role_sync.py:40-71 | in one pass the user's rows of this provider become the claim-matched roles not held under another source; every other row is untouched |
| RoleSync.SyncIsIdempotent | src/ansina/auth/role_sync.py:49-54 | that table is unique, and syncing again with the same claims leaves it alone |
| RoleSync.DesiredIsMapped | src/ansina/auth/role_sync.py:26-54 | a role is wanted if and only if a mapping of the provider names it for a text that its claim is, or lists |
| OidcLogin.OidcLoginService.StartLogin | src/ansina/auth/oidc_login.py:171-205 | sweeps expired states even when discovery fails, then stores one row with its expiry |
| OidcLogin.OidcLoginService.Take | src/ansina/auth/repositories.py:1391-1408 | the row is gone either way and counts only if its expiry is after now |
| OidcLogin.OidcLoginService.CompleteLogin | src/ansina/auth/oidc_login.py:207-272 | take, exchange with the row's own nonce and verifier, provision, sync, in that order; all four tables after it |
| OidcLogin.OidcLoginService.ProvisionUser | src/ansina/auth/oidc_login.py:274-339 | a linked user, a username match or a new user, with the refusals of each |
| OidcHistory.FailureChangesNoAccount | src/ansina/auth/oidc_login.py:207-272 | a failed completion leaves users, identities and assignments unchanged, and a successful one returns an active, undeleted user |
| OidcHistory.LoginRefreshesRoles | src/ansina/auth/oidc_login.py:266-270 | after every login the issuer's rows of the user are exactly the roles this login's claims map to that no other source holds; every other row stays |
| OidcHistory.LoginLinks | src/ansina/auth/oidc_login.py:284-339 | a login leaves its subject linked to the user it returned |
| OidcHistory.LinkIsStable | src/ansina/auth/oidc_login.py:284-297 | once a subject has logged in, every later login of it returns the same user, or is refused exactly when that user is unusable, for every history |
| OidcHistory.TombstoneIsFinal | src/ansina/auth/oidc_login.py:287-311 | a user tombstoned at any time is never returned afterwards |
| OidcHistory.BootstrapNeverLogsIn | src/ansina/auth/oidc_login.py:312-315 | no history of logins returns the bootstrap user, unless it was linked at the start |
| OidcHistory.RedemptionHasStart | src/ansina/auth/repositories.py:1391-1418 | a state is redeemed only after a start that stored it, before that start's expiry, with its nonce and verifier, and as the first completion to name it |
| OidcHistory.RedeemedOnce | src/ansina/auth/repositories.py:1391-1408 | a state started at most once completes at most one login |
| OidcOutcome.UnlinkedLoginTakesAskedName | src/ansina/auth/oidc_login.py:117-128 | a login of a subject not yet linked returns and links a user whose name is the non-empty text `preferred_username`, else `email`, else the subject, whether that user existed or is new |
| OidcOutcome.CompletionSettles | src/ansina/auth/oidc_login.py:207-339 | a completion fails for its state, then for its token, and otherwise settles on the linked user, the usable user of the asked name, or a new one, with each refusal |
| OidcOutcome.ProvisionSettles | src/ansina/auth/oidc_login.py:274-339 | the same of provisioning alone |
| OidcOutcome.LoginGivesMappedRoles | src/ansina/auth/oidc_login.py:266-270 | after a login the user holds every role the claims map to, under the issuer unless another source gives it |
| OidcOutcome.StartSweepsExpired | src/ansina/auth/oidc_login.py:171-205 | a start drops exactly the expired states and adds its own, with nonce, verifier and expiry, if discovery succeeded and the state is new |
| OidcOutcome.StartedStateStaysLive | src/ansina/auth/repositories.py:1391-1418 | until its expiry a stored state stays redeemable with its own nonce and verifier, unless a completion named it |
| OidcOutcome.AccountEventsDo | src/ansina/auth/repositories.py:443-477 | what switching and tombstoning do to one user, and that nobody else is touched |
| OidcOutcome.AddedUserIsLocal | src/ansina/auth/repositories.py:416-441 | a user made by hand is active, has the name and a local identity, unless name, id or identity is taken |
| Masking.NeverAcrossMask | src/ansina/logging/redaction.py:83-92 | a secret that neither begins nor ends with `*` nor holds `***` never straddles a mask |
| Masking.MaskKeepsAbsent | src/ansina/logging/redaction.py:90-92 | masking any disjoint spans never makes such a secret appear |
| Masking.ReplaceRemoves | src/ansina/logging/redaction.py:88-89 | replacing such a secret leaves no copy of it, not even one newly formed |
| Masking.MaskSwapsPieces | src/ansina/logging/redaction.py:95-109 | a masked text is the text with one mask in place of each covered piece, and otherwise the same character for character |
| Masking.ReplaceSwapsCopies | src/ansina/logging/redaction.py:88-89 | replacing a literal swaps copies of it for masks; what lies between them holds no copy and stays |
| Redaction.SecretIsGone | src/ansina/logging/redaction.py:83-92 | such a registered secret occurs nowhere in the result, for every text, order of secrets and set of matches |
| Redaction.OnlyCleanSecretsAreSafe | src/ansina/logging/redaction.py:83-92 | that holds, whatever else is registered, for exactly those secrets |
| Redaction.UncleanSecretShows | src/ansina/logging/redaction.py:83-92 | for every other one a second registered literal and a text without the secret are given whose redaction shows it, unless the patterns find something there |
| Redaction.Redactor.RegisterSecret | src/ansina/logging/redaction.py:67-75 | a missing or too short value is ignored, any other is added |
| Redaction.Redactor.Redact | src/ansina/logging/redaction.py:83-92 | longest literals first, then the patterns in order; every clean registered secret is absent |
| Redaction.Sorted | src/ansina/logging/redaction.py:88 | all secrets, no length ever growing along the list |
| Redaction.MaskMatch | src/ansina/logging/redaction.py:95-109 | splicing the groups out one by one from the right equals masking them all at once |
| Redaction.PatternSub | src/ansina/logging/redaction.py:90-91 | substituting match by match equals masking every value group of the text at once |
| Redaction.LastPatternMasksItsValues | src/ansina/logging/redaction.py:90-92 | one more pattern masks exactly the value groups it finds in the result for the patterns before it |
| Redaction.OnePatternMasks | src/ansina/logging/redaction.py:90-109 | with nothing registered and one pattern the value groups it finds in the text are masked |
| Redaction.LiteralsInTurn | src/ansina/logging/redaction.py:88-89 | the literals are replaced one after the other, in their order |
| Redaction.HarmlessTextStays | src/ansina/logging/redaction.py:83-92 | a text with no registered secret in which no pattern finds anything is returned unchanged |
| BrainStream.BaseBrainProvider.Run | src/ansina/brain/provider.py:131-191 | for every hook: at most `max_retries` + 1 attempts, each one before the last retryable; the caller sees the text of the last one only, because whatever was retried had said nothing; one terminal event, at the end, unless cancelled; the delays slept and both ceilings on their sum |
| BrainStream.BaseBrainProvider.Relay | src/ansina/brain/provider.py:145-148 | passes an attempt's texts on in order behind what was seen, and notes whether any text was |
| BrainStream.WaitBelowMaxima | src/ansina/brain/retry.py:10-22 | `r` retries wait at most `r` times the maximum in total |
| BrainStream.WaitBelowPowers | src/ansina/brain/retry.py:10-22 | and at most `initial * (2**r - 1)` |
| BrainStream.NeverThrowsUpToOverflow | src/ansina/brain/provider.py:152-170 | the stream raises nothing of its own for every hook if and only if `max_retries` is at most 1024 |
| BrainStream.DelaysDouble | src/ansina/brain/retry.py:10-22 | the first delay is the initial one and each further one twice the one before, as far as the maximum allows |
| BrainStream.GoesOnExactly | src/ansina/brain/provider.py:152-170 | an attempt is followed by another if and only if it failed for a timeout, rate limit, transport or provider error, retries are left, no attempt so far said anything, and the delay can be computed and is slept through |
| BrainStream.EndExactly | src/ansina/brain/provider.py:149-187 | whether a stream that goes on no more finished, was cancelled or threw |
| BrainStream.StreamExactly | src/ansina/brain/provider.py:145-187 | a finished stream is the attempt's texts in order and then `done` with its usage, or the error with class, message, partial usage and whether its class is retryable |
| PermissionRules.RenderGlobPermission | src/ansina/opencode/config.py:69-81 | each mentioned glob has one entry with the action meant for it, placed by first mention, the floor first |
| PermissionRules.ExactlyWhenAllowedComeFirst | src/ansina/opencode/config.py:23-31 | for all matchers the last matching entry decides as the lists intend, if and only if every allowed glob is placed before every denied one |
| PermissionRules.FloorIsFirst | src/ansina/opencode/config.py:69-81 | the first entry is `*`, and it denies unless the allowlist names it and the denylist does not |
| HostsToml.TwoPassesAreOne | tui/src/ansina_tui/config.py:191-193 | escaping backslashes and then quotes equals escaping each character once |
| HostsToml.ReadPrinted | tui/src/ansina_tui/config.py:191-193 | a printed string reads back as itself exactly when it holds no control character but tab |
| HostsToml.EntrySurvivesTable | tui/src/ansina_tui/config.py:149-165 | an entry comes back from its table, absent values and empty roles included |
| HostsToml.PrintedReadsBack | tui/src/ansina_tui/config.py:168-188 | the printed file is well formed exactly when all strings are, and then it holds every host's table in order |
| HostsToml.PrintThenRead | tui/src/ansina_tui/config.py:94-193 | reading what was printed gives the same host table if and only if no string holds a forbidden control character |
| HostsToml.DumpToml | tui/src/ansina_tui/config.py:168-188 | the loops print that file |
| HostsToml.HostIsPrintedAs | tui/src/ansina_tui/config.py:168-188 | a host's lines: its header, the values it has under their keys and in order, its roles in one array |
| HostsToml.QuotedExactly | tui/src/ansina_tui/config.py:191-193 | a string is printed in quotes with a backslash before each quote and backslash in it, and nothing else changed |
| HostsToml.HostsStore.SaveHosts | tui/src/ansina_tui/config.py:115-129 | leaves the file at mode 0600 with content that reads back as stated |
| HostsToml.HostsStore.LoadHosts | tui/src/ansina_tui/config.py:94-112 | nothing for a missing file, refuses any group or other bit, else the hosts of a well-formed file |
| Journal.SweepKeepsNewestFresh | src/ansina/heart/journal.py:281-302 | one sweep leaves exactly the newest `max_entries` of the rows not older than the cutoff, as many as there are, and a second deletes nothing |
| Journal.JournalIsNewest | src/ansina/heart/journal.py:186-249 | on a clock that never goes back the journal after every append is exactly the newest `max_entries` of all rows ever appended that are not older than the last cutoff |
| Journal.TopSize | src/ansina/heart/journal.py:293-298 | the newest `max_entries` by time and id are that many rows, or all |
| Journal.SweepExactly | src/ansina/heart/journal.py:281-302 | a sweep leaves at most `max_entries` rows, all there before and not past the cutoff; a row not past it goes only if that many later ones stay, ties going to the greater id |
| Journal.CutoffIsRetention | src/ansina/heart/journal.py:289-292 | a row is past the cutoff if and only if it is older than the retention |
| Journal.AppendKeepsNewest | src/ansina/heart/journal.py:210-249 | the newest row is kept whenever any may be, and an append brings nothing else back |
| Journal.HeartJournalRepository.AppendEntry | src/ansina/heart/journal.py:210-249 | inserts, then sweeps as of the new row's own time |
| Journal.HeartJournalRepository.Sweep | src/ansina/heart/journal.py:281-302 | returns how many rows went |
| Journal.HeartJournalRepository.ListRecent | src/ansina/heart/journal.py:251-279 | newest first, only rows after `since`, up to the limit, and no newer row left out |
| Curation.FittingIsLongest | src/ansina/heart/curation.py:95-104 | a greedy walk keeps the longest run from the front that fits the budget |
| Curation.WindowGrows | src/ansina/heart/curation.py:79-104 | a larger budget keeps everything a smaller one does |
| Curation.RecencyWindowSelection | src/ansina/heart/curation.py:79-104 | the longest fitting newest-first run of the events |
| Curation.EnforceBudget | src/ansina/heart/curation.py:217-241 | the longest fitting prefix of the model's own order, and whether anything was cut |
| Curation.MentionedInOrder | src/ansina/heart/curation.py:174-184 | each valid number that is mentioned comes exactly once, in the order of first mentions |
| Curation.TryParseCuration | src/ansina/heart/curation.py:153-184 | reads only what follows the last closing think tag; nothing if no valid number is named |
| Curation.Curate | src/ansina/heart/curation.py:310-368 | whatever the model replies, the selection names only shown events and fits the budget; it is the longest affordable prefix of the model's list, or the recency window if there is none; an outcome is returned exactly when no run of digits is too long for `int()` |
| Curation.PrintedListParsesBack | src/ansina/heart/curation.py:153-184 | a printed comma list of distinct valid numbers parses back to itself |
| Curation.AnswerFollowsLastTag | src/ansina/heart/curation.py:166-174 | what is read is what follows the last closing think tag, or the whole reply if it has none |
| Curation.RunsAreMaximal | src/ansina/heart/curation.py:174-184 | the numbers of a text are its longest stretches of digits from left to right; everything between them is no digit |
| Curation.FailsOnLongNumbers | src/ansina/heart/curation.py:174-184 | reading raises if and only if a number has more than 4300 digits |
| Curation.ShownNumberReadsBack | src/ansina/heart/curation.py:71-76 | the first number in an event as shown is its sequence number |
| Curation.CostsAreShownTokens | src/ansina/heart/curation.py:79-104 | the budget is spent on the tokens of each event's whole shown line |

## Left out

- OpencodePromises.BacklogIsBounded: counting and creating in `submit` are one step; two submissions interleaved between them are not modelled.
- OpencodePromises.EnteredTasksEndTerminal: a task cancelled before its first step never enters `_execute`, and its row stays queued until the next boot sweep; storage errors are not modelled.
- OpencodeSchedules.ChildrenAreBounded: counts the children of the present process; those that outlive a crash of the daemon are counted no more.
- OpencodeInvariant.StepKeepsInv: the protocol's row writes carry status, times, error and event count; exit code, parse errors and duration are columns of `OpencodeRuns` that no step of the protocol reads. A status write counts as handed to its worker thread as soon as it is awaited.
- OpencodePromises.TracesAreLegal: a write that fails on its way to the file still takes its number; the file's content is the spool's matter.
- Rbac.NoEscalation: joining a group is excluded, because the membership route has no escalation guard; the caller is resolved in the same step that uses it; operations of the dev mode, which has no caller, are in the model but not in this theorem.
- Rbac.RunKeepsAnAdmin: provider role sync removes rows without this guard and is not one of the steps.
- Rotation.SpooledRotatingWriter.WriteLine: file times are assumed to increase strictly from append to append, prefixes hold no glob characters, and no other process touches the directory.
- OidcHistory.RedemptionHasStart: starts from an empty state table; discovery, key fetching and token validation are one answer that depends on the nonce and the verifier.
- Redaction.SecretIsGone: the four regular expressions are arbitrary matchers of ordered, disjoint value groups.
- BrainStream.BaseBrainProvider.Run: delays are real numbers; of floating point only the overflow of the power is modelled. The hook yields text and then completes, raises or is cancelled.
- HostsToml.HostsStore.LoadHosts: refuses comments, `\u` escapes and value types the printer never writes, which the TOML reader of the source accepts.
- HostsToml.PrintThenRead: the reader covers basic strings with short escapes, bare keys, one-line arrays and `[hosts."..."]` headers; comments, other value types and `\u` escapes are rejected. File encoding is not modelled.
- Journal.JournalIsNewest: `created_at` is the instant; that its text order is the same is `Clock.IsoOrderIsTimeOrder`.
- Curation.TryParseCuration: digits are ASCII digits; `\d` also matches other decimal digits.
- Curation.Curate: the prompt and the event count named in it do not enter the result.
- PermissionRules.RenderGlobPermission: the fixed `edit` and `bash` modes and the rest of the rendered config.
- Clock.ParseInvertsIso: years below 1000 are printed without padding on some platforms, and `strptime` accepts more layouts than `iso` prints.
- `OpencodeRunRepository.sweep`, the status counters and the list queries: single queries without a promise across operations.
- Interventions other than a resubmission and their log line, and which statuses may be retried.
- HTTP routes beyond the guards' order, audit logging, settings, migrations, adapters, parsers, prompts and the user interface.
- Argon2, SHA-256, HMAC, AES-GCM and JWT internals: uninterpreted functions, with injectivity assumed where a theorem says so.
