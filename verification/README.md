# Patchdeck: a model of its protocols, with proofs

Patchdeck schedules and runs package upgrades on remote hosts over SSH. This project models the parts of it that carry
state across calls, failures and time, and proves what they promise. Each part is a module, or a few, with its
environment made explicit: the host, the clock, the link, the database and the order of events are parameters, and the
statements hold for all of them.

| modules | what they model |
|---|---|
| `Apply`, `ApplyTruth` | the upgrade that runs detached on a host, and the client that follows its log over a link that drops |
| `PoolKey`, `PoolProtocol`, `PoolSteps`, `PoolVersions`, `ConnPool`, `PoolAfterRotation` | the pool of SSH connections: what identifies one over the whole history of a host, every interleaving of its critical sections, what each section does in them, and the sections on shared objects |
| `Cron`, `Calendar`, `NextRun` | cron expressions as the scheduler matches them and as the server validates them, and the search for the next run in the Gregorian calendar |
| `TickEngine`, `TickRuns` | the scheduler's tick with its pruned marks, and whole runs of it |
| `KeyStore`, `KeyRotation` | the SSH key pair in memory and on disk, its two-phase rotation, the check in front of a promotion, and the hosts that must not be locked out |
| `Digests`, `Coalescer` | what a notification says about its events, and the timers that group events |
| `RestartPolicy`, `RestartMarks` | which units need a reboot, and the table that learns it |
| `ShellQuote` | shell quoting, the splitter in the host form, and a POSIX shell as the judge of both |
| `LoginLimiter` | the sliding window in front of logins |
| `HostDelete` | what becomes of jobs when a host is deleted, and what the scheduler resolves a job to |
| `RestartBatch`, `RestartCut`, `RestartDispatch` | restarting many units in one session: printing and parsing the results, a session that breaks off anywhere, and the report |
| `Strings`, `Lines`, `Numbers` | the parts of Go's text functions that the code calls, and laws about them and about division |

Code that updates state step by step is a class or a method with a loop, proved against a function of the old state; the
theorems about whole runs are about that function. `dafny verify dfyconfig.toml` checks everything.

## Where the code does less than it seems to promise

These are theorems of the model, each with the exact condition or a concrete case:

- The package count of an upgrade is taken from the collected text when the host's own count did not get through; it is
  then right only if no log line holds "Setting up " anywhere but once at its start (`ApplyTruth.FallbackCount`,
  `ApplyTruth.FinishedIsTrue`). The reboot flag and the "stopped" verdict are searched for anywhere in the output
  (`ApplyTruth.StoppedExactly`). A host whose upgrade leaves no process id within ten seconds, as one with a full disk
  may, is reported as stopped while it runs, or as finished with a part of its log (`ApplyTruth.StoppedExactly`,
  `ApplyTruth.WholeLogHandedOn`).
- `NextRun` can return nothing for an accepted expression, exactly when the weekday is `*` and no date that every year
  has matches; from a given start it then succeeds exactly when a matching 29 February is near enough
  (`NextRun.NeverNil`, `NextRun.SucceedsExactly`). Elsewhere 366 days are enough.
- A job can start twice in a minute, exactly when that minute is ticked again after a tick in a different one, as a clock
  that goes back can make happen (`TickRuns.TwiceExactlyWhen`).
- The check in front of a promotion ignores the error of loading the host list, and is not atomic with the promotion;
  these steps in between make it worthless, and only these (`KeyRotation.UnreadableListLocksOut`,
  `KeyRotation.PromiseBrokenExactly`).
- The form's splitter differs from a POSIX shell exactly at backslashes that double quotes keep, at line continuations,
  and at spaces that are no blanks (`ShellQuote.BrowserReadsLikeAShell`).
- Attempts in flight at the same time exceed the limit on failures, and a caller refused then may wait as told and still
  be refused, whatever the limit (`LoginLimiter.BoundIsReached`, `LoginLimiter.WaitingHelpsExactly`,
  `LoginLimiter.WaitingInVain`).
- A job created with a list and a primary host outside it is retargeted to that host when the list runs empty
  (`HostDelete.RetargetedExactly`, `HostDelete.StrayGetsANewTarget`).
- A service name is checked after trimming but used as given: a unit's result is lost exactly when the name holds a tab or
  a newline, and with a tab it can hide the failure of another unit (`RestartBatch.FoundExactlyWhen`,
  `RestartDispatch.FailureIsHidden`). A risky unit that is requested more than once can be reported with two outcomes, and
  only such a unit (`RestartDispatch.OneKindExactly`).
- The pool's key ends every text with a NUL, and three of the texts are free and may hold NULs themselves. It does tell
  all versions of all hosts apart, but only because every save draws a new ciphertext (`PoolVersions.VersionsToldApart`,
  `PoolVersions.HostsToldApart`): a text that names a ciphertext before it is drawn breaks it
  (`PoolVersions.ForeseenDrawShares`).

## Model

| member | source | states |
|---|---|---|
| `Apply.EmitAll` | `api/internal/sshx/apply.go:120-130` | The `emit` callback over one pass: the log, the line counter and what the listener receives all grow by exactly the lines that are not hidden, in order. |
| `Apply.FollowOnce` | `api/internal/sshx/apply.go:141-160` | One pass of the loop: the client's variables go on agreeing with everything delivered so far; after it no drop is recorded if and only if the pass begins a new one, and otherwise the recorded drop is that of the first pass since which the link is silent; the verdict is the one that this pass's output calls for. |
| `Apply.Reconsider` | `api/internal/sshx/apply.go:161-189` | After a pass without a verdict: the run stops if and only if its error is hopeless, the caller has cancelled, or its time is used up, with the outcome that the first of these reasons in the order of the code calls for; a new drop, and only a new one, is noted to the listener. |
| `Apply.ApplyDetached` | `api/internal/sshx/apply.go:113-192` | Every run: the start script is sent first and never again, every follow resumes at the line after the last one seen, there are at most `maxDuration / delay + 2` attempts, and the listener gets exactly the lines that the passes delivered and one note about each new drop. The run ends in the first pass with a verdict or a reason to give up: a hopeless error, a cancelled caller, a link that has been silent for more than the window since a drop, or the total time; the outcome is the one that this reason calls for. While it goes on, every drop since which the link is silent is within the window. A lost connection never fails a run. |
| `Apply.DropDecides` | `api/internal/sshx/apply.go:143-178` | The drop that the client has recorded tells exactly whether the link has been silent for longer than the window since any drop. |
| `Apply.HeardIsSeen` | `api/internal/sshx/apply.go:120-137` | Without the notes, what the listener hears is what the passes handed on. |
| `Apply.RetryableMeans` | `api/internal/sshx/apply.go:98-109` | An error is retried if and only if the connection was lost or its text holds one of the eight phrases of a broken link. |
| `Apply.AttemptBound` | `api/internal/sshx/apply.go:178-189` | How many pauses of `applyRetryDelay` fit into `applyMaxDuration`. |
| `Apply.Elapsed` | `api/internal/sshx/apply.go:185-189` | When pass `k` looks at the clock, `k` whole pauses have gone by. |
| `ApplyTruth.PassHandsOn` | `api/internal/sshx/apply.go:72-88` | A pass that may be cut anywhere hands on the next part of the log, and prints nothing of its own before all that it reads of the log is through. |
| `ApplyTruth.PrefixOfLog` | `api/internal/sshx/apply.go:113-191` | Exactly once and in order: after any pass of any run, whatever the drops, the lines handed on are a prefix of the host's log. |
| `ApplyTruth.LaunchedOnce` | `api/internal/sshx/apply.go:139-190` | The upgrade is launched by the first script of a run and by no other. |
| `ApplyTruth.ExitStatusFound` | `api/internal/sshx/apply.go:91-91` | The pattern finds an exit status in the trimmed output exactly when the host is done and its line got through, and then it is the host's. |
| `ApplyTruth.CountFound` | `api/internal/sshx/apply.go:92-92` | The same for the number of packages, which the host counts over the whole log. |
| `ApplyTruth.FallbackCount` | `api/internal/sshx/apply.go:198-201` | The count over the collected text is never below the host's, and equals it if and only if every line holds the words at most once and only at its start. |
| `ApplyTruth.WordFound` | `api/internal/sshx/apply.go:149-155` | The substring searches for the reboot flag and for the two markers find the script's own line, or a log line that contains the text, and nothing else. |
| `ApplyTruth.WholeLogHandedOn` | `api/internal/sshx/apply.go:77-84` | When the line with the exit status is through, the whole log has been handed on, if and only if the script read all of it or the earlier passes had handed on all of it; it reads all of it whenever the upgrade left its process id in time. |
| `ApplyTruth.FinishedIsTrue` | `api/internal/sshx/apply.go:147-148` | A finished run: the exit status is the host's, and what was handed on is its log, whole under the exact condition above; the package count is right when its line got through, and with the whole log if and only if its line got through or the fallback count is exact; the reboot flag is set if and only if the host said so or a log line contains the marker. |
| `ApplyTruth.DoneIsNoticed` | `api/internal/sshx/apply.go:82-88` | When everything that a finished host prints gets through, the run ends with the host's exit status. |
| `ApplyTruth.StoppedExactly` | `api/internal/sshx/apply.go:77-87` | A run is reported as stopped on the host if and only if no exit status came through, and the marker did: because the upgrade was killed, because it runs but left no process id within ten seconds, or because a log line contains the marker. The last two are the exact reach of a false alarm. The report counts the packages in all lines that were handed on. |
| `ApplyTruth.NoLogExactly` | `api/internal/sshx/apply.go:155-159` | A run ends for want of a log if and only if neither an exit status nor the other marker came through and the host said that it has no log, or a log line holds that text: in the first pass the upgrade could not be started, later its log is gone. |
| `ApplyTruth.HiddenLineIsLost` | `api/internal/sshx/apply.go:120-123` | The assumption about the log is needed: without any drop the whole log is handed on if and only if it has no line that `emit` hides. |
| `PoolKey.TerminatedInjective` | `api/internal/sshx/pool.go:51-63` | The NUL-terminated encoding is injective on lists of NUL-free texts. |
| `PoolKey.KeyIdentifies` | `api/internal/sshx/pool.go:51-63` | Two NUL-free requests with the same pool key ask for the same host, verified the same way, with the same keys offered. |
| `PoolKey.OtherHostOtherKey` | `api/internal/sshx/pool.go:51-63` | Requests for hosts with different NUL-free ids never share a key, whatever the other fields hold. |
| `PoolVersions.KeyIsTrace` | `api/internal/sshx/pool.go:51-63` | Whatever NULs the address, the user and the pinned fingerprint hold, a request's key is that of the pieces between them, none of which holds a NUL. |
| `PoolVersions.SharedKey` | `api/internal/sshx/pool.go:49-63` | Two requests as the server makes them, for any texts in address, user and pinned fingerprint: with the same key they are the same request, unless their ciphertexts differ and each host quotes the other's ciphertext, one in its pinned fingerprint and the other in its address or user. |
| `PoolVersions.RowsAreOk` | `api/internal/db/db.go:757-848` | Every save, policy change, approval and first trust keeps the fields that are not free text as the server stores them, and the id. |
| `PoolVersions.VersionsToldApart` | `api/internal/sshx/pool.go:24-63` | Over the whole history of a host, whatever is typed into its free texts: requests with the same key are for the same version of the host with the same keys offered. It takes that no ciphertext is in the row before the save that draws it. |
| `PoolVersions.ForeseenDrawShares` | `api/internal/sshx/pool.go:51-63` | That assumption is needed: a history in which a pinned text names the ciphertext of a later save has two different versions with one key. |
| `PoolVersions.HostsToldApart` | `api/internal/sshx/pool.go:24-63` | The same across all hosts, each with its own id and history. |
| `PoolVersions.ReusedForTheSameVersion` | `api/internal/sshx/pool.go:49-63` | In any run of the pool over any histories of hosts, a caller works on a connection that was dialled for the very version of the host it asks for, with the same keys offered. |
| `PoolProtocol.StepKeepsInv` | `api/internal/sshx/pool.go:117-260` | Every critical section, dial, close, drop and waiter step keeps the invariant that ties the map, the records, the leases, the open transports and the waiters together. |
| `PoolProtocol.RunKeepsInv` | `api/internal/sshx/pool.go:117-260` | The invariant holds in every state of every interleaving. |
| `PoolProtocol.MapAndUsers` | `api/internal/sshx/pool.go:117-213` | In every state the map holds only live pooled connections under their own key, every live pooled connection is the one in the map for its key, and `users` is the number of outstanding leases. |
| `PoolProtocol.LeaseOfCaller` | `api/internal/sshx/pool.go:217-232` | `openSession` leaves exactly one lease behind when it succeeds and none when it fails. |
| `PoolProtocol.NothingLeaks` | `api/internal/sshx/pool.go:135-213` | Every open transport is in the map, leased, owned by a step that is committed to closing it, or owned by a caller between its dial and its second section; with all callers idle only the first and third remain. |
| `PoolProtocol.NeverClosedUnderALease` | `api/internal/sshx/pool.go:160-213` | A release or the reaper never closes a transport that still has a lease: only the peer or an abort can. |
| `PoolProtocol.ReusedUnderOneKey` | `api/internal/sshx/pool.go:217-232` | In any run a caller works on a connection that was asked for with the same key, at the start of an operation or by a retry, which reads the keys to offer anew. |
| `PoolProtocol.ReusedForTheSameRequest` | `api/internal/sshx/pool.go:49-63` | When no caller asks with a NUL, the connection a caller works with was dialled for the same host fields and the same offered keys. |
| `PoolSteps.AcquireReuses` | `api/internal/sshx/pool.go:126-132` | In every state of a run: a caller that asks while a live pooled connection has its key gets that connection, with one more user and used last now, and nothing else changes. |
| `PoolSteps.AcquireDials` | `api/internal/sshx/pool.go:126-135` | Without one it goes on to dial, and the pool is as it was. |
| `PoolSteps.PublishPools` | `api/internal/sshx/pool.go:139-145` | A fresh connection is pooled if and only if no live one with its key is, and then it is the one that the next caller gets; its caller is its only user, and no other connection becomes more or less available. |
| `PoolSteps.EvictedIsGone` | `api/internal/sshx/pool.go:146-154` | After an abort, a timeout or a drop that was noticed nobody gets the connection any more, and all others stay as available as they were. |
| `PoolSteps.HandedBack` | `api/internal/sshx/pool.go:160-176` | A connection that is handed back has one user less and was used last now; when it is broken nobody gets it any more; it is to be closed if and only if nobody leases it and nobody can get it. A caller whose session could not be opened tries once more if and only if the connection was a reused one and this was its first attempt. |
| `PoolSteps.ReapedExactly` | `api/internal/sshx/pool.go:199-213` | The reaper gives up, and goes on to close, exactly the pooled connections that nobody leases and that were used last more than 20 seconds ago. |
| `ConnPool.Pool.Reuse` | `api/internal/sshx/pool.go:126-133` | The first section of `acquire` on the shared objects has exactly the effect of the protocol's step, of which `PoolSteps.AcquireReuses` and `PoolSteps.AcquireDials` say what it is. |
| `ConnPool.Pool.Publish` | `api/internal/sshx/pool.go:139-145` | The same for the second section, where a dial race is decided. |
| `ConnPool.Pool.Evict` | `api/internal/sshx/pool.go:180-189` | The same for `abort`, and for the waiter goroutine (lines 146-154). |
| `ConnPool.Pool.Release` | `api/internal/sshx/pool.go:160-176` | The same for `release`, with its decision whether to close. |
| `ConnPool.Pool.CloseIdle` | `api/internal/sshx/pool.go:199-213` | The same for the reaper: it takes out and returns exactly the connections that were idle too long. |
| `PoolAfterRotation.RetiredKeyIsNotReused` | `api/internal/sshx/pool.go:49-63` | After any run of rotations, over any histories of hosts and in any run of the pool, a caller that offers the present keys never gets a connection that was offered a retired one. |
| `Cron.SegmentsAgree` | `api/cmd/server/main.go:2190-2238` | For every kind of field and all limits, the validator accepts a segment if and only if the scheduler's matcher fires on some value within the limits. |
| `Cron.SegmentIsProgression` | `api/internal/scheduler/scheduler.go:676-724` | Within the limits the matcher fires on exactly the values first, first + step, ... up to last that the segment reads as: all values for a star, the bounds of a range, and only itself for a single value, with or without a step. |
| `Cron.ValidateCronField` | `api/cmd/server/main.go:2190-2238` | A field is accepted if and only if each of its segments can fire. |
| `Cron.ValidateCronExpression` | `api/cmd/server/main.go:2161-2179` | An expression is accepted if and only if it is a macro or has five acceptable fields; the first field that is not decides the error. |
| `Cron.AcceptedFieldFires` | `api/internal/scheduler/scheduler.go:663-674` | Every accepted field matches some value within its limits. |
| `Cron.AcceptedWeekdayFires` | `api/internal/scheduler/scheduler.go:627-635` | Every accepted weekday field matches some weekday of the clock, the value 7 included. |
| `Cron.FieldMeans` | `api/internal/scheduler/scheduler.go:663-674` | A field matches exactly the values of the progressions that its comma-separated segments read as, up to the first blank segment. |
| `Cron.MatchMeans` | `api/internal/scheduler/scheduler.go:588-621` | A matching minute has five fields of which minute, hour and month are in theirs. For such a minute: with both day fields restricted either of them is enough, with one restricted it decides, with none it always matches; Sunday is 0 and 7. |
| `Cron.MonthsCount` | `api/internal/scheduler/scheduler.go:733-750` | Months may be written out or with three letters, and count from 1. |
| `Cron.WeekdaysCount` | `api/internal/scheduler/scheduler.go:751-763` | So may weekdays, which count from Sunday, 0. |
| `Calendar.YearStarts` | `api/internal/scheduler/scheduler.go:571-586` | Counting days one by one, as the search does, gives the first day of every year that the Gregorian leap rule gives. |
| `Calendar.YearDayInjective` | `api/internal/scheduler/scheduler.go:571-586` | The calendar the search walks through: month and day are determined by the day of the year. |
| `Calendar.WeekdayWithin` | `api/internal/scheduler/scheduler.go:578-585` | For any day, month and weekday, some day of that month within the next 365 days falls on the weekday. |
| `Calendar.DistanceRight` | `api/internal/scheduler/scheduler.go:578-585` | Any date that every year has comes again within 365 days of any day, leap years included. |
| `Calendar.Millennium` | `api/internal/scheduler/scheduler.go:571-586` | The weekdays of the calendar are the real ones: 1 January 2000 was a Saturday. |
| `NextRun.NextRun` | `api/internal/scheduler/scheduler.go:571-586` | The result is the earliest matching minute after the given one, and there is none if and only if none of the next 366 days' minutes matches. |
| `NextRun.FiresWithin` | `api/internal/scheduler/scheduler.go:571-621` | A validated expression whose weekday is restricted, whose day is not, or that matches a date of every year, fires within 366 days of any minute. |
| `NextRun.NeverNil` | `api/internal/scheduler/scheduler.go:571-586` | For a validated expression the search succeeds from every starting time if and only if the weekday is restricted, the day is not, or some date that every year has matches. |
| `NextRun.SucceedsExactly` | `api/internal/scheduler/scheduler.go:571-586` | For a validated expression and one starting time the search succeeds if and only if the expression comes every year in that sense, or 29 February matches and a matching time of one lies within the next 366 days. |
| `NextRun.MacroParts` | `api/internal/scheduler/scheduler.go:637-661` | Every macro expands to five acceptable fields. |
| `NextRun.MacroMeans` | `api/internal/scheduler/scheduler.go:637-661` | A macro matches exactly the minutes that its name says: the first of every hour, day, week, month or year. |
| `NextRun.AcceptedIsValidated` | `api/cmd/server/main.go:2161-2179` | What the server accepts is what the statements about the search assume. |
| `TickEngine.Engine.MarkDue` | `api/internal/scheduler/scheduler.go:118-128` | A job is due unless its last mark is this minute's, and then it is marked. |
| `TickEngine.Engine.PruneLastRun` | `api/internal/scheduler/scheduler.go:130-140` | Exactly the marks of other minutes go. |
| `TickEngine.Engine.TryStart` | `api/internal/scheduler/scheduler.go:142-150` | A job starts unless it is running, and is running afterwards. |
| `TickEngine.Engine.FinishStart` | `api/internal/scheduler/scheduler.go:152-156` | The job, and no other, is not running any more. |
| `TickEngine.Engine.Tick` | `api/internal/scheduler/scheduler.go:83-116` | The loop over the jobs, when nothing comes in between: every id that it starts belongs to an enabled job of the list whose expression matches the local minute, each such job starts if and only if it was neither marked for this minute nor running, and afterwards exactly these are running too and only marks of this minute are left. |
| `TickEngine.TickStartsExactly` | `api/internal/scheduler/scheduler.go:94-115` | For every list, with repeated ids too: an id is started if and only if some enabled job of that id matches the local minute and the id is neither marked nor running, and it is marked afterwards if and only if it was or some such job matches. |
| `TickRuns.AlwaysAgree` | `api/internal/scheduler/scheduler.go:83-156` | After any run in which no minute is ticked again after another one, the pruned map says the same about the last tick's minute as a history that never forgets. |
| `TickRuns.PruningIsInvisible` | `api/internal/scheduler/scheduler.go:129-140` | In every such interleaving of prune, mark, start and goroutine steps the engine does exactly what an engine does that never forgets a mark. |
| `TickRuns.OneRunAtATime` | `api/internal/scheduler/scheduler.go:83-156` | With any clock and in every interleaving: a job has at most one run, at most four runs execute, and no event starts a run of a job whose previous one is in progress. |
| `TickRuns.AtMostOncePerMinute` | `api/internal/scheduler/scheduler.go:83-156` | In every interleaving in which no minute is ticked again after a tick in a different minute, no job starts twice in a minute. |
| `TickRuns.TwiceExactlyWhen` | `api/internal/scheduler/scheduler.go:118-140` | For every sequence of tick minutes: no job list and no interleaving makes a job start twice in a minute if and only if no minute is ticked again after a tick in a different minute. |
| `TickRuns.UndisturbedTick` | `api/internal/scheduler/scheduler.go:83-116` | When nothing comes in between, the steps of a tick have the effect and the starts that the method's contract names. |
| `TickRuns.StartsAreDue` | `api/internal/scheduler/scheduler.go:94-115` | In every run, every start comes from the tick that is on: its job is in that tick's list, is enabled, and matches the tick's local minute. |
| `KeyStore.SaveThenRead` | `api/internal/db/db.go:1322-1356` | Reading the keypair rows after a write gives back what was written, empty values deleting their row, and no other row changes. |
| `KeyStore.Disk.GetAppKeyState` | `api/internal/db/db.go:1325-1335` | The loop over the four rows reads the whole state, or fails with the first query that does. |
| `KeyStore.Disk.PutAppKeyState` | `api/internal/db/db.go:1339-1356` | One transaction: all four rows are written, or, whichever statement fails, none. |
| `KeyStore.NextCipherOpens` | `api/internal/appkey/appkey.go:198-205` | The ciphertext of the next key that is read back from disk opens to the next key in memory. |
| `KeyStore.SavedAgrees` | `api/internal/appkey/appkey.go:160-166` | A write that pairs each key with a ciphertext of it is read back by a restart as exactly these keys. |
| `KeyStore.StartAgrees` | `api/internal/appkey/appkey.go:169-188` | Starting a rotation keeps memory and disk in agreement whatever fails, and a failure changes neither. |
| `KeyStore.FinishAgrees` | `api/internal/appkey/appkey.go:192-207` | The same for finishing one, which promotes the ciphertext as it is on disk. |
| `KeyStore.CancelAgrees` | `api/internal/appkey/appkey.go:210-225` | The same for cancelling one. |
| `KeyStore.Store.Open` | `api/internal/appkey/appkey.go:59-124` | Opening gives the keypair that the disk holds, or makes the first one; it agrees with the disk either way, and when it fails the disk is as it was. |
| `KeyStore.Store.StartRotation` | `api/internal/appkey/appkey.go:169-188` | Starting succeeds if and only if no rotation is on and nothing fails; the drawn key is then the next one and the current one stays. Otherwise nothing changes, on disk either; memory and disk agree in both cases. |
| `KeyStore.Store.FinishRotation` | `api/internal/appkey/appkey.go:192-207` | Finishing succeeds if and only if a rotation is on and nothing fails; the next key is then the current one, with the ciphertext read back from disk. Otherwise nothing changes. |
| `KeyStore.Store.CancelRotation` | `api/internal/appkey/appkey.go:210-225` | Cancelling succeeds if and only if a rotation is on and nothing fails; the next key is then forgotten and the current one stays. Otherwise nothing changes. |
| `KeyRotation.ListAppKeyHosts` | `api/cmd/server/sshkey.go:29-38` | Exactly the hosts with Patchdeck's key, in order; an unreadable list counts as an empty one. |
| `KeyRotation.AppKeyHostsAre` | `api/cmd/server/sshkey.go:32-36` | A host is in that list if and only if it is known and logs in with Patchdeck's key. |
| `KeyRotation.CheckHosts` | `api/cmd/server/sshkey.go:48-63` | Whatever order the goroutines finish in, slot `i` holds host `i`'s answer. |
| `KeyRotation.AllOK` | `api/cmd/server/sshkey.go:68-75` | True if and only if every check succeeded. |
| `KeyRotation.FinishRotation` | `api/cmd/server/sshkey.go:90-111` | When nothing fails, a next key becomes the current one if and only if the finish is forced or every listed host's answer is yes; otherwise memory and disk stay as they are and the answer is that some host is not ready. A fault, or no rotation, changes nothing either and is reported. |
| `KeyRotation.CrashIsBeforeOrAfter` | `api/internal/appkey/appkey.go:57-225` | Ending the process at any point of an operation and starting it again leaves exactly the state before the operation or the state after it. |
| `KeyRotation.StepKeepsInv` | `api/internal/appkey/appkey.go:168-225` | Every operation, crash and change of the hosts keeps memory and disk in agreement, keeps the keys apart, and changes the current key only by a promotion. |
| `KeyRotation.LocksOutExactlyWhen` | `api/cmd/server/sshkey.go:90-111` | A step locks some host out if and only if it promotes a key that a host with Patchdeck's key does not accept. |
| `KeyRotation.CheckedPromotion` | `api/cmd/server/sshkey.go:92-101` | A promotion that was not forced, and whose host list loaded, is of a key that every such host accepts. |
| `KeyRotation.NeverLockedOut` | `api/cmd/server/sshkey.go:41-121` | Over whole runs of starts, cancels, checked finishes, crashes, installs, removals of other keys and changes of the host list: every such host trusts the current key. |
| `KeyRotation.AlwaysOfferedAKeyItTrusts` | `api/internal/appkey/appkey.go:149-158` | In all these runs a host accepts one of the keys that it is offered. |
| `KeyRotation.GoneForGood` | `api/internal/appkey/appkey.go:190-225` | In every run memory and disk agree, and a retired or discarded key is never offered again. |
| `KeyRotation.PromotionRetires` | `api/internal/appkey/appkey.go:190-207` | A promotion retires the old key. |
| `KeyRotation.AllAcceptPromotes` | `api/cmd/server/sshkey.go:90-111` | In every run: when every host accepts the next key, the check can pass, and then the finish promotes the key without force, retires the old one and locks nobody out. |
| `KeyRotation.OneRefusalKeepsAll` | `api/cmd/server/sshkey.go:93-101` | One host that says no, or a fault, and an unforced finish leaves everything as it is. |
| `KeyRotation.StartOffersBoth` | `api/internal/appkey/appkey.go:150-188` | A start without a fault adds the drawn key to what hosts are offered, behind the current one; any other start changes nothing. |
| `KeyRotation.UnreadableListLocksOut` | `api/cmd/server/sshkey.go:29-38` | When the host list does not load, an unforced finish asks nobody, promotes, and locks out every host that lacks the new key. |
| `KeyRotation.CheckPromises` | `api/cmd/server/sshkey.go:41-75` | A check that passed means that every host with Patchdeck's key accepts the next key. |
| `KeyRotation.PromiseBrokenExactly` | `api/cmd/server/sshkey.go:90-101` | Between the check and the promotion, which are two calls, a step breaks that promise if and only if it discards or promotes the next key, takes it off a host, or brings in a host that does not accept it. |
| `KeyRotation.PromotedAfterCheck` | `api/cmd/server/sshkey.go:90-111` | A check that passed, any steps that do not break its promise, crashes included, and then the promotion: no host is locked out. |
| `KeyRotation.StaleCheckLocksOut` | `api/cmd/server/sshkey.go:90-101` | With a cancel and a start in between, the promotion locks out every host that lacks the newer key. |
| `KeyRotation.DroppedAfterCheckLocksOut` | `api/cmd/server/sshkey.go:90-101` | So does a host that drops the next key after it was asked. |
| `Digests.FilterInPlace` | `api/internal/notify/digest.go:53-58` | Within one buffer, the front of it becomes exactly the entries of other hosts, in order. |
| `Digests.Collector.AddApplied` | `api/internal/notify/digest.go:52-65` | The host's entries leave the pending list, and the apply is listed, or counted as up to date. |
| `Digests.DigestOfEvents` | `api/internal/notify/digest.go:50-65` | A digest of any events: a host is pending if and only if no apply of it came later, an apply is listed if and only if it did something or was cut off, the others are counted, and every failure is listed. |
| `Coalescer.Coalescer.Add` | `api/internal/notify/digest.go:290-311` | Adding an event has exactly the specified effect: the batch grows by it, the generation rises, and the one armed timer is the new one. |
| `Coalescer.Coalescer.Fire` | `api/internal/notify/digest.go:313-323` | A callback of the current generation hands the whole batch to `flush`; any other changes nothing. |
| `Coalescer.ConservedAndTimely` | `api/internal/notify/digest.go:289-323` | In every interleaving of events and timers, stale ones included: the flushed batches followed by the open one are all events, once each and in order; an open batch is not empty and has exactly one timer of the current generation, due when the quiet time after its last event is over or `maxHold` after its first event, whichever comes first, but not before its last event; without an open batch there is no timer. |
| `Coalescer.FireFlushesAll` | `api/internal/notify/digest.go:313-323` | The callback that counts flushes the whole open batch, not before its deadline. |
| `RestartPolicy.Classify` | `api/internal/restartpolicy/restartpolicy.go:83-95` | The two lists merge, in order, into the scan's list, and a unit is in the second if and only if only a reboot clears it. |
| `RestartPolicy.MergedUnits` | `api/internal/restartpolicy/restartpolicy.go:83-95` | The two lists hold exactly the flagged units, each as often as it was flagged. |
| `RestartPolicy.OneSplit` | `api/internal/restartpolicy/restartpolicy.go:83-95` | No other two lists have these properties. |
| `RestartPolicy.FamiliesAreKnown` | `api/internal/restartpolicy/restartpolicy.go:12-58` | Which names, in any case of letters and with blanks around them, are the message bus, session risky, or known to need a reboot, and that no other name is. |
| `RestartMarks.MarkTable.SetRestartMark` | `api/internal/db/db.go:156-161` | The table goes on being the history, which grows by the restart: a later scan that flags the unit counts it as learned if and only if the host reports the boot of this restart, and nothing changes for the other units. |
| `RestartMarks.MarkTable.DeleteHost` | `api/internal/db/db.go:394-396` | The table goes on being the history: no scan of the host finds a learned unit any more, and for every other host each scan finds what it would have found before. |
| `RestartMarks.MarkTable.Reconcile` | `api/internal/db/db.go:167-195` | For rows in any order, with a query or deletions that fail: a failing query changes and teaches nothing; otherwise exactly the units are learned that are flagged and were marked on the non-empty boot that the scan reports, and of the host's marks exactly theirs stay, and those that cannot be deleted. |
| `RestartMarks.MarkTable.Scan` | `api/internal/db/db.go:482-491` | The classification of a scan: its two lists are an order-preserving split by the learned set, and the table is pruned. |
| `RestartMarks.TableIsHistory` | `api/internal/db/db.go:154-195` | After any history the table holds a mark if and only if the unit's latest restart was on that boot and no scan, restart or deletion has ended its lesson since. |
| `RestartMarks.LearnedExactly` | `api/internal/db/db.go:163-195` | A scan counts a flagged unit as learned if and only if its latest restart was on the scan's non-empty boot and everything since left that standing. |
| `RestartMarks.LessonOfScans` | `api/internal/db/db.go:163-195` | Without database errors that is so if and only if the restart is the unit's latest, the host was not deleted since, and every scan of the host since then flagged the unit on the non-empty boot of the restart. |
| `RestartMarks.ClassifiedByHistory` | `api/internal/db/db.go:487-491` | A flagged unit is in exactly one list, and is reboot-only if and only if it is the bus or a known unit without a handler, or the history has taught it. |
| `ShellQuote.PdSplitArgs` | `api/cmd/server/spiketmpl/hostform.html:137-144` | The index loop computes the splitter's specification, reading two characters at a backslash. |
| `ShellQuote.QuoteIsOneWord` | `api/internal/sshx/client.go:795-800` | A quoted text is read as that text, by the browser and by a shell. |
| `ShellQuote.SplitOfQuoted` | `api/cmd/server/spiketmpl/hostform.html:137-144` | For every list of texts, empty ones included: quoting each, joining with blanks and splitting gives the list back, in the browser and in a shell. |
| `ShellQuote.RunAsRootArrives` | `api/internal/sshx/client.go:802-804` | A shell reads the command line as `sh`, `-lc` and the command, unchanged. |
| `ShellQuote.SuCommandArrives` | `api/internal/sshx/client.go:837-837` | A shell reads the command line as `su`, `-c`, the command, `root`. |
| `ShellQuote.RootCommandArrives` | `api/internal/sshx/client.go:795-837` | Through two shells: what `su` hands on is read as `sh -lc` with exactly the original command. |
| `ShellQuote.InStep` | `api/cmd/server/spiketmpl/hostform.html:137-144` | Browser and shell stay in step, and their results differ in weight by the number of divergences still to come. |
| `ShellQuote.BrowserReadsLikeAShell` | `api/cmd/server/spiketmpl/hostform.html:136-144` | On a line that a shell reads as plain words, the browser reads the same words if and only if the line has no divergence: a backslash that double quotes keep, a line continuation, or a space that is no blank. |
| `ShellQuote.ArgsKnowKindsOnly` | `api/cmd/server/spiketmpl/hostform.html:136-144` | On every text, the splitter tells apart quotes, the backslash, spaces, and nothing else: any renaming of the other characters, operators and dollar signs included, renames its words. |
| `ShellQuote.ArgsComplete` | `api/cmd/server/spiketmpl/hostform.html:136-144` | A text that ends too early, in a quote or behind a backslash, is read as if what is missing were there. |
| `ShellQuote.AnySpaceSeparates` | `api/cmd/server/spiketmpl/hostform.html:136-144` | Line ends, tabs and the wide spaces of Unicode separate words as a blank does. |
| `ShellQuote.BackslashInDoubleQuotes` | `api/cmd/server/spiketmpl/hostform.html:139-139` | A line on which they part. |
| `LoginLimiter.Limiter.Prune` | `api/internal/ratelimit/limiter.go:55-69` | The pruned list holds exactly the failures inside the window, in order; an empty one is deleted. |
| `LoginLimiter.Limiter.Allowed` | `api/internal/ratelimit/limiter.go:73-87` | The decision, the list and the retry time are those of the whole history of failures since the last reset, restricted to the window; allowed or refused, the call is the step of that name in the runs below. |
| `LoginLimiter.Limiter.RecordFailure` | `api/internal/ratelimit/limiter.go:90-96` | The failure joins the history, and the key's list is the history's window with it; other keys are as they were. The call is the step `Fail`. |
| `LoginLimiter.Limiter.Reset` | `api/internal/ratelimit/limiter.go:99-103` | The key's history ends, and no other changes. The call is the step `Succeed`. |
| `LoginLimiter.PruningLosesNothing` | `api/internal/ratelimit/limiter.go:55-69` | Whatever was pruned before, the list and the full history have the same entries in any later window. |
| `LoginLimiter.AllowedLaterExactly` | `api/internal/ratelimit/limiter.go:73-87` | Without new failures a key is allowed later if and only if all but `max - 1` of the failures that count now have left the window. |
| `LoginLimiter.WaitingHelpsExactly` | `api/internal/ratelimit/limiter.go:78-84` | A refused caller who waits as told is allowed if and only if the failure that decides has left by then; with no more than `max` failures it has. More than a second less is never enough. |
| `LoginLimiter.WaitingInVain` | `api/internal/ratelimit/limiter.go:73-87` | For every limit, and at least two attempts in flight, the promise fails in some run: the key is refused, and still refused after the seconds that the caller was told to wait. |
| `LoginLimiter.ListIsBounded` | `api/internal/ratelimit/limiter.go:71-96` | In every run of allowed, refused, failed, successful and abandoned attempts with at most `limit` in flight, a key's list never holds more than `max - 1 + limit` failures: never more than `max` with one at a time. |
| `LoginLimiter.BoundIsReached` | `api/internal/ratelimit/limiter.go:71-96` | For every number of attempts in flight some run reaches that bound. |
| `HostDelete.CreatedConsistent` | `api/internal/db/db.go:511-528` | A new job's legacy primary host is the given one, or without one the first of its list; it is one of the list if and only if none was given or it is one of the list. |
| `HostDelete.ListHostsByTag` | `api/internal/db/db.go:1530-1549` | Exactly the hosts with the tag, in the order of the table. |
| `HostDelete.ListHostsByIDs` | `api/internal/db/db.go:1552-1571` | Exactly the hosts of the list, in the order of the table. |
| `HostDelete.ResolveJobHosts` | `api/internal/scheduler/scheduler.go:391-433` | A job resolves to exactly the hosts of the table that it selects, in order; only a single host that cannot be loaded is an error. |
| `HostDelete.ResolvedExactly` | `api/internal/scheduler/scheduler.go:391-433` | A host is resolved if and only if it is in the table and, for a tag job, has the tag without regard to case and outer blanks, for a list job is in the list, and for any other is the primary host. |
| `HostDelete.ReconcileJobs` | `api/internal/db/db.go:406-480` | For rows in any order: each job is kept, retargeted or removed with its runs as the rule for one job says, or the transaction fails. |
| `HostDelete.Database.DeleteHost` | `api/internal/db/db.go:358-398` | One transaction: exactly the host goes and the jobs and runs are reconciled, or nothing changes; an unknown host is reported if and only if there is no such row. |
| `HostDelete.RetargetedExactly` | `api/internal/db/db.go:427-478` | A job goes exactly when its last target does and otherwise targets the old hosts without the deleted one, if and only if it is not stray: every entry of its list is the host, but its primary host is another one. |
| `HostDelete.DeletionKeepsConsistent` | `api/internal/db/db.go:432-475` | A job whose primary host is in its list is never stray, stays so, and keeps no reference to the host. |
| `HostDelete.TouchesOnlyTheHost` | `api/internal/db/db.go:432-478` | A job with a tag, or that does not mention the host, stays as it is. Otherwise the list loses the host, and the primary host changes only if it was the host: to the first other entry of the list. |
| `HostDelete.WithoutInOrder` | `api/internal/db/db.go:440-447` | The entries that stay in a list keep their order and their number. |
| `HostDelete.DeletionIsExact` | `api/internal/db/db.go:400-480` | The tables after a deletion: tag jobs untouched, other jobs and their runs gone exactly when their last target is, targets exactly the old ones without the host, no reference left, and the scheduler resolves every job as before without the host, in the same order. |
| `HostDelete.StrayGetsANewTarget` | `api/internal/db/db.go:449-478` | A stray job, which the callers of `CreateJob` let through, survives the deletion of its only target and goes on with a host that it never targeted. |
| `RestartBatch.ParseRestartBatch` | `api/internal/sshx/client.go:645-663` | The loop over the lines collects what each line adds, later lines winning. |
| `RestartBatch.UnitIsSteady` | `api/internal/sshx/client.go:634-660` | A unit's line stands for its exit code and its flattened, trimmed output, on whichever side the line itself is trimmed. |
| `RestartBatch.BatchRoundTrip` | `api/internal/sshx/client.go:627-663` | Printing the results, with arbitrary unmarked lines in between, trimming the whole output and parsing it gives back each unit's exit code and flattened, trimmed output. |
| `RestartBatch.FoundExactlyWhen` | `api/internal/sshx/client.go:634-660` | For every name, those that the server accepts included, and any session: the unit's result is found under its name if and only if the name holds no tab and no newline. |
| `RestartCut.CutCode` | `api/internal/sshx/client.go:655-655` | Any part of an exit code that came through reads as 0 if and only if the exit code is 0. |
| `RestartCut.CutRoundTrip` | `api/internal/sshx/client.go:627-663` | Wherever the output of a session breaks off, in the middle of a line too: trimming and parsing it gives the results of the lines that came through whole, and of the last one nothing, or a result under its name that is a success if and only if the unit's own is. |
| `RestartCut.FoundIsReal` | `api/internal/sshx/client.go:645-663` | However little came through, a unit that is found was restarted under that name, and its result is a success if and only if that restart ended with 0. |
| `RestartBatch.FoundNamesAreClean` | `api/internal/sshx/client.go:645-663` | Whatever the output is, nothing is found under a name with a tab or a newline. |
| `RestartBatch.TabPassesTheCheck` | `api/cmd/server/main.go:2145-2159` | A tab behind a name does not matter to the server's check. |
| `RestartBatch.CheckedNamesAreSafe` | `api/cmd/server/main.go:2145-2159` | A name without blanks around it that passes the server's check holds no tab, newline, blank, quote, backslash or dollar sign, and every such name of the allowed characters passes, up to 256 of them. |
| `RestartBatch.TabCountsAsSuccess` | `api/internal/sshx/client.go:651-660` | The line of a name with a tab behind it stands for a success of the unit without the tab, whatever its exit code. |
| `RestartDispatch.StripAuthPromptNoise` | `api/internal/sshx/client.go:450-459` | The result is trimmed and does not begin with the prompt. |
| `RestartDispatch.PromptsAreNoReason` | `api/internal/sshx/client.go:450-459` | A prompt in front of a text does not change its reason, and the reason of a text without one is the trimmed text. |
| `RestartDispatch.SplitRestartBatch` | `api/internal/sshx/client.go:607-616` | The units in order, split by whether a plain restart is risky. |
| `RestartDispatch.RestartDeferredDetached` | `api/internal/sshx/client.go:678-761` | A changed host key stops the request with an empty result; otherwise the lists hold the units by the outcome of their own command, in the order handled, success means that none failed, and the report has one line for each requested unit in the caller's order. |
| `RestartDispatch.BatchLineOf` | `api/internal/sshx/client.go:703-724` | Repeated or not, a batched unit has one line in the report, made from the batch's parsed output. |
| `RestartDispatch.JudgedByItsHandler` | `api/internal/sshx/client.go:431-438` | A risky unit that is requested once needs a reboot if and only if it is the bus and its host has no handler for it; otherwise a command that ended well or lost its connection counts as dispatched, and any other failure is reported with its reason. |
| `RestartDispatch.EachUnitOnce` | `api/internal/sshx/client.go:678-761` | An ordinary unit, repeated or not, and a risky unit requested once is exactly one of dispatched, failed, in need of a reboot, or skipped, and its line says which. |
| `RestartDispatch.Position` | `api/internal/sshx/client.go:683-760` | When a unit was handled more than once, the line that the report shows for it is its last one. |
| `RestartDispatch.OneKindExactly` | `api/internal/sshx/client.go:678-761` | For every requested unit: whatever the replies are, the report knows exactly one outcome of it, if and only if the unit is not risky or is requested once. |
| `RestartDispatch.JudgedByItsOwnResult` | `api/internal/sshx/client.go:627-724` | From the host to the report: the whole line of an ordinary unit, its reason included, is the one that its own exit code and output call for. |
| `RestartDispatch.SkippedExactly` | `api/internal/sshx/client.go:714-724` | From the host to the lists: exit code 0 is dispatched; any other is skipped as not loaded if and only if the output says not found, not loaded or no such, in any case of letters; otherwise the unit, and with it the request, has failed. |
| `RestartDispatch.JudgedWithoutAResult` | `api/internal/sshx/client.go:702-712` | A unit whose line did not come through counts as dispatched if and only if the connection was lost and some other unit's line did come through; otherwise it has failed, with the error as its reason if no line came through at all. |
| `RestartCut.SentIsReal` | `api/internal/sshx/client.go:931-951` | From the host to the report, wherever the session breaks off: an ordinary unit that is reported as dispatched ended with 0, or the connection was lost. |
| `RestartDispatch.FailureIsHidden` | `api/internal/sshx/client.go:634-724` | With a name and the same name with a tab behind it in one request, a unit that failed is reported as dispatched. |
| `Lines.SplitTrimmed` | `api/internal/sshx/client.go:647-647` | Trimming a joined text and cutting it into lines is the same as trimming the lines. |

## Left out

- HTTP handlers, templates, dashboard scripts other than the argument splitter, CSV export, activity log rows, configuration and form validation: plumbing, or settled by one branch.
- SQL, migrations and the database driver: tables are maps and sequences, a transaction is one assignment at its end, and a commit that reports an error has not happened.
- Real SSH, TLS, mail, notification senders and single sign-on: dials, sessions and follows are outcomes that the environment chooses.
- Cryptography: encryption and private-key formats are functions that their inverses undo; the SHA-256 of the pool's key is taken as injective, and so is a key's fingerprint.
- The remote shell and apt: the follow script is modelled by what it prints, a part of the log and then, after all that it reads of it, its verdict lines.
- PoolVersions.VersionsToldApart: takes a sealed secret to be at least 40 characters of base64 that are new with each save, a fingerprint to be one of SHA-256, and assumes that no host presents a key that the server offers for its own logins.
- Apply.ApplyDetached: assumes that the link cuts at line boundaries and that standard error is silent; a cut line would otherwise be handed on as a line of its own (`api/internal/sshx/client.go:1127-1146`). The scanner there also drops a carriage return at the end of a line and stops at a line of more than one megabyte; neither is modelled. The exit status is that of a shell, below 256.
- ApplyTruth.FinishedIsTrue: does not model the text of the error for a non-zero exit status, which quotes the last lines of the log.
- PoolProtocol.RunKeepsInv: the retry loop of `openSession` and the timeout of `newSession` are places in a caller's program, and closing a transport is a step of its own, later than the section that decides it.
- Cron.ValidateCronExpression: does not model the wording of all errors; lower-casing is for ASCII letters only.
- NextRun.NextRun: the zone has a fixed offset of whole minutes and there is no daylight saving; years start at 1.
- TickEngine.Engine.Tick: leaves out the daily purge, a job list that cannot be loaded (nothing happens then), and what a run does; ticks come one after the other, as in the code.
- KeyRotation.CheckHosts: leaves out the semaphore of six, the error texts and the final sort by name, none of which the decision depends on.
- KeyRotation.NeverLockedOut: the check and the promotion are one step there; `KeyRotation.PromotedAfterCheck` and the lemmas beside it treat them as two.
- Digests.FilterInPlace: the pending list has a buffer of its own; sharing of the slice with other slices is not modelled.
- Coalescer.ConservedAndTimely: generations are unbounded where the code has 64 bits, and one clock reading serves for a whole call.
- RestartMarks.MarkTable.Reconcile: a row that cannot be read is not modelled; a failing query and failing deletions are.
- ShellQuote.BrowserReadsLikeAShell: assignments and reserved words in front of a command count as words; a text with an unquoted operator, expansion, pattern or comment character is outside the statement.
- LoginLimiter.Limiter.Allowed: the seconds are computed exactly, where the code rounds a floating-point quotient; at most one reading of the clock per call.
- HostDelete.ReconcileJobs: the list of host ids is modelled as a list, not as its JSON text; text that cannot be parsed counts as the empty list in the code.
- HostDelete.ResolveJobHosts: a host of a tag or list job whose reload fails is skipped by the code; that failure is not modelled.
- RestartBatch.BatchRoundTrip: needs unit names without tabs and newlines, and other lines of the session that end with a newline; `RestartCut` has the sessions that break off, for exit codes that are not negative.
- RestartDispatch.JudgedByItsHandler: assumes that the message about the missing handler comes through.
- RestartDispatch.RestartDeferredDetached: a line of the report is its unit, kind and reason, without the wording around them.
