# A verified model of pyTMbot's guards

pyTMbot is a Telegram bot for server and container administration. Most of it talks to other services; what stands between those services and the outside world is a set of small state machines over time, bounded memory and locks. This project models these state machines in Dafny and proves what each of them is for.

The recurring shape: a component keeps a short queue, a pruned set or a counter, while its purpose is stated over everything that ever happened. Each class here carries that full history as ghost state, its methods are the program's critical sections (one method per section under a lock, in any interleaving), and the theorems say that the short form answers exactly as the full history would. Time is an integer that every method receives as an argument. Nothing is assumed about it; where a result needs clock readings in order, the condition is `Ordered(readings)` over the readings the component really took. The limiters read the clock before they take their lock, so that readings can come late; their results are stated for readings that are `LateBy` any amount, with order as the case of zero.

| file | component | main results |
|---|---|---|
| `Common.dfy` | optional values, lookups, a stable sort, what several modules share | sorting permutes and sorts |
| `SlidingWindow.dfy` | definitions shared by the limiters | trimming a queue loses nothing a later window can ask for; no closed window exceeds its limit, if it is shorter by what readings are late by |
| `UpdateDedup.dfy` | duplicate-update filter | with readings in order the bounded cache refuses exactly what the unbounded specification refuses; with any readings map and queue stay coherent |
| `Totp.dfy` | one-time use of codes | a code step of a user is taken once in a whole run while observed steps fall back by at most three, and any larger fall is too much; across a restart exactly if the write succeeded; the cap of 64 never discards anything; a second spelling of a code is accepted once more |
| `RateLimit.dfy`, `TotpBurst.dfy`, `IpLimiter.dfy` | three sliding-window limiters | each refuses exactly when the history is full; compaction, eviction and violation counters change no answer |
| `AccessControl.dfy` | attempt counting and blocks | fewer than the limit of updates of an unauthorized user pass in any block-long window, under any interleaving with cleanup |
| `Sessions.dfy`, `TwoFactor.dfy` | session store and two-factor handlers | authentication, attempts and blocks are functions of each user's event log, through expiry and eviction |
| `OverlapWorld.dfy`, `OverlapMinute.dfy`, `Overlap.dfy`, `OverlapRuns.dfy` | the same handlers at the granularity of single session accesses, with the burst limit: invariants, the argument for one minute, the accesses, the extreme runs | with overlapping messages of one user: failed checks between resets stay below the limit plus the overlap, in one minute also below the store's attempts plus the overlap and within the burst threshold, and these bounds are reached; every log-in has a check of its own; every block gets an end |
| `LogIns.dfy` | handlers and replay guard together | every log-in spends a time step that no other log-in spent, through overlapping messages, other users and restarts, if observed steps fall back by at most three, every accepted code was spelled normally and every accepting check wrote the state file |
| `Rotation.dfy` | webhook credential rotation | at most one worker; each issued path yields its own secret exactly until its deadline |
| `Deletion.dfy`, `DeletionTime.dfy` | message-deletion scheduler, and the same over time | tables agree in every interleaving; exactly when a user can exceed three live workers; with delays and the pause between cleanups, how many live workers there can be, and that this bound is reached |
| `Masking.dfy` | redaction of logs and exceptions | only occurrences change, length is kept, and in both a value can survive precisely if it holds a star itself |
| `Tags.dfy` | tag order and update selection | when the order is a strict weak order, exactly; the ranked updates are the greatest compatible tags |
| `Pagination.dfy`, `Text.dfy` | pages and callback texts | pages concatenate to the list; the parsers recover what was built, exactly for texts without a separator |

## Findings

- One-time use of a code depends on the state file being written. Registration returns success even when persisting fails; after a restart a marker is taken again exactly if the write of the first time did not succeed (`Totp.RestartDecides`).
- The scheduler's limit of three pending messages does not bound its live workers once bot objects die: the cleanup untracks their tasks while the workers sleep on. Scheduling can bring a user above three live workers exactly if there are more live workers than pending messages (`Deletion.ExceedsIffSurplus`). As long as no message of the user is scheduled again while an earlier worker of it lives, there are at most three and three more for every cleanup within a worker's life, thirty-nine with the longest delay (`DeletionTime.TimedScheduler.WorkersAreFew`); this is reached for every delay (`DeletionTime.BoundIsReached`). Otherwise there is no bound, even if no worker is ever late: a finishing worker untracks whichever worker holds its key by now (`DeletionTime.ManyWorkers`).
- While messages of a user are handled one after the other, the guard on a running block in the code handler never fires: a session that is processing has no block (`TwoFactor.TwoFactor.GuardNeverFires`). It matters only when handlers overlap.
- The bot handles messages on several threads, and the code handler reads the attempt counter long before it counts a failure. With overlapping messages more than `totp_max_attempts` checked codes can fail between two resets: up to that limit plus the overlap, less one, and of those admitted in one minute no more than the burst threshold, nor more than the attempts after which the session store blocks plus the overlap, less one, if its blocks last a minute (`Overlap.Overlap.OverlapIsSafe`). These bounds are reached by runs that the burst limit admits (`OverlapRuns.BoundIsReached`, `OverlapRuns.MinuteBoundIsReached`).
- In the IP limiter a request beyond the window bans the address only if the ban threshold does not exceed the limit; with the deployed values it never does (`IpLimiter.IpLimiter.Decide`). With a bound of zero or less, which the constructor accepts, an address can stay known without being tracked, with all readings in order (`IpLimiter.UntrackedWithoutCap`).
- The violation counter of the request limiter is exact exactly when as many rejections are still to be recorded as were recorded late: a rejection is recorded in a section of its own, and may arrive after the acceptance that was to reset the counter (`RateLimit.RateLimit.CounterCounts`), which then counts a violation that is none (`RateLimit.LateRecording`).
- The request limiter reads the clock before it takes its lock. If readings can be late, a window of the full period can hold more accepted requests than the limit; one shorter by that amount cannot, and this is exact for limits of two or more (`RateLimit.RateLimit.WindowHoldsAtMostLimit`, `RateLimit.LateReadingsExceed`).
- The pattern for codes (`totp.py:233`) takes the decimal digits of every script, codes are compared in a normal form, and the marker of a used code keeps the spelling that was sent. So the check by itself accepts a code once more in another spelling (`Totp.SpellingDecides`). In the bot only the filter of messages (`handler_manager.py:106`), which lets nothing but ASCII digits through, prevents that.
- Tags without a readable creation time are compared by name and all others by time, which can go in a circle (`Tags.MixedOrderIsCircular`); `Tags.OrderIsWeakExactly` says exactly for which tags the order is sound.

## Model

| member | source | states |
|---|---|---|
| UpdateDedup.RegisterIsExact | pytmbot/middleware/update_dedup.py:113-148 | with clock readings in order, a key is refused exactly when it is among the last `max_entries` accepted updates and its time to live is not over; afterwards the queue is again that live suffix of the accepted history, with one record per key |
| UpdateDedup.RegisterAlways | pytmbot/middleware/update_dedup.py:113-148 | for every clock, even one running backwards: map and queue stay coherent and within the cap, a key is refused exactly while its entry is alive, the key just accepted is never the one evicted, and live entries of others go only when the cap was reached |
| UpdateDedup.RegisterLosesOne | pytmbot/middleware/update_dedup.py:118-128 | for every clock, one accepted key pushes out at most one live key |
| UpdateDedup.RegisterKeeps | pytmbot/middleware/update_dedup.py:135-148 | for every clock, what is in the map before and after one registration: the key with its expiry, nothing new besides it, and of the others that are not over all but one at most |
| UpdateDedup.PruneAlways | pytmbot/middleware/update_dedup.py:113-133 | pruning with any clock keeps map and queue coherent, brings the map to its cap and only removes entries |
| UpdateDedup.PruneIsLiveSuffix | pytmbot/middleware/update_dedup.py:113-133 | with readings in order, pruning leaves exactly the longest suffix of the history that is alive and fits the cap |
| UpdateDedup.NeverStale | pytmbot/middleware/update_dedup.py:118-122 | while every key has one record the stale-record branch is never taken |
| UpdateDedup.AcceptIsExact | pytmbot/middleware/update_dedup.py:141-148 | recording an accepted key and pruning again leaves exactly the live suffix of the longer history |
| UpdateDedup.SuffixDecides | pytmbot/middleware/update_dedup.py:135-148 | membership in the live suffix is membership in the whole remembered history |
| UpdateDedup.RegisterKnows | pytmbot/middleware/update_dedup.py:135-148 | the invariant of all reachable states survives a call with any reading, and the answer is exact as long as all readings came in order |
| UpdateDedup.UpdateDedup.PruneLocked | pytmbot/middleware/update_dedup.py:113-133 | the loop over dict and queue computes the pruning function |
| UpdateDedup.UpdateDedup.CheckAndRegister | pytmbot/middleware/update_dedup.py:135-148 | the section under the lock computes the registration function and counts each call once |
| UpdateDedup.UpdateDedup.PreProcess | pytmbot/middleware/update_dedup.py:155-172 | an update without a key passes untouched; any other is cancelled exactly when its key has an entry that is not over, which in order is when it is among the last accepted; with any clock the key is kept with its expiry and of all others that are not over at most one goes, for lack of room; in order the queue is the longest suffix of the accepted updates that fits and is not over |
| UpdateDedup.UpdateDedup.RepeatsAreRare | pytmbot/middleware/update_dedup.py:135-148 | in every reachable state, if the clock never ran backwards, between two acceptances of one key lies its whole time to live, or at least `max_entries` other updates |
| UpdateDedup.UpdateDedup.Cleanup | pytmbot/middleware/update_dedup.py:204-207 | after cleanup nothing is remembered |
| SlidingWindow.WindowBound | pytmbot/middleware/rate_limit.py:114-139 | if every admission saw fewer than the limit in the part of the closed period before it that late readings leave, no closed interval as long as the period less that lateness holds more than the limit, wherever it starts; with readings in order, no closed interval of one period |
| SlidingWindow.TrimCounts | pytmbot/middleware/rate_limit.py:141-174 | popping old entries from the queue's front leaves as many entries as the whole history has in the window; if readings can be late, between the count of the window's later part and that of a longer window |
| SlidingWindow.WindowStep | pytmbot/middleware/rate_limit.py:114-139 | one request keeps the trimmed queue faithful to the history, whether or not it is admitted and whatever the clock did, and the answer is right up to what readings are late by |
| RateLimit.RateLimit.CleanOldRequests | pytmbot/middleware/rate_limit.py:141-174 | one user's queue is trimmed, and an emptied queue disappears together with the violation counter |
| RateLimit.RateLimit.CheckAndTrack | pytmbot/middleware/rate_limit.py:114-139 | limited exactly when `limit` accepted requests of this user lie in the closed window that ends now, whatever other users did; with late readings, if they lie in its later part and only if they lie in a longer window; a rejection is decided here and is to be recorded, an acceptance resets the violations |
| RateLimit.RateLimit.RecordViolation | pytmbot/middleware/rate_limit.py:217-219 | a rejection is recorded in a section of its own, possibly after the next acceptance; the counter it returns is the rejections decided since the last acceptance, less those not yet recorded, and more those recorded late |
| RateLimit.RateLimit.CounterCounts | pytmbot/middleware/rate_limit.py:114-174 | the same in every reachable state, although emptied windows delete the counter; it is the number of rejections since the last acceptance exactly when as many are pending as came late |
| RateLimit.RateLimit.WindowHoldsAtMostLimit | pytmbot/middleware/rate_limit.py:114-139 | in every reachable state no closed window of one period, less what readings were late by, holds more than `limit` accepted requests of a user |
| RateLimit.LateReadingsExceed | pytmbot/middleware/rate_limit.py:114-139 | that length is exact: for every limit of two or more, every period and every lateness a run has more than the limit in a window one second longer |
| RateLimit.LateRecording | pytmbot/middleware/rate_limit.py:217-219 | a run after which a violation is counted although nothing was rejected since the last acceptance |
| TotpBurst.TotpBurst.constructor | pytmbot/handlers/auth_processing/twofa_processing.py:50-52 | the threshold is the larger of five and twice the configured attempts |
| TotpBurst.TotpBurst.PruneStale | pytmbot/handlers/auth_processing/twofa_processing.py:55-73 | above 256 users, every other user's queue is trimmed and the empty ones disappear |
| TotpBurst.TotpBurst.Consume | pytmbot/handlers/auth_processing/twofa_processing.py:76-94 | refused exactly when `threshold` admitted attempts of the user lie in the closed minute that ends now, and with late readings up to their lateness; compaction changes no later answer |
| TotpBurst.TotpBurst.WindowHoldsAtMostThreshold | pytmbot/handlers/auth_processing/twofa_processing.py:76-94 | no closed minute, less what readings were late by, holds more than `threshold` admitted attempts of a user |
| IpLimiter.IpLimiter.constructor | pytmbot/webhook.py:161-198 | for any bounds, the bans of the state file that still run are restored, and their addresses are tracked |
| IpLimiter.IpLimiter.EvictDownTo | pytmbot/webhook.py:243-254 | the addresses dropped from all three maps are the least recently seen ones, no more than needed |
| IpLimiter.IpLimiter.CleanupState | pytmbot/webhook.py:256-288 | a sweep, exactly when it is due: every ban that is over is lifted, addresses with an empty queue and no ban go, and then the least recently seen ones down to `max_tracked_ips`; nothing else changes |
| IpLimiter.IpLimiter.IsBanned | pytmbot/webhook.py:290-307 | an address is banned exactly if its ban survives the sweep and has not run out at the later reading |
| IpLimiter.IpLimiter.Track | pytmbot/webhook.py:321-352 | the window of one address counts its admitted requests, and admits below both bounds |
| IpLimiter.IpLimiter.Decide | pytmbot/webhook.py:331-352 | limited exactly when the window is full; a request beyond the window bans exactly if `ban_threshold <= max(0, limit)` |
| IpLimiter.IpLimiter.IsRateLimited | pytmbot/webhook.py:309-352 | the whole call with each of its clock readings: when it sweeps, who is dropped, least recently seen first and with room only idle addresses; turned away exactly if banned or if the closed window holds as many admitted requests as limit or ban threshold; a ban holds exactly if no reading taken found it over; the caller is tracked, and for every other address queue and time stay and a ban goes exactly if a sweep found it over or the address was dropped |
| IpLimiter.IpLimiter.Call | pytmbot/webhook.py:309-352 | the three maps after a call as a function of those before, of the readings and of who was dropped, and when each of the two sweeps happens |
| IpLimiter.OthersStay | pytmbot/webhook.py:256-352 | a call leaves everybody else's queue, history and time as they were, and a ban exactly unless a sweep found it over |
| IpLimiter.BanIsExact | pytmbot/webhook.py:290-307 | a ban is found exactly if its address was not dropped and neither the sweeps that were due nor the check found it over |
| IpLimiter.IpLimiter.WindowHoldsAtMostCap | pytmbot/webhook.py:321-352 | between two drops of an address no closed window of one period holds more of its requests than the smaller of limit and ban threshold |
| IpLimiter.RequestKeeps | pytmbot/webhook.py:331-352 | one request keeps every address's queue faithful to its history, and the trimmed queue is as long as the window's count |
| IpLimiter.IpLimiter.KnownIsTracked | pytmbot/webhook.py:243-352 | in every reachable state, if anything can be admitted, all addresses with a queue or a ban are tracked and no queue is empty |
| IpLimiter.UntrackedWithoutCap | pytmbot/webhook.py:273-282 | that condition is exact: whenever a bound is zero or less, a run with its readings in order, where another address sweeps shortly before a ban ends, leaves an address known and untracked |
| AccessControl.AttemptKeepsGuard | pytmbot/middleware/access_control.py:310-316 | one more attempt blocks at the limit, and below it keeps the invariant whether or not the update passes |
| AccessControl.AccessControl.ShouldBlock | pytmbot/middleware/access_control.py:284-299 | blocked exactly until the block ends; the first request after that clears block and counter |
| AccessControl.AccessControl.HandleUnauthorized | pytmbot/middleware/access_control.py:301-387 | every unauthorized request counts; the one that reaches the limit blocks; below it only a setup command passes |
| AccessControl.AccessControl.PeriodicCleanup | pytmbot/middleware/access_control.py:532-546 | exactly the blocks that are over by its (possibly older) reading end, with their counters |
| AccessControl.AccessControl.PreProcess | pytmbot/middleware/access_control.py:176-282 | a request without a user is cancelled; an authorized user passes and never gets a count or a block; any other is denied without a change while blocked, and otherwise counted whatever it is, blocked from the limit on, and let through exactly as a setup command below the limit |
| AccessControl.AccessControl.BlockedFromLimitOn | pytmbot/middleware/access_control.py:284-316 | in every reachable state a user is blocked exactly if as many requests of any kind as the limit were handled as unauthorized since the last block ended |
| AccessControl.AccessControl.FewPassesPerWindow | pytmbot/middleware/access_control.py:284-387 | in every run of requests, lazy unblocking and cleanup, any half-open window of one block duration lets fewer than `MAX_ATTEMPTS` updates of an unauthorized user through |
| Totp.MarkersRoundTrip | pytmbot/utils/totp.py:91-136 | a written list of markers is read back as the markers from the given step on |
| Totp.SavesOneMore | pytmbot/utils/totp.py:139-187 | one more user in the file adds exactly that user's markers to what loading yields |
| Totp.Serialize | pytmbot/utils/totp.py:139-187 | writing all users and reading back from any step undo each other, up to pruning at that step |
| Totp.PairIsRead | pytmbot/utils/totp.py:91-187 | the file holds pairs of a code and a step under each user's decimal id, and such a pair is read as a marker exactly from its step on |
| Totp.PrunedRemembers | pytmbot/utils/totp.py:150-161 | pruning below the replay floor forgets nothing that can still match |
| Totp.FewMarkers | pytmbot/utils/totp.py:202-216 | there are at most as many markers as steps in reach |
| Totp.CapNewest | pytmbot/utils/totp.py:210-216 | the cap keeps 64 markers, and none it drops is newer than one it keeps |
| Totp.ReplayGuard.LoadReplayState | pytmbot/utils/totp.py:91-136 | the file is read once, and yields exactly the persisted markers from the new minimum on |
| Totp.ReplayGuard.PersistReplayState | pytmbot/utils/totp.py:139-187 | everybody's old markers are pruned and the rest written; a failed write leaves the file |
| Totp.ReplayGuard.ReachIsExact | pytmbot/utils/totp.py:190-218 | while steps fall back by at most three and codes are spelled normally, the pruned set knows every used marker in reach and holds at most nine, so the cap never applies, not even to the first code spelled otherwise |
| Totp.ReplayGuard.RegisterCodeUsage | pytmbot/utils/totp.py:190-218 | accepted exactly when the user never used this marker in the whole run (RFC 6238, section 5.2) |
| Totp.ReplayGuard.ResolveMatchingStep | pytmbot/utils/totp.py:81-88 | the earliest of the three steps in reach whose code it is, or none |
| Totp.ReplayGuard.MatchMeans | pytmbot/utils/totp.py:81-88 | a match is a step at which the normal form of the text is this user's code, and no such step in reach is earlier |
| Totp.ReplayGuard.Verify | pytmbot/utils/totp.py:389-449 | accepted exactly if the text is six digits between blanks, is in its normal form this user's code at one of the three steps around the present one, and the user has not spent it at the earliest of these; the step is the number of whole 30-second intervals (RFC 6238, section 4.2) |
| Totp.ReplayGuard.Restart | pytmbot/utils/totp.py:91-136 | a new process knows exactly the file's markers |
| Totp.LargerFallReplays | pytmbot/utils/totp.py:190-218 | the bound of three is exact: for every larger fall of the observed step a run verifies the same six-digit code twice |
| Totp.SpellingDecides | pytmbot/utils/totp.py:190-218 | within one step a code is accepted a second time, in the program's own spelling, if and only if the first time it was not spelled so |
| Totp.RestartDecides | pytmbot/utils/totp.py:139-218 | one-time use across a restart, exactly: any marker not yet used is accepted, and after a restart, at any step in reach, later or not, it is accepted again if and only if the first write did not succeed |
| Sessions.SessionStore.EvictIfNeeded | pytmbot/middleware/session_manager.py:225-267 | afterwards there is room for one more; an unexpired session goes only when no expired one is left, an unexpired authenticated one only when nothing else is left, in either case the oldest first; survivors are unchanged |
| Sessions.SessionStore.DropRound | pytmbot/middleware/session_manager.py:225-267 | one round takes only sessions of its kind, the oldest first and at most as many as needed, and fewer only if none is left |
| Sessions.CandidatesMatch | pytmbot/middleware/session_manager.py:231-262 | the candidates of a round are the matching sessions, each once |
| Sessions.CandidatesInOrder | pytmbot/middleware/session_manager.py:231-262 | they stand in the order in which the sessions were created |
| Sessions.SessionStore.Ensure | pytmbot/middleware/session_manager.py:206-223 | a missing session is created fresh, and only then can others be evicted |
| Sessions.SessionStore.SetAuthState | pytmbot/middleware/session_manager.py:277-292 | only the state of this user's session changes |
| Sessions.SessionStore.IncrementTotpAttempts | pytmbot/middleware/session_manager.py:300-321 | the failure is counted, and from the maximum on every further one blocks |
| Sessions.SessionStore.ResetTotpAttempts | pytmbot/middleware/session_manager.py:328-334 | the counter starts again and nothing else changes |
| Sessions.SessionStore.SetBlockedTime | pytmbot/middleware/session_manager.py:342-359 | blocked until now plus the given duration, or the configured one if it is missing or zero |
| Sessions.SessionStore.IsBlocked | pytmbot/middleware/session_manager.py:361-389 | answers whether the block still runs and lifts it if it is over |
| Sessions.SessionStore.SetLoginTime | pytmbot/middleware/session_manager.py:392-398 | only the login time changes |
| Sessions.SessionStore.IsAuthenticated | pytmbot/middleware/session_manager.py:400-426 | authenticated state, no running block, not expired; a block that is over is lifted |
| Sessions.SessionStore.ClearExpired | pytmbot/middleware/session_manager.py:464-475 | exactly the expired sessions go; one that never logged in is expired |
| TwoFactor.TwoFactor.IsAuthenticated | pytmbot/middleware/session_manager.py:400-426 | true exactly when the user's latest authentication event is a verification no older than the session timeout |
| TwoFactor.TwoFactor.HandleTwofaMessage | pytmbot/handlers/auth_processing/twofa_processing.py:126-151 | refused exactly while the latest event is a block that still runs; otherwise the session is processing |
| TwoFactor.TwoFactor.DecideAnswer | pytmbot/handlers/auth_processing/twofa_processing.py:195-235 | what a code message comes to, in the order of the guards, for a session that has no block while it is processing |
| TwoFactor.TwoFactor.GuardNeverFires | pytmbot/handlers/auth_processing/twofa_processing.py:217-221 | in every reachable state a processing session has no running block, so that this guard never fires while whole messages follow one another |
| TwoFactor.TwoFactor.HandleCode | pytmbot/handlers/auth_processing/twofa_processing.py:168-260 | the outcome in the order of the guards: nothing without a session in processing, then the format, the burst limit, the attempts, and the check, where a good code and only a good one is accepted; for every outcome the new session and the new log, which gains a verification exactly for an accepted code; nobody else's session changes but by eviction |
| TwoFactor.AnswerMeans | pytmbot/handlers/auth_processing/twofa_processing.py:195-258 | the same of one session and one log |
| TwoFactor.TwoFactor.BlockUser | pytmbot/handlers/auth_processing/twofa_processing.py:389-404 | a handler's reset of the counter comes with a block of the configured duration |
| TwoFactor.TwoFactor.ClearExpired | pytmbot/middleware/session_manager.py:464-475 | removal of expired sessions is one more event in their logs |
| TwoFactor.AnswerReflects | pytmbot/handlers/auth_processing/twofa_processing.py:217-260 | every outcome of a code message keeps the session equal to what the log says |
| TwoFactor.CodeReflects | pytmbot/handlers/auth_processing/twofa_processing.py:185-260 | a code message, which may evict other sessions, keeps every user's session equal to that user's log, and its outcome can be read off the log |
| TwoFactor.AskReflects | pytmbot/handlers/auth_processing/twofa_processing.py:145-151 | so does asking for a code, with the lifting of a block that is over |
| TwoFactor.RemovalReflects | pytmbot/middleware/session_manager.py:225-267 | so does the removal of any sessions |
| TwoFactor.TwoFactor.FewChecksPerWindow | pytmbot/handlers/auth_processing/twofa_processing.py:217-243 | in any closed minute, less what readings were late by, at most `threshold` codes of a user reach the check, across removals, blocks and resets |
| TwoFactor.TwoFactor.FewFailuresPerCounter | pytmbot/handlers/auth_processing/twofa_processing.py:215-258 | `totp_attempts` is the number of failures since creation or reset, and at most `totp_max_attempts` checked codes fail in between |
| TwoFactor.TwoFactor.BlockedTimeIffBlocked | pytmbot/middleware/session_manager.py:337-370 | in every reachable state a session has a blocked time exactly if its state is blocked |
| Overlap.Overlap.OverlapIsSafe | pytmbot/handlers/auth_processing/twofa_processing.py:215-258 | in every interleaving of single session accesses: fewer checked codes fail between two resets than the limit plus the largest number of overlapping messages; of those admitted in one closed minute, less what readings were late by, no more than the burst threshold; of those admitted within a minute, if the store blocks that long and readings were in order, fewer than its attempts plus the overlap; the counter counts all failures, every log-in has a successful check of its own, and no block is without an end once the blocking handlers are done |
| OverlapRuns.BoundIsReached | pytmbot/handlers/auth_processing/twofa_processing.py:215-258 | the first bound is exact for every limit, every number of overlapping messages and every session configuration, by a run whose attempts are more than a minute apart, so that the burst limit admits each of them |
| OverlapRuns.MinuteBoundIsReached | pytmbot/handlers/auth_processing/twofa_processing.py:76-94 | and so is the minimum of all bounds for one minute, for every limit, overlap and session configuration: of any number of overlapping messages exactly that many fail, all admitted at one reading and with all readings in order |
| Overlap.Overlap.FewPerMinute | pytmbot/middleware/session_manager.py:300-321 | the same bound by the store's attempts on its own, for every reachable state |
| OverlapMinute.FewInMinute | pytmbot/middleware/session_manager.py:300-321 | the counting argument: failures that did not block are fewer than the store's attempts, and of the others in a minute all but one had read the block before the first of them set it |
| OverlapMinute.BlockedWatched | pytmbot/middleware/session_manager.py:300-321 | a failure that blocks keeps that only handlers on their way, fewer than the largest overlap, can still fail without having read its block |
| OverlapMinute.QuietWatched | pytmbot/middleware/session_manager.py:361-389 | so does every step that counts nothing, where a block is lifted only once a minute has passed, and only replaced by one that lasts a minute more |
| OverlapMinute.AdmissionWatched | pytmbot/handlers/auth_processing/twofa_processing.py:217-233 | who passes the guards was admitted a minute or more after every block it had read |
| OverlapWorld.FailureKeeps | pytmbot/middleware/session_manager.py:300-321 | a counted failure keeps the bound: only handlers that read the counter below the limit can still add a failed check |
| OverlapWorld.CheckKeeps | pytmbot/handlers/auth_processing/twofa_processing.py:217-237 | every check that starts has an admission by the burst limit of its own |
| OverlapWorld.SlotsCount | pytmbot/handlers/auth_processing/twofa_processing.py:76-94 | checks with admissions of their own in an interval are no more than the admissions there |
| OverlapWorld.GoKeeps | pytmbot/handlers/auth_processing/twofa_processing.py:195-233 | reading and guarding keep the invariant, where a handler that reads the counter at the limit never gets to a check |
| OverlapWorld.VerifyKeeps | pytmbot/handlers/auth_processing/twofa_processing.py:235-242 | a successful check is noted before its log-in |
| OverlapWorld.LoginKeeps | pytmbot/middleware/session_manager.py:392-398 | the log-in uses up one successful check |
| Overlap.Overlap.AskIfBlocked | pytmbot/middleware/session_manager.py:377-389 | the first access of asking for a code |
| Overlap.Overlap.StartProcessing | pytmbot/handlers/auth_processing/twofa_processing.py:149-149 | the second one, whatever happened in between |
| Overlap.Overlap.ReadState | pytmbot/handlers/auth_processing/twofa_processing.py:195-213 | a code message is ignored unless the session is processing, and counts as a failure if it is malformed |
| Overlap.Overlap.Guard | pytmbot/handlers/auth_processing/twofa_processing.py:217-233 | the burst limit is asked in any case and refuses exactly when the closed minute is full; then the guards decide on what was read before, in their order |
| Overlap.Overlap.Check | pytmbot/handlers/auth_processing/twofa_processing.py:235-258 | a good code leads to a log-in, a bad one to a counted failure |
| Overlap.Overlap.EnterBlocked | pytmbot/handlers/auth_processing/twofa_processing.py:400-400 | blocked, for a moment without an end |
| Overlap.Overlap.ResetAttempts | pytmbot/handlers/auth_processing/twofa_processing.py:402-402 | the counter starts again |
| Overlap.Overlap.EndBlocking | pytmbot/handlers/auth_processing/twofa_processing.py:404-404 | the block gets its end |
| Overlap.Overlap.CountFailure | pytmbot/middleware/session_manager.py:300-321 | one failure is counted, and blocks from the maximum on |
| Overlap.Overlap.NoteLogin | pytmbot/middleware/session_manager.py:392-398 | the time of the log-in is noted |
| Overlap.Overlap.IsAuthenticated | pytmbot/middleware/session_manager.py:400-426 | whoever is authenticated logged in no longer ago than the timeout, after a successful check |
| LogIns.LogIns.Check | pytmbot/handlers/auth_processing/twofa_processing.py:235-242 | the check of a handler is the replay guard's, and an accepted text is the user's own code at one of the three steps around the present one: the steps of the user's successful checks stay spent, and are distinct while the guard has forgotten nothing in reach and codes are spelled normally; a run stays steady exactly if the observed step fell back by at most three and an accepted code was spelled normally and written to the state file |
| LogIns.Verify | pytmbot/utils/totp.py:389-449 | a guard that has forgotten nothing in reach accepts a code spelled normally only if the user spent no marker of its step |
| LogIns.LogIns.EachLogInSpendsAStep | pytmbot/utils/totp.py:389-449 | end to end, with overlapping messages, other users and restarts: every log-in has a successful check of its own, and every such check spent a time step of the user that no other one spent, if at every check the observed step fell back by at most three, and every accepted code was spelled normally and written to the state file |
| Rotation.Rotation.ResolveExpectedSecret | pytmbot/webhook.py:615-636 | a path yields its own secret, the one it was issued with, until some lookup saw its deadline pass; with readings in order, exactly if it is current or less than 300 seconds have passed since its replacement |
| Rotation.Rotation.MaybeRotate | pytmbot/webhook.py:638-654 | a worker starts exactly when the counter has reached the threshold and none is on its way |
| Rotation.Rotation.WorkerCommit | pytmbot/webhook.py:656-723 | the new pair becomes current, the replaced one gets its grace period, the counter starts again |
| Rotation.Rotation.WorkerFail | pytmbot/webhook.py:656-723 | a failed rotation changes no credential |
| Rotation.Rotation.RotationIsSafe | pytmbot/webhook.py:615-723 | in every reachable state at most one worker exists, 10000 times the commits plus the counter never exceeds the counted requests, and the current path is accepted with the current secret and is the only entry without a deadline |
| Deletion.Scheduler.Schedule | pytmbot/utils/message_deletion.py:243-356 | the four outcomes exactly: delay out of range, already scheduled, limit reached, or tracked with a worker of its own; no user's live workers gain on the pending messages |
| Deletion.Scheduler.FinishWorker | pytmbot/utils/message_deletion.py:424-428 | a finishing worker untracks its key in both tables, whoever tracks it by now, and never raises a user's surplus of live workers over pending messages |
| Deletion.Scheduler.CleanupStale | pytmbot/utils/message_deletion.py:197-221 | exactly the tasks of dead bots are untracked, no empty set stays, and each user's surplus grows by the number of that user's tasks among them |
| Deletion.Scheduler.TablesAgree | pytmbot/utils/message_deletion.py:197-356 | over all interleavings a message is pending exactly if its task is active, every active task has a live worker, no user has more than three pending; and scheduling can bring a user above three live workers exactly if the live workers outnumber the pending messages |
| Deletion.Scheduler.WorkersMatchTasks | pytmbot/utils/message_deletion.py:288-346 | live workers and tracked tasks of a user correspond one to one exactly if there are as many of one as of the other, and then there are at most three |
| Deletion.OneToOne | pytmbot/utils/message_deletion.py:288-346 | if every message has a worker there are at least as many workers, and if there are no more the correspondence is one to one |
| Deletion.AddKeepsCoherent | pytmbot/utils/message_deletion.py:322-346 | scheduling keeps the tables in agreement |
| Deletion.FinishKeepsCoherent | pytmbot/utils/message_deletion.py:424-428 | so does the end of a worker |
| Deletion.PurgeKeepsCoherent | pytmbot/utils/message_deletion.py:197-213 | so does the cleanup of one task |
| Deletion.ExceedsIffSurplus | pytmbot/utils/message_deletion.py:288-346 | from a coherent state some calls to schedule bring the user above three live workers if and only if there are more live workers than pending messages |
| Deletion.SurplusMeans | pytmbot/utils/message_deletion.py:322-346 | there are never fewer live workers than pending messages, and as many exactly if they correspond one to one |
| Deletion.FinishLowersSurplus | pytmbot/utils/message_deletion.py:424-428 | a finishing worker lowers the surplus exactly if its task was taken away |
| Deletion.PurgeRaisesSurplus | pytmbot/utils/message_deletion.py:197-213 | the cleanup of one task raises the surplus of its user by one, and of nobody else |
| DeletionTime.TimedScheduler.Schedule | pytmbot/utils/message_deletion.py:243-356 | scheduled exactly if the delay is in range, the task is not active and fewer than three messages are pending; the worker is due after its delay |
| DeletionTime.TimedScheduler.FinishWorker | pytmbot/utils/message_deletion.py:358-428 | a worker finishes no sooner than it is due, with its bot alive or dead |
| DeletionTime.TimedScheduler.CleanupStale | pytmbot/utils/message_deletion.py:180-213 | a cleanup comes 300 seconds or more after the one before; every worker whose task it takes is noted as lost then |
| DeletionTime.TimedScheduler.WorkersAreFew | pytmbot/utils/message_deletion.py:115-122 | in every reachable state: a user none of whose messages was scheduled again while an earlier worker of it was alive has at most three live workers and three more for every cleanup that fits into a worker's life, thirty-nine if none of them is overdue |
| DeletionTime.LiveAreFew | pytmbot/utils/message_deletion.py:180-213 | the counting argument: at most three tracked workers, and at most three lost to each cleanup since the oldest was started |
| DeletionTime.LostAreFew | pytmbot/utils/message_deletion.py:180-190 | workers lost to cleanups a pause apart, three at most each, are at most three for every pause in the interval |
| DeletionTime.StartKeepsTimed | pytmbot/utils/message_deletion.py:322-346 | scheduling keeps that the workers of a user who scheduled nothing twice have messages of their own and are tracked or lost |
| DeletionTime.EndKeepsTimed | pytmbot/utils/message_deletion.py:424-428 | so does the end of a worker |
| DeletionTime.SweepKeepsTimed | pytmbot/utils/message_deletion.py:197-213 | so does a cleanup, which takes three tasks of each such user at most |
| DeletionTime.BoundIsReached | pytmbot/utils/message_deletion.py:180-213 | the bound is exact: for every delay in range a run reaches it, with nobody ever late, no message scheduled twice and every bot that died dead |
| DeletionTime.ManyWorkers | pytmbot/utils/message_deletion.py:380-428 | without that condition there is no bound: for every n a run, with nobody ever late, in which one user has 3n live workers |
| Masking.LogsAreMasked | pytmbot/utils/telegram_utils.py:46-79 | without a user or a message the text is unchanged; otherwise it is as long as before, differs only inside occurrences of the values, where it shows stars, no value free of stars is left, and an occurrence that no other one runs into is stars to its end |
| Masking.LogsMaskWhole | pytmbot/utils/telegram_utils.py:67-74 | of the values that occur at one place the longest is masked |
| Masking.SurvivesIffStarred | pytmbot/utils/telegram_utils.py:60-77 | the exact condition: a value can be left in some output precisely if it holds a star |
| Masking.MatchMeans | pytmbot/utils/telegram_utils.py:67-74 | the alternation with the longest value first takes a longest value wherever any occurs |
| Masking.OccurrenceIsTouched | pytmbot/utils/telegram_utils.py:67-77 | the left-to-right scan masks something of every occurrence |
| Masking.MaskChangesOnlyMatches | pytmbot/utils/telegram_utils.py:75-77 | a character outside every occurrence is unchanged |
| Masking.FirstOccurrenceIsMasked | pytmbot/utils/telegram_utils.py:67-77 | an occurrence that none before it runs into is masked to its end |
| Masking.SanitizeException | pytmbot/utils/security.py:67-83 | the text keeps its length; whatever changes becomes a star and lies where a secret that is not blank can be read, stars aside; no such secret is left that is free of stars; and one that no other at least as long overlaps is stars entirely |
| Masking.EachChangesOnlyReadings | pytmbot/utils/security.py:79-83 | the passes together change only characters where some secret could be read in the original text |
| Masking.AloneIsMasked | pytmbot/utils/security.py:76-83 | an occurrence that stands alone is masked entirely, because the longest secret goes first |
| Masking.ExceptionsAreMasked | pytmbot/utils/security.py:67-83 | the text keeps its length, only gains stars, and no secret free of stars is left |
| Masking.SecretSurvivesIffStarred | pytmbot/utils/security.py:67-83 | the same exact condition: a secret can be left in some exception text precisely if it holds a star |
| Masking.LeftoverHasStar | pytmbot/utils/security.py:79-83 | later passes cannot bring back an earlier secret |
| Masking.LongestFirstMasksWhole | pytmbot/utils/security.py:76-83 | with the longest secret first, and no star in any secret at least as long as this one, an occurrence that no other secret at least as long overlaps is masked entirely |
| Tags.LessIsStrictWeakOrder | pytmbot/adapters/docker/updates.py:147-170 | on version tags, date tags and tags with a readable time `__lt__` is a strict weak order |
| Tags.OrderIsWeakExactly | pytmbot/adapters/docker/updates.py:147-170 | on any classified tags it is one exactly if no tag without a readable time stands, by name, between two whose times contradict their names |
| Tags.MixedOrderIsCircular | pytmbot/adapters/docker/updates.py:161-170 | otherwise it can go in a circle |
| Tags.ComparesAtFirstDifference | pytmbot/adapters/docker/updates.py:157-158 | releases are compared at the first position where they differ after padding with zeros (PEP 440, "Final releases") |
| Tags.EqualMeansPaddedEqual | pytmbot/adapters/docker/updates.py:157-158 | releases compare as equal exactly if they are the same after padding |
| Tags.BeforeMeansLess | pytmbot/adapters/docker/updates.py:157-158 | a release compares as less exactly if at the first position where they differ after padding it has the smaller number |
| Tags.NamesCompareAtFirstDifference | pytmbot/adapters/docker/updates.py:165-170 | names are compared character by character |
| Tags.CompareIsTotalPreorder | pytmbot/adapters/docker/updates.py:157-158 | the comparison of releases is a total preorder |
| Tags.NewerIsGreater | pytmbot/adapters/docker/updates.py:503-531 | within a kind, "newer" as the selection asks is "greater" as the sorting sees it |
| Tags.FindUpdates | pytmbot/adapters/docker/updates.py:541-603 | none for an invalid local tag; otherwise the ranking holds each remote tag as often as it is listed if it may be reported, and no other: the same name with another digest, or a later tag of the same kind, for versions with the same major number; where the order is lawful no tag of the ranking is later than one before it; the first ten are reported, with the names, times and digest of the local tag and of the one found |
| Tags.UpdatesAmongMeans | pytmbot/adapters/docker/updates.py:561-586 | compatible are exactly the valid tags of the same name with another digest and the greater tags of the same kind, for versions with the same major number |
| Tags.RankSorts | pytmbot/adapters/docker/updates.py:588-588 | sorting permutes, and ranks wherever the order obeys its laws |
| Tags.RankIsStable | pytmbot/adapters/docker/updates.py:588-588 | where the order is lawful, tags of which neither is greater keep their order |
| Common.SortIsStable | pytmbot/adapters/docker/updates.py:588-588 | the sorting keeps the order of equals |
| Common.SortSorts | pytmbot/adapters/docker/updates.py:588-588 | a stable sort permutes, and sorts wherever the order is irreflexive and transitive |
| Tags.RankingIsGreatestFirst | pytmbot/adapters/docker/updates.py:588-603 | the ranking lists exactly the compatible tags and none is greater than one before it, so the first ten are the greatest ten |
| Pagination.Paginate | pytmbot/handlers/docker_handlers/pagination.py:28-53 | any requested page is brought into range, no page of a nonempty list is empty, only the last may be short |
| Pagination.PagesConcatenate | pytmbot/handlers/docker_handlers/pagination.py:28-53 | all pages together are exactly the list, for every page size |
| Pagination.PageDataRoundTrip | pytmbot/handlers/docker_handlers/pagination.py:56-83 | in every script whose numbers read back, the parser recovers page (raised to one) and user exactly if the prefix has no separator |
| Pagination.PageDataReads | pytmbot/handlers/docker_handlers/pagination.py:80-83 | a page text is the prefix, the page raised to one and the user, with colons between |
| Pagination.PageDataParses | pytmbot/handlers/docker_handlers/pagination.py:56-77 | the parser takes exactly the texts with the expected prefix, a page of one or more and a user, with two colons, whatever counts as a number |
| Pagination.FullInfoDataRoundTrip | pytmbot/handlers/docker_handlers/pagination.py:86-144 | in every sensible script (which says what blanks, lower case and numbers are), the parser recovers the normalized reference, the user and the page exactly if prefix and reference have no separator and the reference is not blank |
| Pagination.FullInfoDataReads | pytmbot/handlers/docker_handlers/pagination.py:86-104 | a container text is the prefix, the normalized reference, the user and possibly the page raised to one |
| Pagination.FullInfoDataParses | pytmbot/handlers/docker_handlers/pagination.py:107-144 | the parser takes exactly the texts with the expected prefix, a reference that is not blank, a user and possibly a page of one or more |
| Pagination.ParsedIsPlain | pytmbot/handlers/docker_handlers/pagination.py:107-144 | in every sensible script, a parsed result names a plain, normalized, nonempty reference |
| Pagination.NormalRefMeans | pytmbot/handlers/docker_handlers/pagination.py:86-104 | in every sensible script, trimming and lower-casing a reference twice is doing it once |
| Text.IntTextParses | pytmbot/handlers/docker_handlers/pagination.py:56-83 | printing and reading a whole number undo each other |
| Text.SplitJoin | pytmbot/handlers/docker_handlers/pagination.py:64-83 | splitting recovers joined pieces that have no separator |
| Text.JoinSplit | pytmbot/handlers/docker_handlers/pagination.py:64-83 | joining the pieces of a text gives the text |
| Text.StripMeans | pytmbot/utils/totp.py:405-411 | trimming takes blanks from both ends, all of them, and nothing else |
| Text.AsciiIsSensible | pytmbot/handlers/docker_handlers/pagination.py:64-83 | plain ASCII is such a script |
| Text.NatTextValue | pytmbot/utils/totp.py:113-173 | user ids survive as decimal keys of the state file |

## Left out

- Telegram, Docker, HTTP, file-system and database calls, rendering, keyboards, notifications, logging, statistics and health reports.
- Cryptography and randomness: the code of a user at a step is an arbitrary fixed function (the secret also depends on the user name, which is taken as fixed), and new webhook paths are assumed never to repeat.
- Floating-point and calendar time: every clock is an integer, so naive and zone-aware times (whose comparison raises an error in the tag order) are not distinguished.
- Errors of Telegram calls inside the two-factor handlers: an error between a successful check and the log-in has the effect of a check that raised, and an error before the counting of a malformed code would leave it uncounted.
- Locks and threads themselves: a critical section is one method call. A crash in the middle of a section is not modelled; a restart happens between sections. A worker thread that fails to start is not modelled.
- TwoFactor.TwoFactor.HandleCode: one message of a user is handled as one step, with the verdict of the check as an input; what overlapping handlers do is the subject of `Overlap`, and what the verdict is of `LogIns`.
- TwoFactor.TwoFactor.FewChecksPerWindow: a check is dated by the admission of its message, since a handler may be delayed in between.
- Overlap.Overlap.FewPerMinute: nothing is said of a store that blocks for less than a minute, nor of readings out of order.
- IpLimiter.IpLimiter.IsRateLimited: the ban file is read in the constructor and never written; among addresses last seen at the same time any may be dropped.
- Totp.Serialize: the file is a tree of objects, lists, texts and numbers. JSON syntax, the order of keys and markers in the file and booleans passing as numbers are not modelled.
- Totp.CapNewest: among markers of the same step any may be dropped first.
- AccessControl.AccessControl.HandleUnauthorized: whether a message is a setup command is an input; messages to the user and to administrators are left out.
- Totp.ReplayGuard.Verify: which characters are digits and what the normal form of a text is are parameters, as Unicode tables are not part of this model; user ids are not negative.
- DeletionTime.TimedScheduler.FinishWorker: time here is the time that passes, not a reading of a clock; how late a worker wakes up and how long the call to Telegram takes are arbitrary.
- Masking.LogsAreMasked: removal of terminal escape sequences comes before and is not modelled; the values are given as a list, whatever they were read from.
- Tags.FindUpdates: tags come classified, so that the patterns that classify names are not modelled; an update record that cannot be built (and is skipped) does not occur; where the order is not a strict weak order the result depends on the sorting algorithm, which here is insertion.
- Pagination.FullInfoDataRoundTrip: that a character set is sensible is proved of ASCII only; of Unicode it would be a property of its tables, which are not part of this model.
- The remaining bounded caches, polling with back-off, health levels and the formatting of durations and masked names.
