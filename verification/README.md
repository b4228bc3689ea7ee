# Chirpy: protocols and invariants

A Dafny model of the parts of the Chirpy chat server whose correctness depends on what happens inside a
lock, a Redis command or a transaction, and on what happens after it is released. Every critical section,
Redis command, script and SQL transaction is one atomic step; the steps of different actors interleave
freely. `dafny verify dfyconfig.toml` checks everything.

How the files are organised:

- **Values.** Each critical section is a function from an explicit state (and the clock reading, the
  answers of outside lookups, and so on) to the next state and the effects that follow after unlocking.
- **Objects.** Where the Go code mutates maps and records, a class does the same in place; each method's
  contract equates the new state with the function.
- **Rules.** What each function does is stated again without it: on the rows, connections, entries or times concerned,
  with what stays as it was.
- **Runs.** A run is any sequence of events. An event that is not enabled changes nothing, so a theorem
  about all sequences is a theorem about all interleavings.

| files | what they model |
|---|---|
| `CallManager`, `CallRules`, `CallServer`, `CallRuns`, `CallCauses` | 1:1 calls: exclusivity, device binding, timers, signal budget, who may end a call and for what; asynchronous runs in which a stopped timer's callback may still run and log writes may arrive late or out of order |
| `CallLog`, `DailyCap`, `StartLimit` | the call log, the daily talk-time cap, the limit on starting calls |
| `VersionedCache`, `CacheRuns`, `CacheLoads` | the versioned Redis cache and the multi-query snapshots it serves (groups, friends) |
| `JobQueue`, `QueueRuns`, `QueueTimes`, `QueueLife` | the durable job queue: streams, pending entries, delayed set, dead letters |
| `Groups`, `GroupRules`, `GroupStore`, `GroupRuns`, `GroupAuth` | roles and capacity, account deletion, cached against transactional authorisation |
| `Dedupe`, `DedupeRuns`, `DedupeRules` | de-duplication of message sends |
| `Hub`, `HubServer`, `HubRuns`, `HubRules` | the websocket hub |
| `SlidingWindow`, `FixedWindow` | the Redis and the in-process rate limiter |
| `MessageSearch`, `MessagePaging`, `LikePattern` | two-source search, following its cursor, LIKE escaping |

## Where the code differs from what it says

- `internal/platform/ratelimit/redis.go:54-58` calls the end of the current window a safe time to try again. It is
  one only if the current window itself has room (`SlidingWindow.RetryAfterMayFail`); a caller who filled the
  window is refused again (`SlidingWindow.RefusedAgain`). The in-process limiter's wait is short by one instant (`FixedWindow.RetryMustBeLater`, `FixedWindow.RefusedAgain`).
- The Redis script can report -1 requests remaining (`SlidingWindow.RemainingMayBeMinusOne`, `SlidingWindow.MinusOneIsReached`); the middleware clamps it.
- `internal/search/search.go:124` fetches five extra rows per source to make up for suspended senders. A page is
  right exactly when what each source left behind comes after a whole page (`MessageSearch.PageIsNextExactly`).
  With more hidden rows, a search of one source may return a short page (`MessagePaging.ShortPage`) but never
  skips a match, and stops early only at a fetch that is all hidden; a search of both sources can return a full
  page that skips a match for good (`MessagePaging.LostForGood`).
- `internal/calls/calls.go:344` arms the limit timer when `accept` has its second lock, but the time on the log and
  the limit itself date from the clock reading at its start. The daily cap is overrun by that delay and by the
  lateness of the timer, in full (`DailyCap.CapIsOverrun`), and but for rounding by no more, unless calls end by an
  earlier clock reading than they were answered by (`DailyCap.DailyCapHolds`).
- An `AnswerCall` that reaches the log after its `FinishCall` is refused by its guard, and the talk time is then
  missing from the daily sum (`CallLog.LateAnswerIsLost`).
- A check on a snapshot torn by a transfer can refuse a member whom the states before and after would both have let
  (`GroupAuth.TornRefusal`). It never grants what no state since the last completed invalidation would have granted
  (`GroupAuth.GrantIsBacked`).
- A snapshot in the cache can be one the database never had, between a write and its `Invalidate`
  (`CacheRuns.TornSnapshotIsCached`); and a version key that expires under a loading reader lets a stale value
  be cached with no invalidation left to come (`CacheRuns.ResetCachesStale`).

## Model

| member | source | states |
|---|---|---|
| CallManager.HandleKeepsInv | internal/calls/calls.go:100-141 | every critical section keeps the index: each listed call has two different users, `byUser` holds it for both, and holds nothing else; a ringing call has no callee device, no lost side and no signals |
| CallManager.TwoEntriesPerCall | internal/calls/calls.go:127-141 | the user index has exactly two entries per call |
| CallManager.StartKeepsInv | internal/calls/calls.go:258-283 | starting a call keeps the index in every branch (limited, in a call, busy, ringing) |
| CallManager.EndKeepsInv | internal/calls/calls.go:407-431 | ending removes exactly that call and exactly its two users |
| CallManager.UnfriendFindsTheirCall | internal/calls/calls.go:513-520 | unfriending ends the call between the two users if there is one, and no other call |
| CallRules.StartRules | internal/calls/calls.go:236-292 | a call rings if and only if the two are different friends, both free, with time left today and fewer than ten starts in the last minute; its ring timer, its log entry and both messages come with it, and every other call stays |
| CallRules.StartRefusals | internal/calls/calls.go:236-276 | otherwise the caller is told why, in the order of the questions, and nothing changes; a busy callee goes on the log |
| CallRules.StartsCounted | internal/calls/calls.go:218-234 | only a start that reaches the lock counts against its caller's starts |
| CallRules.PeekRules | internal/calls/calls.go:310-330 | the limit offered is the least of the two users' remaining times and the longest call; with none left the call is sent to its end |
| CallRules.AnswerRules | internal/calls/calls.go:331-355 | only the callee answers, only while it rings; exactly that call changes, the timer waits for exactly the limit, and everyone concerned is told |
| CallRules.SignalRules | internal/calls/calls.go:357-383 | a signal is refused, or counted for its sender alone and relayed to the peer's device while the count allows |
| CallRules.HangUpRules | internal/calls/calls.go:386-404 | before the answer the caller cancels and the callee declines; afterwards either side ends the call; nobody else does |
| CallRules.EndRules | internal/calls/calls.go:407-449 | exactly that call and its two users go; both hear the reason and the time talked; the log gets the final state of an answered or unanswered call |
| CallRules.ReconnectRules | internal/calls/calls.go:454-486 | a lost side is taken over and both ends told to resume; a ringing callee's new device rings; nothing else |
| CallRules.DropRules | internal/calls/calls.go:491-510 | a bound device that drops cancels the call it rings out, or starts its side's grace period, once; any other changes nothing |
| CallServer.Manager.AllowStart | internal/calls/calls.go:218-234 | the filter loop, here into a new list, and the bound on the table do what the value function says |
| CallServer.Manager.Start | internal/calls/calls.go:258-292 | start under the lock, on shared records: new state and effects are those of `StartCall` |
| CallServer.Manager.Commit | internal/calls/calls.go:331-355 | answering: the record, the armed timer, the log write and the messages |
| CallServer.Manager.Signal | internal/calls/calls.go:357-383 | counting and routing a signal, with every refusal |
| CallServer.Manager.HangUp | internal/calls/calls.go:386-404 | which reason a hang-up ends the call for |
| CallServer.Manager.End | internal/calls/calls.go:407-449 | ending on shared records, with the pointer comparisons on the index |
| CallServer.Manager.Connected | internal/calls/calls.go:454-486 | a reconnecting device takes over only a lost side |
| CallServer.Manager.Dropped | internal/calls/calls.go:491-510 | a dropped device of an active call is marked lost once and its grace timer armed |
| CallServer.Manager.EndBetween | internal/calls/calls.go:513-520 | looks the call up through the index |
| CallRuns.EndsExactlyOnce | internal/calls/calls.go:407-449 | in every run a call that rang is either listed and not ended, or gone and ended exactly once, however many timers, hang-ups, drops and unfriendings race |
| CallRuns.EndedMeansAnswered | internal/calls/calls.go:433-439 | the log is told "ended" exactly for calls that had been answered |
| CallRuns.ClosedRowsStay | internal/database/calls.sql.go:15-17 | a log row with an end time never changes again in any continuation of any run, whatever order the writes arrive in |
| CallRuns.RelayBudget | internal/calls/calls.go:368-375 | at most 500 signals per side and call are relayed over a whole run |
| CallRuns.RelayOrigin | internal/calls/calls.go:357-383 | every relayed signal came from the sender's bound device of an active call and went to the peer's then-bound device |
| CallRuns.BindingMoves | internal/calls/calls.go:454-486 | after the answer a side changes device only from a lost one to a new connection of the same user |
| CallCauses.TimersAreArmed | internal/calls/calls.go:281-355 | in every run, whatever rang has its 45 s ring timer; whatever was answered has a timer for exactly the limit offered to its callee for that answer; a call with a side that is gone has its 30 s grace timer |
| CallCauses.EveryEndHasACause | internal/calls/calls.go:236-520 | in every run, whatever a call ended for really happened before, to that call, by the right user and device, while it rang or while they talked |
| CallCauses.LogIsTrue | internal/database/calls.sql.go:15-96 | in every run, whatever order the writes arrive in, a log row tells who called whom and when, whether and when it was answered, and how, for what and when it ended |
| CallRuns.HandleLedger | internal/calls/calls.go:236-520 | what a critical section tells log and peers is exactly what it does to each call |
| CallRuns.StepKeepsInv | internal/calls/calls.go:236-520 | the inductive step of all of the above for the asynchronous system |
| CallLog.ClosedRowsFrozen | internal/database/calls.sql.go:67-70 | no log write changes a closed row |
| CallLog.WritesTake | internal/database/calls.sql.go:15-70 | an answer changes exactly the ringing row of that id, an end exactly the open one |
| CallLog.LateAnswerIsLost | internal/database/calls.sql.go:29-35 | in order, the two writes count the talk; swapped, the daily sum never sees it |
| DailyCap.DailyCapHolds | internal/calls/calls.go:310-354 | in every run, at every moment, where nothing but the timer armed at the answer ends a call in time, a user's answered talk time in any 24 hours is at most the cap, plus the time an answer takes, the lateness of the limit timer, half a second, and what calls ended before their answer by the log, each at most the lag of a clock reading |
| DailyCap.CapIsOverrun | internal/calls/calls.go:344 | for any such delays, a run that overruns the cap by both of them in full |
| DailyCap.TalkedIsUsed | internal/database/calls.sql.go:29-35 | talk in a later window is bounded by the sum computed when the call was answered, but for rows it counts negative |
| DailyCap.SumIsTalk | internal/database/calls.sql.go:29-35 | the sum the log is asked for is exactly the talk of the last 24 hours, while no row ends before its answer |
| DailyCap.RemainingIsWhatIsLeft | internal/calls/calls.go:157-166 | what a user may still talk is the cap less that talk, to half a second, and never more than the longest call |
| DailyCap.PeekOffer | internal/calls/calls.go:157-166 | the limit offered at the answer respects what both users have used |
| DailyCap.StepKeepsInv | internal/calls/calls.go:310-354 | every event keeps log and memory in step, one call per user, and every budget |
| DailyCap.OpenRowsAreTheCalls | internal/calls/calls.go:281-285 | open log rows are exactly the calls in memory, at most one per user |
| StartLimit.RecentKept | internal/calls/calls.go:219-224 | filtering keeps the starts in order and drops only those a minute older than the latest reading |
| StartLimit.ElevenTakeAMinute | internal/calls/calls.go:218-234 | between two clears of the table no user ever starts eleven calls within a minute, less twice what clock readings may be out of order at the lock |
| StartLimit.RefusedOnlyAtTheLimit | internal/calls/calls.go:225-227 | with readings in order, a start is refused if and only if ten since the last clear were allowed in the minute before |
| VersionedCache.Versioned.Get | internal/platform/redisx/versioned.go:35-38 | reads the value key |
| VersionedCache.Versioned.Version | internal/platform/redisx/versioned.go:40-47 | reads the counter, 0 if there is none |
| VersionedCache.Versioned.Put | internal/platform/redisx/versioned.go:49-74 | stores the value if and only if the version is the one seen |
| VersionedCache.Versioned.Invalidate | internal/platform/redisx/versioned.go:76-88 | each id's counter rises by its number of occurrences and its value goes; other ids are untouched |
| CacheRuns.Freshness | internal/platform/redisx/versioned.go:91-110 | what a Load returns is, part by part, what the database held after some commit no older than any write whose Invalidate had completed before the Load began |
| CacheRuns.CachedIsCurrent | internal/friends/repo.go:46-74 | when no committed write awaits its Invalidate, a cached snapshot is the joint database state in all its parts, although they were read by separate queries |
| CacheRuns.StepKeepsInv | internal/platform/redisx/versioned.go:49-110 | every command of readers and writers keeps the protocol's invariant |
| CacheRuns.ExecIsPut | internal/platform/redisx/versioned.go:49-74 | WATCH, compare and EXEC act like one atomic conditional put |
| CacheRuns.InvalidateIsBump | internal/platform/redisx/versioned.go:76-88 | the invalidation step is the class's Invalidate of one id |
| CacheRuns.ExpiryIsLapse | internal/platform/redisx/versioned.go:80-81 | the two expiry steps are the class's Expire |
| CacheRuns.TornSnapshotIsCached | internal/groups/repo.go:193-221 | a run that caches a mix of two states until the Invalidate |
| CacheRuns.ResetCachesStale | internal/platform/redisx/versioned.go:40-74 | a run showing why the version key must outlive a load |
| CacheLoads.MissIsStored | internal/platform/redisx/versioned.go:90-110 | a Load that misses and that nobody disturbs, with a snapshot of any number of parts, returns the current database state and leaves it in the cache |
| CacheLoads.HitIsServed | internal/platform/redisx/versioned.go:90-97 | a Load that hits returns what is cached and changes nothing |
| CacheLoads.SecondLoadHits | internal/platform/redisx/versioned.go:90-110 | the second of two Loads in a row is served what the first left, without a query |
| CacheLoads.DisturbedPutIsDropped | internal/platform/redisx/versioned.go:49-74 | an Invalidate between WATCH and EXEC keeps the result out of the cache; the Load returns it all the same |
| CacheLoads.BumpsAddUp | internal/platform/redisx/versioned.go:76-88 | an id given twice is bumped twice |
| JobQueue.BackoffShape | internal/platform/queue/memory.go:98-101 | delays double from 200 ms for eight attempts, never fall, and are 30 s exactly from the ninth on |
| JobQueue.MoveExact | internal/platform/queue/redis.go:252-261 | the move script takes exactly the batch out of the delayed set, adds one entry for each, and touches nothing else |
| JobQueue.Redis.Publish | internal/platform/queue/redis.go:90-105 | one new entry with attempt 0 |
| JobQueue.Redis.Process | internal/platform/queue/redis.go:211-247 | acknowledge and reschedule or bury in one transaction, or leave everything as it was |
| JobQueue.Redis.FirstDue | internal/platform/queue/redis.go:253 | the first hundred due envelopes by due time |
| JobQueue.Redis.MoveDue | internal/platform/queue/redis.go:252-269 | one run of the script |
| QueueRuns.NothingIsLost | internal/platform/queue/redis.go:90-261 | in every run, across crashes, reclaims, double deliveries and failed transactions, the jobs in the stream, delayed, dead or handled are exactly the published ones |
| QueueRuns.AttemptsBelowLimit | internal/platform/queue/redis.go:223-239 | no stream or delayed entry has used up its attempts |
| QueueRuns.StepKeepsInv | internal/platform/queue/redis.go:161-261 | every step keeps conservation, the limit and the bookkeeping of pending entries |
| QueueTimes.DueAfterItsWait | internal/platform/queue/redis.go:233-237 | in every run, an envelope that has failed n times is due its wait after the latest failure that put it there, not before and less than a millisecond after; the wait is 200 ms doubled n - 1 times, 30 s from the ninth failure on |
| QueueTimes.RetriesWait | internal/platform/queue/redis.go:252-269 | in every run, an entry that has failed n times was moved back into the stream no earlier than that, to the millisecond |
| QueueTimes.DueIsMoved | internal/platform/queue/redis.go:252-269 | in every run, a move with room left leaves nothing behind that was due, and a full one nothing due earlier |
| QueueLife.Follow | internal/platform/queue/redis.go:211-261 | with one delivery per attempt a job is always in one place and its attempt count is its number of failures |
| QueueLife.DiesAtTheLimit | internal/platform/queue/redis.go:223-239 | a job that neither succeeds nor fails permanently is dead exactly when it has failed MaxRetries times, with one dead letter |
| QueueLife.EightByDefault | internal/platform/queue/redis.go:42-44 | eight times, unless configured |
| QueueLife.PermanentIsFinal | internal/platform/queue/redis.go:225-232 | a permanent failure is the last one: one dead letter, no copy elsewhere |
| QueueLife.SuccessLeavesNothing | internal/platform/queue/redis.go:224-243 | a handled job leaves no copy behind |
| Groups.NextIsUnique | internal/database/groups.sql.go:396-401 | at most one member is next in line |
| Groups.NextExists | internal/database/groups.sql.go:396-401 | someone is next as long as anyone else is left |
| Groups.WhoIsNext | internal/database/groups.sql.go:396-401 | that is a moderator if there is one, and among equals whoever joined first, then the smaller id |
| Groups.AsDecides | internal/groups/repo.go:361-375 | the transaction lets in the admin, and moderators whose row lists the permission, and nobody else |
| Groups.AddKeeps | internal/groups/repo.go:247-261 | adding a member keeps the group invariant, capacity included |
| Groups.LeaveKeeps | internal/groups/repo.go:269-307 | leaving keeps it, and the group goes exactly when its only member leaves |
| Groups.HandOverKeeps | internal/groups/repo.go:280-305 | promoting the successor and dropping the old admin leaves exactly one admin, the successor |
| Groups.TransferKeeps | internal/groups/repo.go:425-441 | a transfer leaves exactly one admin, the target |
| Groups.SetRoleKeeps | internal/groups/repo.go:443-459 | role changes keep the admin, and only moderators carry permissions |
| GroupRules.JoinRules | internal/groups/repo.go:247-267 | whoever is not in is in afterwards, as an ordinary member and counted, if and only if there is room |
| GroupRules.AddMemberRules | internal/groups/repo.go:473-478 | only the admin and moderators who may add members add one |
| GroupRules.LeaveErrors | internal/groups/repo.go:269-296 | leaving fails if and only if the user is not in, or leads and names someone who is not another member |
| GroupRules.LeaveRules | internal/groups/repo.go:301-305 | when anyone but the admin leaves, nobody else's row changes |
| GroupRules.AdminLeaves | internal/groups/repo.go:280-305 | when the admin leaves, exactly one row changes: the named successor's, or else that of the one next in line, who is the admin now, without permissions |
| GroupRules.LastOneLeaves | internal/groups/repo.go:283-287 | the group goes if and only if nobody else is left |
| GroupRules.KickRules | internal/groups/repo.go:377-400 | a member is removed if and only if the admin asks, or a moderator who may remove members asks and the target is an ordinary member; nobody else's row changes |
| GroupRules.KickErrors | internal/groups/repo.go:377-395 | and otherwise which error is told |
| GroupRules.UpdateRules | internal/groups/repo.go:409-423 | the name for the admin and moderators who may edit it, the visibility for the admin only; what is not sent stays |
| GroupRules.TransferRules | internal/groups/repo.go:425-441 | only the admin hands over, to another member; exactly their two rows change |
| GroupRules.SetRoleRules | internal/groups/service.go:341-355 | only the admin gives roles, to others; exactly one row changes, and a moderator carries exactly what was asked for |
| GroupRules.DeleteRules | internal/groups/repo.go:461-471 | only the admin deletes the group |
| GroupRules.RequestRules | internal/groups/repo.go:223-235 | a request changes its own group only, and nothing when it is refused |
| GroupRules.CreateRules | internal/groups/repo.go:112-134 | a new group has its creator, as admin, and nobody else |
| GroupRuns.GroupsStayInOrder | internal/groups/repo.go:112-478 | after any sequence of operations every group has one admin, an exact member count within its capacity, and permissions only on moderators |
| GroupRuns.CleanPermissionsIsExact | internal/groups/model.go:77-90 | an accepted list is what was asked for, once each; a list is refused if and only if it has an unknown entry |
| GroupRuns.DeletingIsLeaving | internal/database/accounts.sql.go:151-156 | deleting an account does to each group what leaving without a named successor does, successor included |
| GroupRuns.DeleteUserKeeps | internal/auth/account_repo.go:136-180 | deletion keeps all groups in order, free of the user, and removes exactly those with nobody else |
| GroupRules.DeleteUserRules | internal/auth/account_repo.go:136-180 | groups the user was not in stay as they were, and every other one is as if the user had left |
| GroupStore.Store.Leave | internal/groups/repo.go:269-307 | the transaction, statement by statement; who takes over is said by `GroupRules.AdminLeaves` |
| GroupStore.Store.Kick | internal/groups/repo.go:377-400 | the transaction, statement by statement; who may remove whom is said by `GroupRules.KickRules` |
| GroupStore.Store.TransferAdmin | internal/groups/repo.go:425-441 | the two role updates |
| GroupStore.Store.SetRole | internal/groups/service.go:341-355 | validation, then the guarded update |
| GroupStore.Store.AddLocked | internal/groups/repo.go:247-261 | already in, full, or added and counted |
| GroupStore.Store.Create | internal/groups/repo.go:112-134 | a new group with its creator as admin |
| GroupStore.Store.CleanPermissions | internal/groups/model.go:77-90 | the two loops |
| GroupStore.Store.DeleteUser | internal/auth/account_repo.go:136-180 | the hand-over loop, the cascade and the recount loop together do, group by group, what the deletion function says |
| GroupAuth.CheckAgrees | internal/groups/service.go:234-253 | on a current snapshot the cached check accepts exactly what the transactional one accepts, for every user and permission, if and only if the group has one admin; and that is what the member's own row entitles to |
| GroupAuth.CachedCheckIsCurrent | internal/groups/repo.go:30-43 | so it does on any cached snapshot while no write awaits its invalidation |
| GroupAuth.GrantIsBacked | internal/groups/service.go:234-253 | however roles change meanwhile, a check that starts after a change's invalidation grants only what the member's row entitled to, and the transaction would have granted, in some state no older than that change |
| GroupAuth.CheckDecidesByNewStates | internal/groups/repo.go:193-221 | its decision is exactly that of the state its leader and the state its moderators were read from, both no older than the change |
| GroupAuth.NoOldRole | internal/groups/service.go:288-294 | while the user's rights stay as the change left them, its decision is exactly the one they give, even on a torn snapshot |
| GroupAuth.TornRefusal | internal/groups/repo.go:425-441 | a transfer between the two queries refuses the new admin, though both states would have let them |
| GroupAuth.RefusalInput | internal/groups/repo.go:425-441 | a group where that happens |
| GroupAuth.WhoDeletesMessages | internal/groups/service.go:271-286 | who may delete whose messages, by a current snapshot |
| GroupAuth.CachedDeletionIsCurrent | internal/groups/service.go:271-286 | and by any cached snapshot while no write awaits its invalidation |
| Dedupe.Deduper.RunGc | internal/chat/dedupe.go:83-99 | the sweep removes exactly the finished entries older than the window |
| Dedupe.Deduper.Enter | internal/chat/dedupe.go:44-57 | one critical section of do: an entry to wait for, or a new one |
| Dedupe.Deduper.Drop | internal/chat/dedupe.go:73-79 | forget, with its pointer comparison |
| DedupeRuns.SendsAreApart | internal/chat/dedupe.go:42-71 | unless everything was once cleared, two sends of one key start more than ten minutes apart, or the first has failed |
| DedupeRuns.ReplayedIdIsReal | internal/chat/dedupe.go:59-67 | a reported id is that of a successful send of that key, started at most ten minutes before the request |
| DedupeRuns.ForgetSparesNewer | internal/chat/dedupe.go:73-79 | a failed attempt never removes an entry that is running or succeeded |
| DedupeRuns.ClearRepeatsASend | internal/chat/dedupe.go:84-86 | why the overflow clear is excepted |
| DedupeRules.RepeatWaits | internal/chat/dedupe.go:42-67 | in every run without the clear, a repeat within ten minutes of a send that runs or succeeded sends nothing and waits for that one |
| DedupeRules.OthersSend | internal/chat/dedupe.go:48-57 | in every run, without such a send and with nobody about to forget a failed one, it is sent |
| DedupeRules.ForgottenIsUnknown | internal/chat/dedupe.go:73-79 | a failed attempt takes its own entry off the map, and no other |
| DedupeRules.NobodyWaitsInVain | internal/chat/dedupe.go:59-67 | in every run, whoever waits has an entry that is done or that somebody is sending |
| DedupeRules.SenderReturns | internal/chat/dedupe.go:52-57 | a send that succeeded reports its own id; one that failed is about to be forgotten |
| DedupeRules.WaiterReturns | internal/chat/dedupe.go:59-70 | a waiter gets the id of the send it waited for, or may ask again |
| DedupeRules.GcRules | internal/chat/dedupe.go:83-99 | once a minute finished sends of more than ten minutes ago are dropped, and nothing else |
| HubRuns.NeverAfterClose | internal/ws/hub.go:164-262 | in every run each Send channel is closed at most once and never written afterwards |
| HubRuns.ListedIffOpen | internal/ws/hub.go:226-248 | a client that was registered is listed if and only if its channel is open |
| HubRuns.ListsAreBounded | internal/ws/hub.go:168-180 | nobody has more than five connections, one twice, or an empty list |
| HubRuns.PresenceAlternates | internal/ws/hub.go:123-129 | per user, online and offline decisions alternate in lock order, starting with online, and the last one is right |
| HubRuns.EveryDeviceHears | internal/ws/hub.go:250-267 | each connection of a target gets an event as often as its user is named, up to a full buffer; those without room for all of them, and no others, are up for removal; nobody else gets it |
| HubRules.DisconnectCutsOff | internal/ws/hub.go:210-224 | after any run, Disconnect leaves the user without a list and with every channel closed, offline by the last decision if there ever was one, and nobody else touched |
| HubRules.StaysCutOff | internal/ws/hub.go:210-224 | and nothing is ever written to those channels again |
| HubRules.RemoveTakesOne | internal/ws/hub.go:228-248 | after any run, remove closes one channel and takes that client, and nobody else, off its list |
| HubRules.RegisterRules | internal/ws/hub.go:166-180 | after any run, a new client is at the end of its user's list, open and empty; the oldest of six is closed; nobody else is touched |
| HubRules.ReportsAreTrue | internal/ws/hub.go:172-191 | in every run, the call manager is told that a connection is gone exactly when its channel was closed, and that it came once, when it registered |
| HubRules.QueuesAreInOrder | internal/ws/hub.go:250-262 | in every run, a queue holds the latest of what was written to its connection, in order |
| HubRules.SendToConnRules | internal/ws/hub.go:77-102 | after any run, the one connection gets the event if it is still listed for the user and has room; nobody else does, and the answer says which |
| HubRules.SendExceptRules | internal/ws/hub.go:105-120 | after any run, every connection of the user but one gets the event once if it has room, and nobody else does |
| HubServer.Server.Register | internal/ws/hub.go:166-180 | registering, evicting the oldest of six; the channel it closes is open |
| HubServer.Server.Remove | internal/ws/hub.go:228-248 | removing one client if it is still listed |
| HubServer.Server.Disconnect | internal/ws/hub.go:210-224 | the loop over the user's connections; what it achieves is said by `HubRules.DisconnectCutsOff` |
| HubServer.Server.Send | internal/ws/hub.go:250-262 | the two loops, and the clients to remove |
| HubServer.Server.SendToConn | internal/ws/hub.go:77-102 | one connection; true exactly if the event was written |
| HubServer.Server.SendExcept | internal/ws/hub.go:105-120 | all connections of a user but one |
| SlidingWindow.Limiter.Allow | internal/platform/ratelimit/redis.go:43-61 | the script and the reply over the Redis counters |
| SlidingWindow.AtMostTwice | internal/platform/ratelimit/redis.go:15-30 | any stretch of a window's length admits at most twice the limit, and fewer than limit + 1 + limit * e / W when it starts at offset e |
| SlidingWindow.TwiceIsReached | internal/platform/ratelimit/redis.go:15-30 | that bound is reached |
| SlidingWindow.CountersAreExact | internal/platform/ratelimit/redis.go:28 | key expiry never loses an admission that a decision needs |
| SlidingWindow.DecidesByHistory | internal/platform/ratelimit/redis.go:15-61 | in every run, a request is admitted if and only if what was really admitted in this window and the faded one before is below the limit; what is left and how long to wait follow from that |
| SlidingWindow.StepKeepsInv | internal/platform/ratelimit/redis.go:15-30 | each admission leaves cur * W + prev * (W - e) below (limit + 1) * W |
| SlidingWindow.RemainingMayBeMinusOne | internal/platform/ratelimit/redis.go:29 | the reported remainder is the fraction left, rounded down, and is -1 exactly in the last fraction |
| SlidingWindow.MinusOneIsReached | internal/platform/ratelimit/redis.go:29 | a run in which an admitted request is told -1 |
| SlidingWindow.RefusedAgain | internal/platform/ratelimit/redis.go:54-58 | a run in which a refused caller is refused again at the time told |
| SlidingWindow.RetryAfterMayFail | internal/platform/ratelimit/redis.go:54-58 | retrying at the time told succeeds if and only if the refused caller's window had room |
| FixedWindow.Memory.Allow | internal/platform/ratelimit/memory.go:28-50 | scan, reset, decide |
| FixedWindow.ScansAreInvisible | internal/platform/ratelimit/memory.go:32-39 | the pruning scan and other keys never change what counts for a key |
| FixedWindow.KeysAreIndependent | internal/platform/ratelimit/memory.go:28-50 | every decision is the one the key alone would get |
| FixedWindow.DecidesByRank | internal/platform/ratelimit/memory.go:28-50 | in every run, a request is let in if and only if it is among the first `limit` of its key's window, counted by the times of the key's requests alone; it is told how many are left, or how long the window lasts |
| FixedWindow.AtMostTwice | internal/platform/ratelimit/memory.go:40-49 | any stretch of one period, both ends included, admits at most twice the limit |
| FixedWindow.RefusedAgain | internal/platform/ratelimit/memory.go:46 | a run refused again after exactly the wait told |
| FixedWindow.RetryMustBeLater | internal/platform/ratelimit/memory.go:46 | a retry succeeds if and only if it comes later than told |
| MessageSearch.RunSearch | internal/search/search.go:123-183 | fetch, drop suspended, sort, cut |
| MessageSearch.PageIsNextExactly | internal/search/search.go:123-183 | for both sources together, a page is exactly the next matches of the merged, filtered list if and only if what each source left behind comes after a page |
| MessageSearch.MergeTake | internal/search/search.go:172-182 | the first n of what two lists show are the first n of all they hold, if and only if the rest of each comes after n |
| MessageSearch.PageIsNext | internal/search/search.go:124-125 | in particular when no fetch has more than five hidden rows |
| MessageSearch.FiveAreMadeUpFor | internal/search/search.go:124-125 | five, in figures |
| MessageSearch.WhatIsNext | internal/database/chat.sql.go:805-816 | the next matches are newest first and strictly older than the cursor, by senders who are gone or not suspended, and one is left out only behind a full page |
| MessageSearch.OneSourceExactly | internal/search/search.go:124-125 | for one source, if and only if the fetch has at most five hidden rows or nothing visible is left behind |
| MessagePaging.PagesAreCompleteExactly | internal/search/search.go:237-241 | following the cursor gives the first m * limit matches after m pages, for every m up to n, if and only if the fetches cover every page on the way |
| MessagePaging.PagesAreComplete | internal/search/search.go:123-183 | so it does when no fetch made on the way has more than five hidden rows |
| MessagePaging.EverythingIsShown | internal/search/search.go:237-241 | with pages of any length, the walk to the end shows every match exactly once, in order, if and only if nothing is lost on the way |
| MessagePaging.OneSourceNeverSkips | internal/search/search.go:123-183 | the pages of one source are always the start of what there is |
| MessagePaging.OneSourceStopsOnlyWhenStuck | internal/search/search.go:237-241 | and show all of it, if and only if no fetch on the way is all hidden with something visible behind |
| MessagePaging.LostForGood | internal/search/search.go:124 | two sources, a full page, and a match that no page ever shows |
| MessagePaging.ShortPage | internal/search/search.go:124 | one source, a page short of a match that remains |
| MessageSearch.FilterMerge | internal/database/chat.sql.go:805-816 | filtering and the cursor commute with merging the sources |
| MessageSearch.Sort | internal/search/search.go:173-178 | newest first, nothing lost |
| LikePattern.EscapedMeansContains | internal/search/search.go:84-86 | the escaped pattern matches exactly the texts that contain the query |
| LikePattern.EscapedMeansPrefix | internal/database/groups.sql.go:417-424 | and, without the leading %, exactly those that start with it |
| LikePattern.EscapedIsComplete | internal/groups/service.go:181-183 | the escaped pattern is never an error |
| LikePattern.EscapingIsNeeded | internal/search/search.go:84-86 | without escaping, the pattern means "contains" if and only if the query has no special character |

## Left out

- Restarts: `Recover`, `InterruptOpenCalls`, `PurgeOldCalls` and rows whose user was deleted are not modelled; every theorem about calls is about one server run.
- DailyCap.DailyCapHolds: assumes that each log write happens with its critical section; `CallLog.LateAnswerIsLost` shows why. Calls that end by an earlier reading than their answer count as negative talk (`CallLog.EarlierEndCountsNegative`), so their share of the bound grows with their number.
- StartLimit.ElevenTakeAMinute: a clear, at more than 100,000 starters, forgets what was started before it.
- CallRuns.RelayBudget: counts what is handed to the hub; delivery by the hub is `HubRuns`.
- Calls: JSON dispatch and payload parsing, push notifications and telemetry; stopping a timer changes nothing here, because its callback may already have started; a duration in a message is the time talked, not cut to milliseconds.
- Identifiers made by `uuid.New` and `uuid.NewV7` never repeat and are not guessed before they are sent out.
- CacheRuns.Freshness: assumes that the version key does not expire while a reader holds a version; the state records when it did.
- Cache: errors of Redis are modelled for readers (a failed read or put); an `Invalidate` that fails is a write that never finishes.
- QueueRuns.NothingIsLost: streams are not trimmed (MAXLEN), and no topic is named "delayed" or "dead", whose stream keys the queue uses itself.
- Friends: what the three queries of `internal/friends/repo.go` return is an abstract snapshot of three parts; filling its lists and the relationship updates are not modelled.
- Queue: new entries may be read in any order and reclaimed at any time, a superset of what Redis does; the in-process `Memory` queue, which drops retries of a full topic, is represented by its `Backoff` only.
- JobQueue.Redis.MoveDue: equal due times may be cut off in any order at the limit of a hundred; Redis orders them by their bytes.
- Groups: descriptions, invite codes, avatars and previews; names are counted in characters after trimming; database errors inside a transaction, which undo it; group edits by the admin pages, which take no row lock.
- GroupRuns.DeleteUserKeeps: the whole deletion is one serial transaction, although groups the user does not lead are changed without their row lock.
- GroupAuth.GrantIsBacked: the nil id, which no account has, is excepted.
- DedupeRuns.SendsAreApart: excepts runs in which the map outgrew its bound and was cleared.
- Dedupe: a key stands for the pair of sender and client message id.
- Hub: event policies, marshalling, and the goroutines that deliver presence and call notifications after the decision; the writer of a connection is one step that empties its buffer.
- SlidingWindow.AtMostTwice: division is exact, where the script uses floating point; all servers share one clock that does not run backwards, in milliseconds.
- FixedWindow.AtMostTwice: the clock does not run backwards and the period is not negative.
- MessagePaging.EverythingIsShown: the database, the group memberships and the suspensions do not change between pages; validation of parameters and the default limit are left out.
- LikePattern.EscapedMeansContains: lower-casing and collation happen before and are not modelled.
- Liveness, such as a reconnect within the grace period always saving a call: started callbacks and goroutine scheduling make it false.
