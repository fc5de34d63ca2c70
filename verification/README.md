# Engram: a verified model

Engram keeps memories for coding agents: a server with an HTTP dashboard, gRPC for the daemons on
developers' machines, and a Postgres store. This project models the parts of it whose promises are
about whole runs, not single calls, and proves those promises (or, where the code does not keep one,
shows a run that breaks it and proves when it is kept).

`dafny verify dfyconfig.toml` checks everything. The modules, one a file but for the shared vocabulary
in `Common.dfy`:

- `ProjectTable`, `RemovalProtocol`, `SyncConsistency`, `RemovalTimes`, `StampedProjects`, `Heartbeats`: removal of
  projects. The handlers as methods of a class; then the same statements as atomic steps of a system in
  which any number of deletes, heartbeats, registrations and reaper runs are in flight; then what every
  run guarantees, and under exactly which conditions a heartbeat and an answer mean what one expects.
- `EventFanout`, `EmissionOrder`, `DedupCache`, `Bridge`: how a removal reaches a daemon. The in-process bus with its
  lossy streams; the daemon's bounded duplicate filter; both delivery paths together.
- `TokenBucket`, `ClientBuckets`, `SplitRequests`, `StaleUses`, `LoginWindow`, `LoginRuns`: three rate limiters, and what
  becomes of two of them when their calls interleave.
- `Keycards`: API tokens, issued, revoked, validated.
- `DeletionWatcher`: the debounce of the file watcher.
- `LogRing`, `LogFilter`: the in-memory log, its subscribers and its filters.
- `Pagination`, `Transcript`, `TranscriptContents`, `ContextBudget`: the over-fetching list, the transcript
  parser and the assembly of an injected context under a token budget.
- `HealthWindow`: lock-free counters.
- `Tags`, `Lifetimes`, `PathContext`, `Versions`, `VersionParts`: small algebra: tag hierarchies, inherited
  context, version order.

Objects the program updates in place are classes with the same fields. Where goroutines or servers
interleave without a lock around the whole operation (removal, the event bus, the health counters, the
limiters) the model is a state and a step function, and lemmas quantify over every sequence of steps; a
step that is not enabled changes nothing. Fields called history record what happened and influence
nothing.

## Assumptions

- Each SQL statement is atomic. A row's `life` numbers the insertions of its id.
- Registration inserts with `ON CONFLICT DO NOTHING` and no heartbeat
  (internal/db/gorm/project_store.go:23-36); the reaper deletes rows soft-deleted before a cutoff
  (internal/worker/reaper/reaper.go:102-118). `removed_at` is therefore set once in the life of a row,
  not of an id.
- Clocks do not run backwards. Seconds are reals in the limiters, where Go uses `float64`.
- The password hash matches exactly the string it was made from; random draws and generated ids do not
  repeat.
- Events of the file watcher arrive in time order, timers run out on time, and an event at the very
  instant of a deadline is handled first.

## Where the code does less than its documentation says, or than a reader might expect

- internal/handlers/serverevents/bridge.go:58-59 promises exactly one `OnProjectRemoved` per project and
  removal. A second removal is suppressed unless 256 other ids came in between
  (`Bridge.SecondRemovalFires`), and a daemon that tracks more than 256 removed projects is told about
  all of them on every heartbeat (`Bridge.RepeatedAnswer`).
- internal/worker/projectevents/bus.go:80-92 calls the handlers outside the lock, so nothing orders two
  emissions that overlap: a client can be sent the later one first (`EmissionOrder.SentOutOfOrder`). Order
  is kept exactly if at most one emission is in delivery at a time (`EmissionOrder.InOrderIff`).
- internal/grpcserver/sync_project_state.go:28-35 numbers the heartbeat UPDATE after the stale read; the
  code stamps first, and the model follows the code.
- A heartbeat moves backwards exactly if UPDATEs come out of the order in which their calls began
  (`Heartbeats.NeverLoweredIff`, with a run). An id is in both lists of one answer exactly if it was
  inserted during the call and left alone (`Heartbeats.InBothListsIff`, with two runs). A project is
  reported unknown by the very call that stamped it only if calls take over a day, or over half the
  reaper's retention (`StampedProjects.StampedIsNeverUnknownIff`); the retention can be set to one day.
- A version such as "6.0.0-rc.1" is newer than itself, so a build of it offers itself as an update
  (`Versions.NewerThanItselfIff`).
- A rotation of the health window that is slow to store its zeros wipes requests of the new window
  (`HealthWindow.LateClearForgets`; `HealthWindow.WindowIsSinceSwapIff` says when the count is right).
- internal/worker/auth_handlers.go:306 promises five attempts a minute, but the clock is read before the
  lock is taken. Six permitted attempts span at least a minute less the longest wait, and no more can be
  said (`LoginRuns.NeverSixWithinIff`).
- internal/worker/ratelimit.go:172-174 looks a limiter up and uses it under two locks; a sweep in between
  grants a client one request too many (`SplitRequests.SweptInBetween`), and never more than one for each
  use of a limiter that has been swept (`StaleUses.WithinStaleIff`).
- A revocation whose UPDATE fails is answered "not found", not with an internal error, while the keycard
  stays live: internal/db/gorm/token_store.go:72-75 looks at the affected rows first
  (`Keycards.NotFoundIsTrueIff`).
- After `Watcher.Stop` a callback can still run if the closed channel wins the select
  (`DeletionWatcher.StopRace`, `DeletionWatcher.PendingAtTheStop`).
- A token budget of 1 to 4 leaves the guidance section without a limit (`ContextBudget.WithinBudgetIff`).
  The rules' ids and the memories' ids are compared though they come from two tables
  (`ContextBudget.RuleIsInjectedIff`).
- An offset and limit whose sum does not fit 64 bits make `hasMore` true of an empty page
  (`Pagination.GetObservations`).

## Model

| member | source | states |
|---|---|---|
| ProjectTable.ProjectServer.DeleteProject | internal/worker/handlers_projects.go:27-66 | a delete marks a live row and emits one event; a missing, malformed, absent or already deleted id changes nothing and emits nothing |
| ProjectTable.ProjectServer.SyncProjectState | internal/grpcserver/sync_project_state.go:36-115 | the whole of one undisturbed call: the two argument errors, the removed list, the stamped rows, the stale list read after stamping |
| ProjectTable.ClassifyReported | internal/grpcserver/sync_project_state.go:70-84 | the removed list is the reported ids, in order and with repetitions, that are absent or soft-deleted, whatever order the rows come in |
| ProjectTable.IndexRows | internal/grpcserver/sync_project_state.go:62-75 | the index holds every reported id that the table has, with its removed_at |
| ProjectTable.IsValidName | internal/worker/middleware.go:613-634 | accepts exactly the names without "..", of allowed characters, of at most 500 |
| ProjectTable.ValidNameIff | internal/worker/middleware.go:613-634 | a name is valid if and only if it has at most 500 characters, each one of those listed, and no two dots in a row |
| RemovalProtocol.EachRowSteps | internal/grpcserver/sync_project_state.go:88-94 | one statement of any call changes a row only as the statements allow: removed_at is never cleared or overwritten, a row comes to life only by a registration, and is soft-deleted only by a delete |
| RemovalProtocol.MarksMatchTableStep | internal/worker/handlers_projects.go:42-56 | every step keeps: each life of an id but a live current one has been soft-deleted, exactly once |
| RemovalProtocol.EachMarkOnceStep | internal/worker/handlers_projects.go:53-66 | every step keeps: a soft-delete is held by the one call that made it or is at one place of the event log, never both |
| SyncConsistency.ExactlyOneEventPerRemoval | internal/worker/handlers_projects.go:42-66 | in every interleaving, a row life has an event in the log if and only if it was soft-deleted and its call is past Emit; and then exactly one |
| RemovalTimes.EventCarriesRemovedAt | internal/worker/handlers_projects.go:40-63 | in every run, the event of a soft-delete carries the removed_at this life of the row was given, at whatever point of the run one looks, however late it is emitted and even if the row is gone; and that is an instant at which a delete of the project began |
| SyncConsistency.MarkedAtMostOnce | internal/worker/handlers_projects.go:42-56 | in every interleaving, an UPDATE that marks a row marks one that was never marked |
| SyncConsistency.RemovedAtNeverChanges | internal/worker/handlers_projects.go:44-44 | in every continuation, removed_at of a row keeps its value for as long as the row lives |
| SyncConsistency.RowEndsForGood | internal/worker/reaper/reaper.go:102-118 | a life that ended in soft-delete or purge never comes back, even if its id is registered again |
| SyncConsistency.AnswersAreSound | internal/grpcserver/sync_project_state.go:62-84 | in every interleaving, removed is exactly the reported ids absent or soft-deleted at the call's first statement; one that is also unknown was registered during the call (Heartbeats.InBothListsIff has the exact condition) |
| SyncConsistency.SeenStays | internal/grpcserver/sync_project_state.go:78-84 | the removed list of a call is fixed at its first statement |
| SyncConsistency.NoDeleteNoRemoval | internal/worker/handlers_projects.go:44-44 | a project that no delete is about stays live, or stays without soft-delete, whatever is done to others |
| StampedProjects.StampedIsNeverUnknownIff | internal/grpcserver/sync_project_state.go:86-109 | over all runs in which calls take at most d and the reaper waits r: no answer lists as unknown a project its own UPDATE stamped, if and only if d is at most 24 h and r at least 2 d |
| StampedProjects.SlowSyncRun | internal/grpcserver/sync_project_state.go:51-109 | for any longer d, a run in which a held-up call makes another report unknown what that one stamped |
| StampedProjects.SlowDeleteRun | internal/worker/reaper/reaper.go:102-118 | for any shorter r, a run in which a held-up delete is purged and its id registered anew under a waiting heartbeat |
| Heartbeats.HeartbeatIsTheLastStampers | internal/grpcserver/sync_project_state.go:88-94 | in every run a row has the starting time of the call that last stamped this life of it, or no heartbeat if none has |
| Heartbeats.LowersIff | internal/grpcserver/sync_project_state.go:88-94 | a step lowers a heartbeat if and only if it is the UPDATE of a call that stamps the row and the call that stamped it last began later |
| Heartbeats.NeverLoweredIff | internal/grpcserver/sync_project_state.go:51-94 | over a whole run no heartbeat of a project moves backwards if and only if the UPDATEs that stamp each life of it come in the order their calls began |
| Heartbeats.InBothListsIff | internal/grpcserver/sync_project_state.go:62-109 | with no call over 24 h, an id is in both lists of an answer if and only if it is in removed and was inserted since the first statement and since then neither stamped nor soft-deleted |
| Heartbeats.InBothListsInGeneral | internal/grpcserver/sync_project_state.go:62-109 | in any run at all, if and only if it is in removed, live at the last statement, and last stamped in this life by no call or by one that began over 24 h before |
| SyncConsistency.UndisturbedDelete | internal/worker/handlers_projects.go:40-66 | the three steps of a delete with nothing in between do what the handler does: mark a live row and log its event, or, for another id or an improper one, nothing |
| SyncConsistency.UndisturbedSync | internal/grpcserver/sync_project_state.go:51-115 | the statements of a heartbeat with nothing in between give the answer and the table of the handler, also if the UPDATE or the last query fails |
| Heartbeats.ReRegisteredIsRemovedAndUnknown | internal/grpcserver/sync_project_state.go:62-109 | a run with short calls in which an id unknown at the first statement is registered and ends in both lists |
| Heartbeats.PurgedIsRemovedAndUnknown | internal/grpcserver/sync_project_state.go:62-109 | the same for an id known and deleted at the first statement, then purged and registered anew |
| Heartbeats.SlowSyncTurnsTheHeartbeatBack | internal/grpcserver/sync_project_state.go:51-94 | a run in which a call held up over a day does move a heartbeat backwards |
| DedupCache.Lru.Mark | internal/handlers/serverevents/dedup.go:47-72 | marking is a step of the move-to-front list with eviction from the back; the answer is whether the key was in it |
| DedupCache.CacheIsHeadOfRecency | internal/handlers/serverevents/dedup.go:47-72 | after any history the cache is the newest keys of a list that never forgets, as many as fit |
| DedupCache.RecencyOfConcat | internal/handlers/serverevents/dedup.go:53-71 | the recency list of a longer history: newer keys first, then the older ones not seen since |
| DedupCache.RememberedIffRecent | internal/handlers/serverevents/dedup.go:16-25 | a key is still known if and only if fewer different keys than the capacity were seen since |
| Bridge.Bridge.Arrive | internal/handlers/serverevents/bridge.go:283-305 | one id through guard, cache and fan-out: what is fanned out and what the cache has been asked |
| Bridge.Bridge.HandleEvent | internal/handlers/serverevents/bridge.go:278-305 | a stream event that is not a removal does nothing |
| Bridge.Bridge.ApplyRemoved | internal/handlers/serverevents/bridge.go:358-376 | a heartbeat answer fans out FiredBy its ids, in order |
| Bridge.ArrivalsAreFired | internal/handlers/serverevents/bridge.go:54-59 | at least once: an id that arrives was asked about before or is fanned out |
| Bridge.FewKeysFireOnce | internal/handlers/serverevents/bridge.go:58-59 | exactly once, as long as no more different ids arrive than the cache holds |
| Bridge.SecondRemovalFires | internal/handlers/serverevents/dedup.go:20-24 | a second removal of a re-registered project is fanned out exactly when at least 256 other ids came between |
| Bridge.RepeatedAnswer | internal/handlers/serverevents/bridge.go:358-376 | a repeated answer fans out nothing if it fits the cache, and otherwise all of it every time |
| Bridge.FiredIff | internal/handlers/serverevents/bridge.go:358-376 | of distinct ids that arrive, exactly those are fanned out that were never asked about, or since whose last time at least 256 different ids were, counting those ahead in the answer |
| Bridge.OneSyncConverges | internal/grpcserver/sync_project_state.go:49-84 | with any stream events between the ids of an answer, and whatever was lost: a reported id comes with the answer if and only if it was not live at that call's read; it has then been fanned out at some time, and is now if and only if the cache does not remember it at one of its arrivals (if nothing comes between distinct ids: does not remember it counting the ids ahead of it); one live at the read is live now if no delete of it followed |
| EventFanout.NothingLostSilently | internal/grpcserver/project_events.go:41-54 | in every interleaving, for a stream that subscribed at some step and did not unsubscribe: each emission from that step on is accepted, dropped or still to be offered to it, exactly one of the three |
| EventFanout.SubscribedIff | internal/worker/projectevents/bus.go:54-74 | after any run the subscribers are exactly the streams that subscribed and have not unsubscribed since, whatever others did; a stream answers for the emissions after it subscribed |
| EventFanout.DropsOnlyWhenFull | internal/grpcserver/project_events.go:46-53 | a drop happens only with 64 events waiting |
| EventFanout.SentInOrder | internal/grpcserver/project_events.go:56-73 | what a client receives has no repetition, growing event ids, and emission order except between overlapping emissions |
| EmissionOrder.InOrderIff | internal/worker/projectevents/bus.go:80-92 | over all runs with at most n emissions in delivery at once, every client is sent events in the order of their emission if and only if n is at most 1 |
| EmissionOrder.UnheardHoldsFrom | internal/worker/projectevents/bus.go:80-92 | while at most one emission is in delivery, the later of two overlapping ones found no subscriber |
| EmissionOrder.SentOutOfOrder | internal/worker/projectevents/bus.go:80-92 | a run with two in delivery after which the client has been sent the later one first |
| EventFanout.EmitReachesEverySubscriber | internal/worker/projectevents/bus.go:77-92 | after any run, an uninterrupted Emit offers its event once to every stream that subscribed and has not unsubscribed, and to no other |
| EventFanout.HandlersRunInOrder | internal/worker/projectevents/bus.go:77-92 | Emit calls the handlers in the order of subscription: after n calls exactly the first n have been offered the event |
| EventFanout.UnsubscribedHearsNothingNew | internal/worker/projectevents/bus.go:62-74 | after any run, a stream that has unsubscribed is never offered an event emitted later, whatever follows |
| EventFanout.EventIdsAreUnique | internal/grpcserver/project_events.go:78-79 | no event id is used twice, across all streams |
| EventFanout.StreamStep | internal/worker/projectevents/bus.go:54-92 | every step of the bus or of a stream keeps the account of one stream's emissions |
| EventFanout.IdPairStep | internal/grpcserver/project_events.go:78-79 | every step keeps the ids handed to two streams apart |
| TokenBucket.RateLimiter.Allow | internal/worker/ratelimit.go:49-72 | the answer, the refilled and capped level after it, and requests and rejected counted |
| TokenBucket.LevelIsLeastRoom | internal/worker/ratelimit.go:55-67 | the level is the least room left by any window of requests ending now |
| TokenBucket.AllowedIffEveryWindowHasRoom | internal/worker/ratelimit.go:49-72 | a request is allowed if and only if no window ending with it would exceed burst + rate * time |
| TokenBucket.WindowBound | internal/worker/ratelimit.go:36-37 | the requests allowed among i..j never exceed burst + rate * (t_j - t_i) |
| TokenBucket.LevelStaysInRange | internal/worker/ratelimit.go:58-66 | the level stays between 0 and burst |
| TokenBucket.SpacedCallerIsNeverRejected | internal/worker/ratelimit.go:49-72 | a caller that waits 1/rate between requests is never rejected |
| ClientBuckets.PerClientRateLimiter.CleanupLocked | internal/worker/ratelimit.go:148-169 | exactly the limiters idle for more than ten minutes go, and no other is touched |
| ClientBuckets.EvictedIff | internal/worker/ratelimit.go:127-168 | a limiter goes if and only if the last cleanup was over five minutes ago and its own last use over ten |
| ClientBuckets.PerClientRateLimiter.GetLimiter | internal/worker/ratelimit.go:127-143 | the limiter of the client, found or newly full, after a cleanup when one is due |
| ClientBuckets.PerClientRateLimiter.Allow | internal/worker/ratelimit.go:172-174 | answer and new table of one request; no other client's limiter changes |
| ClientBuckets.LaterIsFuller | internal/worker/ratelimit.go:55-61 | a bucket only fills while idle, and is full again after ten minutes if burst <= rate * 600 s |
| ClientBuckets.AgreementStep | internal/worker/ratelimit.go:127-174 | every request keeps the evicting table and the never-evicted private bucket of every client in agreement |
| ClientBuckets.EvictionIsUnobservable | internal/worker/ratelimit.go:127-174 | for every run, every client gets the answers of a bucket of its own that is never evicted |
| ClientBuckets.SlowRefillIsObservable | internal/worker/ratelimit.go:148-169 | with a slower refill there is a run in which eviction changes an answer |
| ClientBuckets.UnobservableIff | internal/worker/ratelimit.go:115-174 | for whole requests, eviction is unobservable over all runs if and only if burst <= rate * 600 s |
| SplitRequests.UnobservableIff | internal/worker/ratelimit.go:127-174 | with look-up and use apart by at most d, and everything interleaved: no answer ever differs from an unswept bucket's if and only if burst <= 0, or d is 0 and burst <= rate * 600 s |
| SplitRequests.InvHoldsFrom | internal/worker/ratelimit.go:127-174 | while limiters are used when looked up, every interleaving keeps map, limiters and private buckets in agreement |
| SplitRequests.SweptInBetween | internal/worker/ratelimit.go:127-174 | for every d above 0 there is a run in which a limiter is swept between its look-up and its use, and its client is granted one too many |
| StaleUses.WithinStaleIff | internal/worker/ratelimit.go:127-174 | over all runs, however long requests wait: the number of a client's requests granted differs from what its own bucket would grant by at most its uses of swept limiters, if and only if burst <= rate * 600 s |
| StaleUses.NearStep | internal/worker/ratelimit.go:49-174 | every step keeps that bound, also for the answers still to come from what both buckets hold |
| StaleUses.LookupKeepsLevels | internal/worker/ratelimit.go:127-168 | a look-up with its sweep changes no client's level: what it evicts and what it makes are full |
| LoginWindow.AttemptLog.Compact | internal/worker/auth_handlers.go:323-329 | the in-place filter keeps exactly the attempts after the cutoff, in order: no unread one is overwritten |
| LoginWindow.AttemptLog.Check | internal/worker/auth_handlers.go:323-337 | the log after an attempt: the recent ones, and the new one when permitted |
| LoginWindow.LoginAttempts.CheckRateLimit | internal/worker/auth_handlers.go:308-338 | answer and new log of one address; every other address keeps its log |
| LoginRuns.DelaysAreBounded | internal/worker/auth_handlers.go:309-317 | if no check waits longer than d between its reading and the lock, no reading takes effect more than d out of order |
| LoginRuns.LogForgetsNothing | internal/worker/auth_handlers.go:323-329 | after any cutoff not before a minute ahead of each reading, the log has the same entries as the list of all permitted |
| LoginRuns.RefusedIffFiveCount | internal/worker/auth_handlers.go:306-338 | however long the waits: a check is refused if and only if five count, that is were permitted at its address after a minute before its own reading, with no check since that read a clock a minute or more past theirs |
| LoginRuns.LogIs | internal/worker/auth_handlers.go:323-337 | however long the waits: the log holds exactly the permitted readings that none since was a minute or more past, each once |
| LoginRuns.RefusedIffFiveInTheLastMinute | internal/worker/auth_handlers.go:306-338 | for waits under a minute: a check is refused if and only if five were permitted in the minute before the latest reading that has taken effect, its own included |
| LoginRuns.PermittedFindsFewerThanFive | internal/worker/auth_handlers.go:323-337 | however long the waits: a permitted check finds fewer than five permitted in the minute less d before it |
| LoginRuns.CountsTheLastMinuteIff | internal/worker/auth_handlers.go:309-337 | over all such runs every check counts just the minute before its own reading if and only if d is 0 |
| LoginRuns.SixSpanAtLeast | internal/worker/auth_handlers.go:306-337 | in every run six permitted checks of one address span at least a minute less d |
| LoginRuns.NeverSixWithinIff | internal/worker/auth_handlers.go:306-337 | that bound is exact: no six lie closer than a span over all such runs if and only if it is at most 60 - d; so five a minute hold if and only if d is 0 |
| LoginRuns.HeldUpRun | internal/worker/auth_handlers.go:309-317 | for every d up to a minute, the run that attains it: a check that waits d is permitted as the seventh |
| LoginRuns.PermittedInOrder | internal/worker/auth_handlers.go:336-337 | the permitted readings are recorded in order but for d |
| Keycards.TokenStore.HandleCreateToken | internal/worker/handlers_auth.go:327-395 | the answer and the new table of an issuance, for every way out: caller, store not ready, body, name, scope, random source, hash, INSERT |
| Keycards.CreatedIff | internal/worker/handlers_auth.go:327-395 | a keycard is handed out if and only if a session admin asks for one with a new name and an allowed scope and nothing fails; it then has the scope asked for, or read-write if none was, and the token drawn |
| Keycards.RefusalSays | internal/worker/handlers_auth.go:327-388 | what each refusal of an issuance means |
| Keycards.NamesStayDifferent | internal/worker/handlers_auth.go:376-380 | no two keycards ever have the same name |
| Keycards.TokenStore.HandleRevokeToken | internal/worker/handlers_auth.go:408-441 | the answer and the new table of a revocation, for every way out: caller, store not ready, id, UPDATE and its commit |
| Keycards.RevocationSays | internal/worker/handlers_auth.go:408-441 | what each answer to a revocation means; only a successful one changes anything |
| Keycards.NotFoundIsTrueIff | internal/db/gorm/token_store.go:63-76 | an answer of not found means that no keycard has the id if and only if the UPDATE did not fail: the count of affected rows is asked before the error |
| Keycards.TokenStore.FindByPrefix | internal/db/gorm/token_store.go:52-61 | exactly the live rows of a prefix |
| Keycards.Validator.Validate | internal/auth/validator.go:117-189 | every verdict, in whatever order the candidates come |
| Keycards.WellShapedIff | internal/auth/validator.go:131-142 | the shape gate: engram_ and 32 hexadecimal digits |
| Keycards.VerdictWithoutStore | internal/auth/validator.go:144-156 | without an answer of the store no keycard is admitted, and a failing store is told from an absent keycard |
| Keycards.IssuedTokensAreWellShaped | internal/worker/handlers_auth.go:361-368 | every token issuance can produce passes the shape gate |
| Keycards.Hex | internal/worker/handlers_auth.go:367-367 | two hexadecimal digits for each byte, the high half first |
| Keycards.HexIsInjective | internal/worker/handlers_auth.go:367-367 | different draws give different tokens |
| Keycards.InvHoldsFrom | internal/worker/handlers_auth.go:327-441 | in every run the rows are exactly what was issued: hash, prefix and whitelisted scope, no draw or id twice |
| Keycards.AdmittedIffIssuedAndLive | internal/auth/validator.go:117-189 | in every run a bearer is admitted as keycard (id, scope) if and only if that very token was handed out so and no call has revoked it since; the bad-scope and bad-hash branches are unreachable |
| Keycards.RevokedIff | internal/db/gorm/token_store.go:63-77 | in every run a keycard is revoked if and only if, after it was issued, a session admin's call named its id and got through to the store; revoking one leaves the others alone |
| Keycards.OperatorKeyIsAdmin | internal/auth/validator.go:117-135 | the operator key is admitted as admin whatever the store says |
| Keycards.RevocationIsPermanent | internal/worker/handlers_auth.go:428-436 | a revoked keycard is never live again |
| Keycards.RevokedForGood | internal/worker/handlers_auth.go:397-441 | from a revocation that is answered so, the bearer is refused in every continuation |
| Keycards.BearersCannotIssueOrRevoke | internal/worker/handlers_auth.go:294-311 | runs of calls made with validated bearers alone never change the store |
| DeletionWatcher.WatchLoop | internal/watcher/watcher.go:95-167 | a callback runs 100 ms after a removal of the file or its directory if and only if up to then neither was removed again nor the file alone created (and before the stop, if stopped by the context); they are more than a debounce apart |
| DeletionWatcher.EventStep | internal/watcher/watcher.go:118-158 | the timer and the callbacks so far always account for exactly the deadlines due so far |
| DeletionWatcher.CallbacksAreDetermined | internal/watcher/watcher.go:125-140 | the loop's contract leaves a single result |
| DeletionWatcher.StopRace | internal/watcher/watcher.go:103-112 | every callback of a loop that has ended runs before the stop if and only if its context ended it or no deadline is left by then; at most one ever runs later |
| DeletionWatcher.PendingAtTheStop | internal/watcher/watcher.go:103-112 | with one removal pending, closing the channel leaves its callback to run and the context does not |
| DeletionWatcher.BackInTime | internal/watcher/watcher.go:145-157 | a file created again in time is not reported; if only its directory is, it is reported |
| LogRing.RingBuffer.constructor | internal/logbuf/ring.go:36-44 | an empty buffer of the requested or the default capacity |
| LogRing.RingBuffer.Store | internal/logbuf/ring.go:95-100 | the cells hold the last entries of the log, one more now, across every wrap |
| LogRing.RingBuffer.Notify | internal/logbuf/ring.go:102-109 | every subscriber is offered the entry once; no closed channel is sent to |
| LogRing.RingBuffer.Write | internal/logbuf/ring.go:48-113 | a line extends the log and is offered to every subscriber; a blank line does nothing |
| LogRing.RingBuffer.Subscribe | internal/logbuf/ring.go:150-155 | a new empty channel at the end of the subscribers |
| LogRing.RingBuffer.Unsubscribe | internal/logbuf/ring.go:157-167 | takes out and closes that channel, once |
| LogRing.RingBuffer.Receive | internal/worker/handlers_logs.go:77-82 | a consumer takes the oldest buffered entry |
| LogRing.RingBuffer.Snapshot | internal/logbuf/ring.go:118-146 | the last n of the filtered last min(capacity, writes) entries of the unbounded log, in write order |
| LogRing.RingBuffer.Scan | internal/logbuf/ring.go:126-140 | reading the cells from the oldest, with wrap-around, filters the stored entries in order |
| LogRing.FiltersCompose | internal/logbuf/ring.go:133-138 | what a higher level shows of what a lower one shows is what it shows of everything, with the query applied at either time |
| LogRing.QueryIgnoresCase | internal/logbuf/ring.go:193-203 | queries that differ in case only show the same entries |
| LogFilter.ShownAtLevel | internal/logbuf/ring.go:172-191 | an entry of a known level is shown at that level and those below and at none above; unknown levels hold nothing back |
| LogFilter.ShownByQuery | internal/logbuf/ring.go:193-203 | a query shows exactly the entries that have it in their message or raw line, but for case |
| LogFilter.ShownByBoth | internal/logbuf/ring.go:133-138 | both filters together show what each shows alone |
| LogFilter.ShownOneMore | internal/logbuf/ring.go:130-140 | a filtered list has the entries that are shown, in their order |
| LogFilter.TailIs | internal/logbuf/ring.go:141-144 | the last n, or everything if n is not positive or too large |
| LogRing.SubscriberSeesASubsequence | internal/logbuf/ring.go:102-109 | in every run, consumed then buffered entries are log entries of the subscription in write order; a live subscriber lacks an entry only if it was dropped |
| LogRing.MissedOnlyWhenFull | internal/logbuf/ring.go:104-108 | an entry is dropped only for a subscriber with 64 waiting |
| LogRing.UnsubscribeTakesOutOne | internal/logbuf/ring.go:157-167 | unsubscribing removes that channel and no other, keeps the order, is idempotent, and nothing is offered to it afterwards |
| LogRing.HubInvHoldsFrom | internal/logbuf/ring.go:95-170 | in every run the subscribers are the open channels, each once, and every channel's account holds |
| LogRing.Follow | internal/worker/handlers_logs.go:77-96 | a following client is sent the filter of what it receives |
| LogRing.FollowerSeesEverything | internal/worker/handlers_logs.go:70-96 | a client that never overflows has been shown exactly the filter of the new entries it took, and the rest is waiting |
| Pagination.FilterRows | internal/worker/handlers_data.go:104-109 | the rows that match, in order |
| Pagination.EachFilterTestsItsField | internal/worker/handlers_data.go:43-70 | each filter tests its own field, those that are off test nothing, and a row has to pass them all |
| Pagination.MatchesOneMore | internal/worker/handlers_data.go:104-109 | the filtered list has the rows that match, in their order |
| Pagination.Overfetch | internal/worker/handlers_data.go:99-129 | ends with the whole filtered list, or with a front of it longer than asked for |
| Pagination.GetObservations | internal/worker/handlers_data.go:81-154 | the page is the slice of the filtered list as if everything had been fetched; hasMore if and only if there is more or the sum overflows; when total is exact and when a lower bound |
| Pagination.CollectPages | internal/worker/handlers_data.go:81-154 | calling the handler for page after page while hasMore yields the filtered list, nothing lost or repeated; a page panics if and only if the last one would end beyond the largest slice capacity |
| Transcript.CountTools | internal/sessions/parser.go:95-100 | the counts are the multiplicities of the named tools |
| Transcript.SessionParser.FlushExchange | internal/sessions/parser.go:85-106 | writes out the segment being gathered, if there is one |
| Transcript.SessionParser.TakeRecord | internal/sessions/parser.go:138-155 | a user record opens a segment, an assistant record joins the last one, others change nothing |
| Transcript.ParseSession | internal/sessions/parser.go:74-166 | the result is what the declarative segmentation describes; an error exactly for an overlong line |
| Transcript.SegmentsConcat | internal/sessions/parser.go:138-156 | a file that starts with a user record adds its own segments and changes none before |
| Transcript.SegmentsSnoc | internal/sessions/parser.go:146-152 | an assistant record goes to the last segment only |
| Transcript.OneExchangePerUser | internal/sessions/parser.go:139-145 | one segment for each user record, in order |
| TranscriptContents.ExchangeHolds | internal/sessions/parser.go:85-155 | the exchange of a user record has its text and time, the text of the assistant records up to the next user record in order, and their tools each once |
| TranscriptContents.CountsAreOfAllTools | internal/sessions/parser.go:95-102 | as many exchanges as user records; the counts are those of all tools used after the first user record |
| TranscriptContents.SessionFieldsAre | internal/sessions/parser.go:120-136 | session, path and branch come from the first record that has them, the times from the first and the last time |
| TranscriptContents.FieldsOfNone | internal/sessions/parser.go:120-136 | what no record has is left empty |
| TranscriptContents.JoinConcat | internal/sessions/parser.go:90-91 | texts are joined in order with nothing between |
| Transcript.JunkChangesNothing | internal/sessions/parser.go:109-118 | a blank or malformed line anywhere makes no difference |
| Transcript.FilesConcatenate | internal/sessions/parser.go:74-166 | parsing two files in a row concatenates the exchanges and adds the counts |
| Sequences.FirstOccurrencesAre | internal/sessions/parser.go:309-320 | deduplication keeps the members, each once, in the order of first occurrence |
| HealthWindow.LedgerAct | internal/mcp/health.go:29-53 | each atomic step keeps the totals equal to the calls counted, and window plus wiped counts equal to the calls finished |
| HealthWindow.InvHoldsFrom | internal/mcp/health.go:29-53 | in every interleaving of any number of calls this holds, and the window start only moves forward |
| HealthWindow.WindowWithinTotals | internal/mcp/health.go:29-40 | in every interleaving the totals are exact, window plus wiped counts are the finished calls, and the window never exceeds the totals |
| HealthWindow.RotationsAreFiveMinutesApart | internal/mcp/health.go:42-52 | between any two states there is at most one rotation for every 300 s |
| HealthWindow.AloneItTumbles | internal/mcp/health.go:29-52 | the atomic operations of one call, run without interleaving, are one step of a tumbling five-minute window |
| HealthWindow.WindowIsSinceClear | internal/mcp/health.go:29-50 | in every run the window counts exactly the calls that finished since the last store of 0 |
| HealthWindow.WindowIsSinceSwapIff | internal/mcp/health.go:42-52 | it counts the calls finished since the last rotation if and only if none finished between its swap and the last store of 0, whichever came first |
| HealthWindow.WinsSwapIff | internal/mcp/health.go:42-46 | a rotation is exactly a step that moves the window start, to the winner's own reading, five minutes or more on |
| HealthWindow.LastSwapIs | internal/mcp/health.go:42-46 | the last rotation is where the window start was last moved |
| HealthWindow.LateClearForgets | internal/mcp/health.go:46-49 | a run in which a request begins after the swap, finishes in the new window and is wiped by the rotation's late store of 0 |
| ContextBudget.EstimateObsTokens | internal/worker/handlers_context.go:323-331 | characters over four, rounded up, with 50 of overhead |
| ContextBudget.LengthsAdd | internal/worker/handlers_context.go:325-327 | every fact counts, once |
| ContextBudget.CondensedCost | internal/worker/handlers_context.go:333-337 | title and subtitle with 30 of overhead, over four, rounded up |
| ContextBudget.EstimateTokensWithLimit | internal/worker/handlers_context.go:344-357 | the sum with full detail for the first fullCount only |
| ContextBudget.CondensingNeverCosts | internal/worker/handlers_context.go:323-357 | the compact estimate grows with fullCount and never exceeds the full one |
| ContextBudget.LimitSplits | internal/worker/handlers_context.go:344-357 | the first fullCount cost what they do in full, the others what they do condensed |
| ContextBudget.TrimToTokenBudget | internal/worker/handlers_context.go:359-375 | a front of the list, the number taken off and its exact cost; whole if the budget is not positive |
| ContextBudget.LongestThatFits | internal/worker/handlers_context.go:359-375 | a front fits the budget if and only if it is no longer than the one kept |
| ContextBudget.FilterByIDs | internal/worker/handlers_context.go:377-386 | those with, or without, an id in the set, in order |
| ContextBudget.AlwaysInject | internal/worker/handlers_context.go:871-891 | the rules whose id was neither shown nor used by an earlier rule |
| ContextBudget.NotShownConcat | internal/worker/handlers_context.go:871-891 | the rules come in their order; ids used in the first part of the list are used up for the rest |
| ContextBudget.ApplyBudget | internal/worker/handlers_context.go:954-985 | a fifth for guidance and the rest for main; recent and relevant cut to the ids of main |
| ContextBudget.Inject | internal/worker/handlers_context.go:783-985 | all sections of an injection, with and without a budget |
| ContextBudget.WithinBudgetIff | internal/worker/handlers_context.go:958-969 | guidance and main stay within a positive budget if and only if it is at least 5 or there is no guidance |
| ContextBudget.UnionCovers | internal/worker/handlers_context.go:932-943 | the union has every fresh and relevant id, none twice if the inputs have none twice |
| ContextBudget.SectionsWithinMain | internal/worker/handlers_context.go:971-978 | after a trim an observation is shown in recent or relevant if and only if its id is in main; it is itself there if ids identify |
| ContextBudget.RuleIsInjectedIff | internal/worker/handlers_context.go:863-891 | a rule past the first five is injected if and only if no recent observation has its id |
| ContextBudget.TrimmedGuidanceIsLost | internal/worker/handlers_context.go:863-969 | guidance taken off by the budget does not come back among the always-injected rules |
| Text.LowersLetters | internal/logbuf/ring.go:193-203 | only capital letters change, each to its small letter |
| Tags.ExpandTagHierarchy | internal/mcp/tools_credential.go:339-361 | the prefixes that end before a colon and the tag itself |
| Tags.ExpansionIs | internal/mcp/tools_credential.go:338-361 | exactly those, strictly longer each, ending in the tag |
| Tags.ExpansionOfPart | internal/mcp/tools_credential.go:338-361 | the expansion of a part is the front of the expansion of the tag |
| Tags.AddExpanded | internal/mcp/tools_memory.go:154-163 | the accumulated tags are the first occurrences of all expansions; seen is their set |
| Tags.UserTagsAre | internal/mcp/tools_memory.go:154-163 | distinct, just the expansions of the given tags, each after all its prefixes |
| Tags.ExpandingAgainIsIdentity | internal/mcp/tools_memory.go:154-163 | expanding and deduplicating the result again changes nothing |
| Tags.ComputeTTLDays | internal/mcp/tools_memory.go:268-307 | the stated lifetime, else the shortest of a verified memory's topics, else 30 or none |
| Tags.TTLIsUnique | internal/mcp/tools_memory.go:268-307 | the lifetime depends only on the set of tags |
| Lifetimes.LifetimeIs | internal/mcp/tools_memory.go:268-307 | the lifetime of a verified memory by its topics: 7, 30, 90 or 180 days, the shortest of them, 30 without any; none if it is not verified |
| Lifetimes.StatedLifetimeIs | internal/mcp/tools_memory.go:268-307 | a positive stated lifetime goes before that |
| Tags.StoredTags | internal/mcp/tools_memory.go:152-188 | user tags in front, type, scope and lifetime added once each; the lifetime is that of the classified tags |
| Tags.SubtopicsCount | internal/mcp/tools_memory.go:291-303 | a tag below a topic shortens the lifetime as the topic itself does |
| PathContext.ResolveContext | internal/collections/context.go:14-43 | the joined texts of the configured prefixes, shortest first, whatever order the map and the sort choose |
| PathContext.SortByLength | internal/collections/context.go:33-36 | some arrangement by length, equal lengths in any order |
| PathContext.ChainIsTheOnlyOrder | internal/collections/context.go:33-36 | any length-sorted list of the matches is the one chain of prefixes |
| PathContext.ChainIs | internal/collections/context.go:23-36 | the chain holds exactly the matches, each a proper prefix of the next |
| PathContext.ChildrenInherit | internal/collections/context.go:8-12 | what lies below a path inherits all of its context, first |
| PathContext.JoinConcat | internal/collections/context.go:40-46 | the texts are joined in order with an empty line between |
| Versions.IsNewerVersion | internal/update/update.go:595-624 | newer if and only if the number list is greater at the first difference or goes on longer |
| Versions.Trichotomy | internal/update/update.go:610-623 | of two number lists exactly one is newer, or they are the same; none is newer than itself |
| Versions.Transitive | internal/update/update.go:610-623 | newer is transitive |
| Versions.ExtensionIsNewer | internal/update/update.go:623-623 | a proper extension is newer than its front |
| Versions.WrittenVersions | internal/update/update.go:596-620 | dotted decimal versions read back as their numbers, with or without a v |
| VersionParts.AtoiReads | internal/update/update.go:596-620 | digits read as their number or the nearest that fits 64 bits, with a sign or without |
| VersionParts.AtoiElse | internal/update/update.go:596-620 | anything else reads as 0 |
| Versions.SuffixIsIgnoredIff | internal/update/update.go:600-605 | a suffix on the running version never changes an answer if and only if something not starting with a dash comes before it |
| Versions.NewerThanItselfIff | internal/update/update.go:595-624 | a version text is newer than itself if and only if its suffix has a dot, and the last number before the suffix is 0 and still reads as 0 with the suffix up to that dot |
| Versions.ReleaseCandidateIsNewerThanItself | internal/update/update.go:600-605 | 6.0.0-rc.1 is newer than itself |

## Left out

- Postgres: timestamp rounding to microseconds, query and connection errors other than those modelled, and a server that dies between the UPDATE and the emission of its event.
- EventFanout: the log handler's panics, the reason and metadata of events, a stream whose Send fails.
- Bridge: reconnecting, jitter and the dispatch to modules; fan-out is the list of ids handed to it, in the order in which they passed the cache, and the tracked set is the reported list.
- HealthWindow: the counters wrap at 64 bits in the program; HandleHealth is a call that counts nothing, and its three later loads are not modelled. RecordError does not imply RecordRequest.
- TokenBucket: `float64` rounding; Stats.
- ClientBuckets: its requests are whole; SplitRequests takes them apart, with one clock reading for each look-up.
- LoginWindow: the sync.Map that holds the logs and the per-address mutexes; LoginRuns models the wait for the mutex.
- Keycards: bcrypt's cost and its 72-byte limit, constant-time comparison, usage statistics, listing and the audit trail. Whether the store, the random source, the hash and each write succeed is a parameter; a write that fails is taken to have written nothing.
- DeletionWatcher: Start and Stop's running flag, re-adding watches, the half-second pause after a callback, file-system errors.
- LogRing: decoding of JSON lines, the Fields map, trimming; case folding is ASCII only.
- Pagination: the store is the first k of a fixed list; the real query widens its candidate pool with k and merges two tables, so its fronts need not be fronts of one list. Project checks and JSON are out.
- Pagination.GetObservations: for stores of at most 2^45 rows, the most a slice can hold; CollectPages is the client's loop, over an unchanging store.
- Transcript: decoding of a line into a record is abstract, as are the time format and the scanner's buffer; composite keys and project ids are out.
- ContextBudget: retrieval, staleness checks and stored versions, whose narratives are put in after trimming; string lengths are in bytes and their sum does not overflow.
- Tags: always-injected rules, scopes and validation before and after the tag list.
- Versions: downloads, signatures, replacement and restart.
- The issue lifecycle, the module registry, encryption at rest, redaction by regular expressions, configuration, migrations and the dashboard: plumbing, or semantics that live in libraries.
