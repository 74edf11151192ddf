# Verification of the BMT AI OS control plane

Dafny models of the stateful parts of BMT AI OS, and proofs of what they promise over whole runs:
the fleet command protocol, the package resolver, the rate limiters, the account and token store,
the context budget, the A/B update slots, hybrid memory search, provider-key selection, and the
health loop with its circuit breaker.

Verify everything with `dafny verify dfyconfig.toml`.

## How it is put together

Each module first gives the operations as functions on values, then classes and methods of the
source's own shape, proved to do to their fields what those functions say, then the theorems about
all runs of the functions.

| files | what they model |
|---|---|
| `FleetStore`, `FleetRegistry`, `FleetRuns` | the registry's in-memory cache beside its two SQLite tables; one function for each committed transaction; a process that may die between any two |
| `FleetAgent` | the device: bounded offline queue, flush loop, heartbeat loop |
| `FleetProtocol`, `FleetFate`, `FleetLoop` | server, devices and a network that loses requests and replies, composed into one state machine; when a command is past saving; the agent's loop as steps of that machine |
| `Dependencies`, `PackageRegistry` | the depth-first dependency search over any graph, size estimate, validation, build manifest |
| `RateLimit` | the deque limiter and the list-filter limiter, against a limiter that never forgets |
| `Lockout`, `Revocation`, `UserStore` | the two lockout tables, the pruned token blacklist, and the methods over them |
| `Common` | the option type, minimum and maximum |
| `ContextBudget` | splitting, estimating, truncating and trimming a conversation |
| `ConstantTime`, `ImageReadback`, `OtaSlots` | UTF-8 comparison, chunked hashing, read-back, and the slot state machine |
| `Ranking`, `HybridSearch` | BM25, normalisation, fusion, and a stable sort with de-duplication and a cut |
| `KeySelection` | the key table and least-used selection |
| `Restart` | circuit breaker, health checker, and the loop that restarts services |

## What holds, and what does not

* A command reaches a device's `execute_command` at most once, by the device it was queued for, and
  in commit order. Every committed command is in exactly one place.
* "Every committed command is executed or still pending" is false: the flush loop never reads the reply
  of its posts (`FlushLosesACommand`). The exact condition: a command can still be executed if and only if
  it is pending, or on its way to a heartbeat whose device still waits for it (`CanRunIff`). So the
  hand-out decides: the front of the queue survives it if and only if the request is a heartbeat, not a
  flush post, that its device has not given up on (`HandOutDecides`).
* Cache and tables agree after `enqueue_command` if and only if the id is new, the action is not
  null and the status is pending (`EnqueueKeepsGoodIff`).
* Resolving a resolved list gives it back if and only if no selected package, beyond what the required
  ones bring in, lies on a cycle through a dependency of its own (`IdempotentIffNoLooseCycle`).
* `build_context` keeps within the budget if and only if the system messages leave enough
  (`BuiltWithinBudgetIff`); five tokens are always enough, four are not.
* Pruning the blacklist changes an answer if and only if every revocation of the token was followed
  by a prune whose clock reading lies beyond the token's expiry, which needs a clock that was set back
  (`PruningChangesAnswerIff`).
* `apply_update` accepts any target slot and an unconfirmed state, and then the fallback can be lost: a second
  update to the standby slot that fails its read-back destroys it (`FailedUpdateDestroysFallback`).
  Whatever comes of the write, the fallback is kept if and only if the target is not the running slot and,
  while a fallback is pending, not the standby slot either (`EveryOutcomeKeepsFallbackIff`). A caller
  that writes only to the recorded standby slot of a confirmed state meets that, and never overwrites the
  image confirmed last (`GoodImageSurvives`).
* The documentation of `should_rollback` says the boot count has *exceeded* the limit; the code answers
  yes from the limit-th boot on, and the model follows the code.
* `hybrid_search` is documented to return `k` results; because the length test comes after the append it
  returns one for `k` below 1, and the model does too. It raises a division error on a corpus without a
  single word, which its documentation does not mention.
* A failing streak stops causing restarts for good only because `needs_restart` reads the clock soon after
  its check (`RestartsWhenAskedLate`).

## Model

| member | source | states |
|---|---|---|
| FleetStore.MatchesIffReloadIsIdentity | bmt_ai_os/fleet/registry.py:311-374 | the agreement invariant is the same as: reloading the tables now gives exactly the cached devices and queues |
| FleetStore.PendingMembers | bmt_ai_os/fleet/registry.py:311-374 | a loaded queue holds exactly the pending rows of its device |
| FleetStore.PendingDistinct | bmt_ai_os/fleet/registry.py:311-374 | the ids in a loaded queue are distinct, because ids are unique in the table |
| FleetStore.RemovalKeepsOrder | bmt_ai_os/fleet/registry.py:468-471 | deleting a device keeps all rows of the others, in their order |
| FleetStore.PendingAfterRemoval | bmt_ai_os/fleet/registry.py:468-471 | after a device's deletion its queue loads empty and every other queue loads unchanged |
| FleetStore.PendingAfterMark | bmt_ai_os/fleet/registry.py:461-466 | marking an id delivered drops it from the queue whose front it is and leaves a queue without it alone |
| FleetStore.MarkPopsFront | bmt_ai_os/fleet/registry.py:461-466 | marking the front command of one device shortens that device's queue by its front and no other |
| FleetStore.RegisterKeepsGood | bmt_ai_os/fleet/registry.py:477-523 | registering, also again, keeps cache and tables in agreement |
| FleetStore.HeartbeatUpsertKeepsGood | bmt_ai_os/fleet/registry.py:549-580 | agreement holds already between a heartbeat's two commits |
| FleetStore.HeartbeatPopKeepsGood | bmt_ai_os/fleet/registry.py:549-580 | handing out the front of a queue and marking its row keeps agreement for every device |
| FleetStore.EnqueueKeepsGoodIff | bmt_ai_os/fleet/registry.py:586-637 | agreement survives enqueueing exactly when the id is new, the action is there and the status is pending; a crash afterwards recovers to agreement either way |
| FleetStore.RemoveKeepsGood | bmt_ai_os/fleet/registry.py:692-714 | removing a device keeps agreement and unique ids |
| FleetRuns.CrashRecoversGood | bmt_ai_os/fleet/registry.py:549-580 | a crash at any commit point of any operation recovers to agreement |
| FleetRuns.ReloadGivesTheCache | bmt_ai_os/fleet/registry.py:477-714 | after any run of operations with acceptable commands and crashes anywhere, reloading gives exactly the cached devices and each queue in order |
| FleetRegistry.Registry.constructor | bmt_ai_os/fleet/registry.py:187-197 | a registry starts as the tables say |
| FleetRegistry.Registry.GroupPending | bmt_ai_os/fleet/registry.py:311-374 | grouping the pending rows by device gives each device its queue in table order |
| FleetRegistry.Registry.LoadFromDb | bmt_ai_os/fleet/registry.py:311-374 | the two passes of start-up build exactly the recovered cache |
| FleetRegistry.DeviceRecord.ApplyHeartbeat | bmt_ai_os/fleet/registry.py:82-95 | a heartbeat overwrites the reported columns and no others |
| FleetRegistry.Registry.Register | bmt_ai_os/fleet/registry.py:477-523 | a known device keeps its queue, telemetry, last sighting and registration time, a new one starts with none waiting; other devices and all command rows stay |
| FleetRegistry.Registry.Heartbeat | bmt_ai_os/fleet/registry.py:549-580 | the record takes exactly what is reported, an unknown device is created; the answer is the oldest waiting command, which leaves the queue and whose row becomes delivered, or the no-op |
| FleetRegistry.Registry.EnqueueCommand | bmt_ai_os/fleet/registry.py:586-637 | refuses unknown devices; otherwise the command, under a drawn id if it has none, goes to the end of the queue, and as a row to the end of the table unless its id is there |
| FleetRegistry.Registry.EnqueueAction | bmt_ai_os/fleet/registry.py:586-637 | the action-string form raises exactly for an unknown device, and otherwise queues a pending command under the given id or a drawn one |
| FleetRegistry.Registry.BroadcastCommand | bmt_ai_os/fleet/registry.py:639-659 | every registered device is targeted once, and its queue gains exactly one pending command at the end, with the given action and parameters under the id drawn for it; its row stays |
| FleetRegistry.Registry.DeployModel | bmt_ai_os/fleet/registry.py:661-690 | targets exactly the registered ones among the named devices, as often and in the order named, or all devices; each queue gains a pending pull-model command with the given parameters for every time it was targeted, each under its own id, and no other queue changes |
| FleetRegistry.Registry.Remove | bmt_ai_os/fleet/registry.py:692-714 | removes device, queue and rows, and says whether it was there |
| FleetRegistry.CopiesAt | bmt_ai_os/fleet/registry.py:639-690 | the copies meant for a device are one for each time it is named, in order, with the command's action and parameters, pending, each under its own id |
| FleetRegistry.RegisteredAt | bmt_ai_os/fleet/registry.py:661-690 | the known names of a list are kept as often as they occur and in order |
| FleetRegistry.FanOutKeepsGood | bmt_ai_os/fleet/registry.py:639-690 | sending copies under distinct new ids to any targets keeps agreement and adds no other id |
| FleetRegistry.FanOutQueuesCopies | bmt_ai_os/fleet/registry.py:639-690 | each registered device's queue grows by exactly the copies meant for it and nothing else of it changes |
| FleetAgent.Agent.EnqueueOffline | bmt_ai_os/fleet/agent.py:168-171 | a full queue gives up its oldest payload for the new one |
| FleetAgent.Agent.FlushOfflineQueue | bmt_ai_os/fleet/agent.py:173-201 | the flush ends, takes payloads only from the front and only after an accepted post, and stops at the first refused one |
| FleetAgent.Agent.ExecuteCommand | bmt_ai_os/fleet/agent.py:211-232 | the no-op is never executed |
| FleetAgent.Agent.Cycle | bmt_ai_os/fleet/agent.py:312-345 | one turn takes off the queue exactly the posts accepted before the first failure; then, when the heartbeat fails and can be rebuilt, the rebuilt payload is enqueued and waits last, otherwise nothing is; exactly a real command in the answer is executed |
| FleetAgent.Agent.Loop | bmt_ai_os/fleet/agent.py:312-345 | over any number of turns against any network, the payloads enqueued are those rebuilt after failed heartbeats and the commands executed those answered, each exactly once and in turn order |
| FleetAgent.AckedInEnqueueOrder | bmt_ai_os/fleet/agent.py:114-201 | the queue is the last payloads enqueued, at most 100; payloads are acknowledged in enqueue order; a dropped one had at least 100 enqueued after it |
| FleetAgent.QueuedAreRebuilt | bmt_ai_os/fleet/agent.py:312-345 | the payloads that turns enqueue are exactly the rebuilt ones of failed heartbeats, in turn order |
| FleetAgent.RanAreCommanded | bmt_ai_os/fleet/agent.py:312-345 | the commands that turns execute are exactly the real ones answered, in turn order |
| FleetProtocol.StepKeepsInv | bmt_ai_os/fleet/registry.py:549-637 | every step of server, network and devices keeps the protocol invariant |
| FleetProtocol.StepKeepsOrder | bmt_ai_os/fleet/registry.py:549-637 | every step keeps hand-out in commit order, with late requests and lost replies |
| FleetProtocol.RunKeepsInv | bmt_ai_os/fleet/agent.py:137-201 | the protocol invariant holds in every reachable state |
| FleetProtocol.ExecutedAtMostOnce | bmt_ai_os/fleet/agent.py:312-345 | in every run no id is executed twice, and only by the device it was queued for |
| FleetProtocol.ExecutedInCommitOrder | bmt_ai_os/fleet/agent.py:312-345 | in every run a device executes its commands in the order they were committed |
| FleetProtocol.CommandsConserved | bmt_ai_os/fleet/registry.py:549-637 | in every run each committed id is in exactly one of pending, on the wire, executed, lost, discarded, and tables and cache agree |
| FleetFate.CanRunIff | bmt_ai_os/fleet/agent.py:137-201 | in every reachable state a committed command is executed in some continuation exactly when it has been executed, is pending, or is on its way to a heartbeat whose device still waits |
| FleetFate.HandOutDecides | bmt_ai_os/fleet/registry.py:567-580 | the command about to be handed out can still be executed afterwards exactly when the request is a heartbeat, not a flush post, and its device has not given up on it |
| FleetFate.LetterDecides | bmt_ai_os/fleet/agent.py:137-191 | the same for a command already on its way, whether the server has replied or not |
| FleetFate.DoomedNeverRuns | bmt_ai_os/fleet/agent.py:188-191 | a command lost, discarded, or on its way to a flush post or to a device that gave up is executed in no continuation |
| FleetFate.PendingCanRun | bmt_ai_os/fleet/registry.py:549-580 | a pending command can still be executed from every reachable state, however long the queue before it |
| FleetLoop.LoopStaysInProtocol | bmt_ai_os/fleet/agent.py:312-345 | whatever happened so far, the next step of the agent's loop is one the protocol allows, so its runs are among those proved about |
| FleetLoop.TurnStepsAre | bmt_ai_os/fleet/agent.py:173-201 | as steps of the protocol a turn posts the queue from its front until a post fails or none is left, then its heartbeat unless that could not be built |
| FleetLoop.ReadingExecutesAlike | bmt_ai_os/fleet/agent.py:137-201 | when a reply is read the protocol counts as executed exactly what the loop executes: nothing for a flush post |
| FleetProtocol.NeverRemovedSplitsInThree | bmt_ai_os/fleet/registry.py:549-580 | for a never-removed device with nothing on the wire each committed id is pending, executed or lost, exactly one, and its row is delivered exactly when it was dispatched |
| FleetProtocol.UnreadReplyIsNeverExecuted | bmt_ai_os/fleet/agent.py:188-191 | once a flush post's reply, or an unreadable one, has been received, its command is never executed in any continuation and not pending again |
| FleetProtocol.FlushLosesACommand | bmt_ai_os/fleet/agent.py:173-201 | a run in which the only command ever committed is lost to a flush post |
| Dependencies.VisitExtends | bmt_ai_os/dlc/registry.py:159-170 | one search from a partial result adds each new package once, reachable ones only, dependencies before dependents unless on a cycle, and leaves nothing half-entered |
| Dependencies.VisitAllExtends | bmt_ai_os/dlc/registry.py:172-175 | the same for the searches over a list of roots |
| Dependencies.SiblingsInTurn | bmt_ai_os/dlc/registry.py:159-170 | the dependencies of a package are listed in their own order, unless one is already listed, still open or needed by an earlier one |
| Dependencies.VisitAllSplits | bmt_ai_os/dlc/registry.py:172-175 | a list of roots is searched from front to back |
| Dependencies.Resolution.Resolve | bmt_ai_os/dlc/registry.py:159-170 | the closure over its two captured variables ends on every graph and computes the search |
| PackageRegistry.ResolveDependencies | bmt_ai_os/dlc/registry.py:154-175 | the method resolves required packages first, then the requested ones |
| PackageRegistry.ResolvesExactlyTheReachable | bmt_ai_os/dlc/registry.py:154-175 | on every graph the result lists exactly the known ids reachable from required plus requested ones, each once |
| PackageRegistry.DependenciesComeFirst | bmt_ai_os/dlc/registry.py:154-175 | an entry stands after each known dependency that does not depend on it in turn |
| PackageRegistry.AcyclicIsOrdered | bmt_ai_os/dlc/registry.py:154-175 | on an acyclic graph the whole result is in dependency order |
| PackageRegistry.IdempotentIffOrdered | bmt_ai_os/dlc/registry.py:154-175 | resolving again changes nothing exactly when the part beyond the required packages is in dependency order |
| PackageRegistry.IdempotentIffNoLooseCycle | bmt_ai_os/dlc/registry.py:154-175 | resolving again changes nothing exactly when no package reached from the selection and not from the required ones has another known dependency that reaches it back |
| PackageRegistry.AcyclicIdempotent | bmt_ai_os/dlc/registry.py:154-175 | on an acyclic graph resolving again gives the identical list |
| PackageRegistry.SameSetAgain | bmt_ai_os/dlc/registry.py:154-175 | on every graph resolving again gives the same set |
| PackageRegistry.CycleReordersTheList | bmt_ai_os/dlc/registry.py:154-175 | two packages that need each other swap places each time |
| PackageRegistry.GetRequiredPackages | bmt_ai_os/dlc/registry.py:115-116 | the required packages in catalogue order |
| PackageRegistry.RequiredMembers | bmt_ai_os/dlc/registry.py:115-116 | they are exactly the packages marked required, each once |
| PackageRegistry.EstimateImageSizeMb | bmt_ai_os/dlc/registry.py:177-185 | 200 plus the sizes of the known listed ids; of a list without repetition, 200 plus each package once |
| PackageRegistry.EveryListingCounts | bmt_ai_os/dlc/registry.py:177-185 | a known id counts as often as it is listed, an unknown one not at all |
| PackageRegistry.EstimateCountsEachOnce | bmt_ai_os/dlc/registry.py:177-185 | for a resolved list that total counts each reachable package once |
| PackageRegistry.ValidatePackagesForTarget | bmt_ai_os/dlc/registry.py:187-225 | an unknown target or tier is the only warning; otherwise a warning is given exactly when it is due, and the size warning exactly when the estimate exceeds the tier |
| PackageRegistry.UnknownWarningsExact | bmt_ai_os/dlc/registry.py:187-225 | an unknown-package warning appears exactly for the unknown ids of the list |
| PackageRegistry.WarningsExact | bmt_ai_os/dlc/registry.py:187-225 | each package warning is given exactly when it is due |
| PackageRegistry.WarningsInOrder | bmt_ai_os/dlc/registry.py:187-225 | warnings come package by package: one more package adds its own at the end |
| PackageRegistry.OnePackageInOrder | bmt_ai_os/dlc/registry.py:187-225 | one package's warnings come once each, architecture before accelerator before memory |
| PackageRegistry.ResolvedHasNoUnknown | bmt_ai_os/dlc/registry.py:187-225 | validating a resolved list never reports an unknown package |
| PackageRegistry.ToBuildManifest | bmt_ai_os/dlc/profiles.py:37-75 | the packages are the resolved selection, the size 200 plus each one's once, ports and buildroot packages exactly those of the packages, images and install commands exactly the given ones in package order |
| PackageRegistry.SavedResolvedOrRaw | bmt_ai_os/dlc/cli.py:317-323 | a profile saved resolved and one saved raw agree on package set, ports, buildroot and size on every graph, and on the whole manifest on an acyclic one |
| RateLimit.SlidingWindowRateLimiter.DropExpired | bmt_ai_os/controller/rate_limit.py:68-76 | what eviction leaves of a bucket is exactly the recent part of the key's whole history |
| RateLimit.SlidingWindowRateLimiter.Check | bmt_ai_os/controller/rate_limit.py:54-93 | the verdict is that of counting over the never-evicted log; the bucket is left with at most `limit` entries, all inside the window, and other keys untouched; the reported reset is when the oldest counted request leaves the window |
| RateLimit.SlidingWindowRateLimiter.EvictExpired | bmt_ai_os/controller/rate_limit.py:95-104 | exactly the keys without an entry in the window are deleted, the others keep their buckets, and the link to the whole log is kept, so no later verdict changes |
| RateLimit.RateLimitBucket.IsAllowed | bmt_ai_os/controller/middleware.py:52-62 | the list-filter form gives the verdict of counting over the whole log as well |
| RateLimit.RecentTwice | bmt_ai_os/controller/middleware.py:52-62 | filtering an already filtered list by a later cutoff is filtering the whole log |
| RateLimit.EvictedIsRecent | bmt_ai_os/controller/rate_limit.py:68-76 | once its front is young, an evicted bucket is the recent part of the log |
| RateLimit.CountAtMost | bmt_ai_os/controller/rate_limit.py:54-93 | a log whose entries `limit` apart are a window apart has at most `limit` entries in any half-open window |
| RateLimit.WindowNeverExceeded | bmt_ai_os/controller/rate_limit.py:54-104 | in every run with a non-decreasing clock and evictions anywhere, each half-open window holds at most `limit` accepted requests of a key |
| RateLimit.DeniedUntilOldestExpires | bmt_ai_os/controller/rate_limit.py:65-93 | after a denial a later request is allowed exactly from the oldest counted request plus the window on |
| RateLimit.RetriesDeniedThenAllowed | bmt_ai_os/controller/rate_limit.py:65-93 | any number of retries before that moment are denied and the first one after is allowed |
| Lockout.RunKeepsMirrored | bmt_ai_os/controller/auth.py:262-403 | in every run of store operations the users table never holds a longer lock than login_attempts |
| Lockout.AttemptsTableDecides | bmt_ai_os/controller/auth.py:519-537 | in every run `is_account_locked` over both tables equals the answer from login_attempts alone |
| Lockout.QuietRunThrottles | bmt_ai_os/controller/auth.py:449-504 | without success or administrator, from the fifth failed check on consecutive ones are at least 900 s apart |
| Lockout.FailuresBounded | bmt_ai_os/controller/auth.py:539-566 | in any such run at most 5 + floor(T/900) credential checks on a name fail within any T seconds |
| Lockout.BurstAllFail | bmt_ai_os/controller/auth.py:539-566 | a schedule in which every attempt is a failed check: five at once, then one at the end of each lockout |
| Revocation.BlacklistIsSurvivors | bmt_ai_os/controller/auth.py:407-435 | the blacklist holds exactly the revocations with no later prune past their expiry, whatever the clock did |
| Revocation.PruningChangesAnswerIff | bmt_ai_os/controller/auth.py:602-624 | the answer differs from a never-pruned blacklist's exactly when the token is unexpired, revoked, and every revocation of it was pruned |
| Revocation.FreshIdsOneExpiry | bmt_ai_os/controller/auth.py:585-599 | when tokens are issued under fresh ids and only issued ones are revoked, an id has one expiry |
| Revocation.LifeOfAToken | bmt_ai_os/controller/auth.py:585-624 | a token never revoked is accepted for 24 hours from the whole second of its issue, and not after |
| Revocation.PruningIsInvisible | bmt_ai_os/controller/auth.py:431-435 | with no earlier reading later than the present one, pruning never changes an answer |
| Revocation.RevokedStaysRefused | bmt_ai_os/controller/auth.py:626-653 | a revoked token is refused at every later moment |
| Revocation.ClockSetBack | bmt_ai_os/controller/auth.py:431-435 | a concrete run with a clock set back in which a revoked token is accepted |
| UserStore.UserStore.CreateUser | bmt_ai_os/controller/auth.py:262-309 | a taken name is refused and nothing changes |
| UserStore.UserStore.DeleteUser | bmt_ai_os/controller/auth.py:323-330 | the user's login_attempts row stays |
| UserStore.UserStore.UpdateUserRole | bmt_ai_os/controller/auth.py:338-357 | changes the role of an existing user and nothing else |
| UserStore.UserStore.RevokeToken | bmt_ai_os/controller/auth.py:407-422 | the id is blacklisted with the token's expiry, other entries stay |
| UserStore.UserStore.LockAccount | bmt_ai_os/controller/auth.py:361-384 | both tables get the same lock end; a name without a user is recorded too |
| UserStore.UserStore.UnlockAccount | bmt_ai_os/controller/auth.py:386-403 | count and lock are cleared in both tables |
| UserStore.UserStore.RecordFailedLogin | bmt_ai_os/controller/auth.py:449-504 | a running lock is left alone; otherwise one failure more is counted in both tables, with a lock of 900 seconds from the fifth on |
| UserStore.UserStore.ResetFailedLogins | bmt_ai_os/controller/auth.py:506-517 | count and lock are cleared in both tables |
| UserStore.UserStore.IsAccountLocked | bmt_ai_os/controller/auth.py:519-537 | locked when either table holds a lock beyond now |
| UserStore.UserStore.Authenticate | bmt_ai_os/controller/auth.py:539-566 | rejected exactly when either table holds a lock beyond now, and then nothing changes; otherwise a success exactly when the user exists and the password checks, which zeroes count and lock; every other attempt counts one failure; other names stay |
| UserStore.UserStore.PruneRevokedTokens | bmt_ai_os/controller/auth.py:431-445 | removes exactly the expired entries and counts them |
| UserStore.UserStore.VerifyToken | bmt_ai_os/controller/auth.py:602-624 | accepted exactly when the token is unexpired and no unexpired blacklist entry has its id |
| ContextBudget.SplitOfJoin | bmt_ai_os/memory/context.py:213-269 | words joined with spaces, the last one marked, split into the same words, the last one marked |
| ContextBudget.SplitKeepsCharacters | bmt_ai_os/memory/context.py:37-48 | splitting drops white space and nothing else |
| ContextBudget.EveryMessageCosts | bmt_ai_os/memory/context.py:51-54 | every message adds its estimate and 4 tokens |
| ContextBudget.PartsOf | bmt_ai_os/memory/context.py:173-175 | a message goes to the part its role says, in order |
| ContextBudget.MaxWordsIs | bmt_ai_os/memory/context.py:231-242 | the allowed number of words is the greatest for which a third of the budget, at most 200 tokens, has room at 1.3 a word beside 4 more, one at the least |
| ContextBudget.RecentMessagesKept | bmt_ai_os/memory/context.py:213-269 | when the last `recentTurns` messages fit beside the summary of the others, the result is the system messages, that summary and all of them |
| ContextBudget.Trim | bmt_ai_os/memory/context.py:213-269 | dropping from the front leaves the longest suffix that fits |
| ContextBudget.Compact | bmt_ai_os/memory/context.py:213-269 | a summary of all but the last `recentTurns` messages, cut after the allowed number of words, then the longest suffix of those last messages that fits beside it |
| ContextBudget.BuildContext | bmt_ai_os/memory/context.py:148-211 | nothing for nothing; the system messages alone when they use up the budget; the input when it fits; otherwise the system messages, the summary and the longest fitting suffix |
| ContextBudget.BuiltWithinBudgetIff | bmt_ai_os/memory/context.py:148-211 | the result is within the budget exactly when the system messages leave something and everything, or the truncated summary, fits there |
| ContextBudget.SummaryWords | bmt_ai_os/memory/context.py:213-269 | the truncated summary has at most the allowed number of words |
| ContextBudget.SummaryFits | bmt_ai_os/memory/context.py:37-54 | for every summariser and rounding the summary message fits exactly from 5 tokens on, or when it is empty, or blank with 4 |
| ContextBudget.FiveTokensSuffice | bmt_ai_os/memory/context.py:148-269 | the total stays within the budget whenever the system messages leave at least 5 tokens |
| ContextBudget.FourTokensDoNot | bmt_ai_os/memory/context.py:148-269 | with 4 tokens left and an old message to summarise it always overflows |
| ContextBudget.SystemMessagesKept | bmt_ai_os/memory/context.py:148-211 | all system messages are kept in order, whatever the budget |
| ConstantTime.EncodeInjective | bmt_ai_os/ota/verify.py:74-81 | equal UTF-8 bytes mean equal characters |
| ConstantTime.DifferWithinBoth | bmt_ai_os/ota/verify.py:74-81 | two different characters differ in a byte that both encodings have |
| ConstantTime.TextsDifferWithinBoth | bmt_ai_os/ota/verify.py:74-81 | texts of equal character count that differ do so within the bytes that zipping compares |
| ConstantTime.CtEqual | bmt_ai_os/ota/engine.py:524-531 | true exactly when the strings are equal, though it compares character counts and zips bytes |
| ImageReadback.HashFile | bmt_ai_os/ota/engine.py:461-470 | the digest of exactly the whole file, for every chunk size and pattern of short reads |
| ImageReadback.HashBlockDevice | bmt_ai_os/ota/engine.py:473-489 | the digest of exactly the first `size` bytes, or of all of a shorter device |
| ImageReadback.WriteFileBacked | bmt_ai_os/ota/engine.py:388-416 | success exactly when the digests of image and slot agree, so for a collision-free hash the slot is the image; a mismatch removes the slot file if it can be removed |
| ImageReadback.WriteDd | bmt_ai_os/ota/engine.py:419-458 | success means, for a collision-free hash, that the device starts with the image |
| ImageReadback.VerifySha256 | bmt_ai_os/ota/verify.py:42-71 | true exactly when the file is readable and has the expected digest up to case |
| OtaSlots.StateManager.IncrementBootcount | bmt_ai_os/ota/state.py:125-131 | one boot more, and unconfirmed |
| OtaSlots.StateManager.Confirm | bmt_ai_os/ota/state.py:133-139 | confirmed with a fresh counter, slots as they were |
| OtaSlots.StateManager.SwitchSlots | bmt_ai_os/ota/state.py:141-157 | the slots trade places, unconfirmed, with a fresh counter |
| OtaSlots.Engine.ApplyUpdate | bmt_ai_os/ota/engine.py:245-325 | raises exactly for an existing image whose signature is refused, and then or without slot or image nothing changes; succeeds exactly when the copy succeeds and what is read back has the image's digest, switching the pointers; says what the target slot holds after every failure; the other slot stays |
| OtaSlots.Engine.RollbackUpdate | bmt_ai_os/ota/engine.py:541-586 | the slots trade places, confirmed or not, with a fresh counter |
| OtaSlots.Engine.ConfirmBoot | bmt_ai_os/ota/engine.py:328-350 | confirmed with a fresh counter, the slots' contents as they were |
| OtaSlots.Engine.ShouldRollbackNow | bmt_ai_os/ota/engine.py:589-611 | due exactly for an unconfirmed state whose counter has reached the limit |
| OtaSlots.EveryOutcomeKeepsFallbackIff | bmt_ai_os/ota/engine.py:295-325 | every outcome of an update, success or failure, keeps the fallback exactly when the target is not the running slot and, while a fallback is pending, not the standby slot |
| OtaSlots.FallbackIsKept | bmt_ai_os/ota/engine.py:295-325 | in every run whose updates meet that condition the slots stay distinct, and from an update until confirm or rollback the standby of an unconfirmed state holds the bytes that were current |
| OtaSlots.RollbackRestores | bmt_ai_os/ota/engine.py:541-586 | rolling an unconfirmed update back makes exactly those bytes current again |
| OtaSlots.ProperRunIsSparing | bmt_ai_os/ota/engine.py:295-325 | writing only to the recorded standby slot of a confirmed state meets the condition in every run |
| OtaSlots.FailedUpdateDestroysFallback | bmt_ai_os/ota/engine.py:388-416 | a run that writes only to the standby slot but not from a confirmed state, in which a failed read-back destroys the pending fallback |
| OtaSlots.EveryOutcomeKeepsBytesIff | bmt_ai_os/ota/engine.py:295-325 | every outcome of an update leaves given bytes in some slot exactly when a slot other than the target holds them |
| OtaSlots.GoodImageSurvives | bmt_ai_os/ota/engine.py:295-325 | under that rule, in every run the image confirmed last stays in one of the two slots, and in the current one while confirmed |
| OtaSlots.SecondUpdateLosesGoodImage | bmt_ai_os/ota/engine.py:295-325 | without the rule a second update on an unconfirmed one leaves the image confirmed last in no slot |
| OtaSlots.BootcountCounts | bmt_ai_os/ota/state.py:125-157 | in every run the counter is the number of boots since the last confirm, rollback or successful update |
| OtaSlots.RollbackDueExactly | bmt_ai_os/ota/engine.py:589-611 | rolling back is due exactly from the limit-th of those boots on |
| HybridSearch.BM25Index.constructor | bmt_ai_os/memory/search.py:58-74 | lengths, average and document frequencies are those of the tokenised corpus |
| HybridSearch.BuildDf | bmt_ai_os/memory/search.py:80-85 | the table counts documents holding a term, not occurrences |
| HybridSearch.DocFreqCounts | bmt_ai_os/memory/search.py:80-85 | a document frequency is the number of documents holding the term |
| HybridSearch.TotalLengthCounts | bmt_ai_os/memory/search.py:65-71 | the total length is the number of all tokens |
| HybridSearch.Bm25.RarityIs | bmt_ai_os/memory/search.py:87-90 | what the logarithm is taken of is (n + 1) / (df + 0.5) |
| HybridSearch.Bm25.IdfPositive | bmt_ai_os/memory/search.py:87-90 | the weight of every term is positive, so the floor at 0 never acts |
| HybridSearch.Bm25.RarerWeighsMore | bmt_ai_os/memory/search.py:87-90 | a term in fewer documents weighs no less |
| HybridSearch.BM25Index.Score | bmt_ai_os/memory/search.py:96-110 | the term-major loop equals each document's own sum; it fails exactly for a query with a word over documents without one |
| HybridSearch.Bm25.ScoreSign | bmt_ai_os/memory/search.py:96-110 | a document scores above 0 exactly when it holds a word of the query |
| HybridSearch.Bm25.TermScoreIs | bmt_ai_os/memory/search.py:101-108 | a term's score times (tf + k1 * length factor) is its weight times tf * (k1 + 1) |
| HybridSearch.LengthFactorIs | bmt_ai_os/memory/search.py:107-107 | the length factor is 1 at average length and grows by b for every average length more |
| HybridSearch.Bm25.DocScoreAdds | bmt_ai_os/memory/search.py:96-110 | scores add up over the query's terms, each as often as it occurs |
| HybridSearch.NormaliseKeepsOrder | bmt_ai_os/memory/search.py:118-125 | normalised scores lie in [0, 1] in the same order, reaching both ends and staying distinct unless all are equal |
| HybridSearch.NormaliseIs | bmt_ai_os/memory/search.py:118-125 | scores are stretched linearly; equal ones become 1 if positive and 0 if not |
| HybridSearch.BlendIs | bmt_ai_os/memory/search.py:261-261 | the blend lies the weight's part of the way from the vector score to the text score |
| HybridSearch.LastHitCounts | bmt_ai_os/memory/search.py:229-253 | of several vector hits with one text the last gives score and metadata |
| HybridSearch.NoHitScoresNothing | bmt_ai_os/memory/search.py:229-253 | a text without a vector hit has vector score 0 and no metadata |
| HybridSearch.Dedupe | bmt_ai_os/memory/search.py:272-282 | keeps the first entry of each text, max(k, 1) of them or all |
| Ranking.StableOrderSorts | bmt_ai_os/memory/search.py:275-275 | the sort's order contains every place and puts each ahead of all that follow, by key and then by place |
| Ranking.SortedFirstsAreTop | bmt_ai_os/memory/search.py:272-282 | sorting, keeping firsts and cutting yields the best distinct items, ties by first appearance, each ahead of every omitted one |
| Ranking.TopIsUnique | bmt_ai_os/memory/search.py:272-282 | only one list is that top |
| HybridSearch.HybridSearch | bmt_ai_os/memory/search.py:175-282 | a weight outside [0, 1] and a wordless corpus are the only failures, an empty corpus gives nothing, and otherwise the answer is the top of the corpus |
| HybridSearch.Search.RankIs | bmt_ai_os/memory/search.py:259-270 | an entry holds the text, its metadata, both normalised scores and their blend, each rounded |
| HybridSearch.Search.NormsAre | bmt_ai_os/memory/search.py:241-254 | the normalised scores are those of this query over this corpus with k1 = 1.5 and b = 0.75, and of the vector hits |
| HybridSearch.Search.AnswerIsTheBest | bmt_ai_os/memory/search.py:175-282 | min(max(k, 1), distinct texts) distinct texts of the corpus, scores in [0, 1] descending, none omitted scoring above one returned |
| HybridSearch.Search.AnswerIsUnique | bmt_ai_os/memory/search.py:175-282 | corpus, query, weight, hits and k determine the answer, ties included |
| HybridSearch.Search.MatchingTextsFirst | bmt_ai_os/memory/search.py:241-282 | by text alone, a text with a word of the query never ranks below one without |
| KeySelection.ProviderKeyStore.AddKey | bmt_ai_os/controller/provider_config_routes.py:338-402 | refuses exactly a key whose hash the provider has already |
| KeySelection.ProviderKeyStore.DeleteKey | bmt_ai_os/controller/provider_config_routes.py:441-454 | removes exactly a key of that provider |
| KeySelection.ProviderKeyStore.RecordUsage | bmt_ai_os/controller/provider_config_routes.py:475-483 | counts one use of the key and notes its time |
| KeySelection.ProviderKeyStore.ListKeys | bmt_ai_os/controller/provider_config_routes.py:425-433 | every key of the provider exactly once, by usage and then age |
| KeySelection.ProviderKeyStore.PickKey | bmt_ai_os/controller/provider_config_routes.py:456-473 | a least-used available key, and none exactly when none is available |
| KeySelection.ProviderKeyStore.RecordError | bmt_ai_os/controller/provider_config_routes.py:485-504 | with a cooldown the key is unavailable for the next 60 seconds; usage and cooldown otherwise stay |
| KeySelection.ProviderKeyStore.GetActiveKeyForProvider | bmt_ai_os/controller/provider_config_routes.py:506-515 | hands out the secret of a least-used available key and counts that use and no other; nothing changes when there is none |
| KeySelection.LeadNeverGrows | bmt_ai_os/controller/provider_config_routes.py:456-515 | in every run, of two keys that stay available neither gets further ahead than one use or than it was |
| KeySelection.UsageCountsSelections | bmt_ai_os/controller/provider_config_routes.py:475-483 | with all keys available throughout, usage counts from zero add up to the number of selections |
| KeySelection.FairShares | bmt_ai_os/controller/provider_config_routes.py:456-515 | n selections over m unused keys leave counts that add up to n, differ by at most 1, and are n/m rounded up or down |
| Restart.CircuitBreaker.RecordFailure | bmt_ai_os/controller/health.py:49-54 | counts, restarts the timer, and opens from the threshold on |
| Restart.CircuitBreaker.RecordSuccess | bmt_ai_os/controller/health.py:56-58 | closed, with nothing counted and the timer as it was |
| Restart.CircuitBreaker.AllowRestart | bmt_ai_os/controller/health.py:60-71 | refuses exactly when open with the reset timeout not yet over; otherwise an open breaker becomes half open |
| Restart.HealthChecker.CheckService | bmt_ai_os/controller/health.py:91-126 | only the checked service's counter and breaker change |
| Restart.HealthChecker.NeedsRestart | bmt_ai_os/controller/health.py:132-144 | below the restart limit the breaker is not even asked; from it on the breaker decides |
| Restart.Controller.RestartService | bmt_ai_os/controller/main.py:93-109 | only a restart that succeeds is counted and clears the failures, and of that service alone |
| Restart.Controller.HealthLoop | bmt_ai_os/controller/main.py:167-191 | over any number of rounds each service goes through its own run, unaffected by the others |
| Restart.RoundIs | bmt_ai_os/controller/main.py:174-187 | one round of one service: what is counted, when it is restarted, and the breaker's state, for every outcome of check, question and restart |
| Restart.RunKeepsSound | bmt_ai_os/controller/health.py:49-148 | in every run consecutive failures never exceed the breaker's count, and the breaker is closed exactly below its threshold |
| Restart.TimerRunsFromLastFailure | bmt_ai_os/controller/health.py:49-71 | in every run the open timer runs from the last failing check, whether or not it caused a restart |
| Restart.HealthyCheckRecovers | bmt_ai_os/controller/health.py:56-58 | a healthy check brings a service back to a fresh start |
| Restart.StreakRestarts | bmt_ai_os/controller/main.py:167-191 | when every restart succeeds, a failing streak asked about in time causes exactly min(n, threshold - 1) div max_restarts restarts, however long |
| Restart.StreakRestartsAtMost | bmt_ai_os/controller/main.py:167-191 | whether restarts succeed or fail, at most (threshold - 1) div max_restarts succeed in such a streak, and the breaker never goes half open |
| Restart.RestartsWhenAskedLate | bmt_ai_os/controller/health.py:132-144 | with the breaker open and the counter up, the next failing round restarts exactly when asked a reset timeout or more after its check |

## Assumptions

* Clock readings, drawn ids, the network, copies, checks, restarts and the vector search are inputs; nothing is
  assumed of them beyond what a theorem's hypotheses say. A limiter's readings do not decrease in the
  order in which its lock is granted (the source reads the clock before it takes the lock). Ids drawn for
  keys and fan-out copies are new, and the names of configured services are distinct.
* Password hashing, token signing, encryption, SHA-256, the summariser, the tokeniser, the logarithm and
  rounding are parameters. Collision freedom is a hypothesis where it is used. Of rounding 1.3 tokens
  a word only the nearest-integer bounds are used; of the logarithm only that it is positive above 1 and
  monotone; of rounding a score only that it is monotone and keeps 0 and 1.
* Scores are real numbers, not floats. Conditions on UTF-8 are those of section 3 of RFC 3629; a token is
  rejected on or after its expiry as in section 4.1.4 of RFC 7519.

## Left out

- FleetRegistry.Registry.Register: a re-registered device gets a new record that shares its command list with the old record object; the model copies the list, so a caller who kept the old record and appends to it is not captured.
- FleetRegistry.Registry.BroadcastCommand: a dictionary's insertion order is not modelled; the targets come in any order. The enqueues of one call follow each other directly, where the source releases the lock between them; that other operations in between keep cache and tables in agreement is FleetRuns.ReloadGivesTheCache, whose runs interleave single enqueues freely. Request parsing and its default values are left out, the parsed values are inputs.
- FleetRegistry.Registry.DeployModel: the same holds of its enqueues.
- PackageRegistry.ToBuildManifest: buildroot packages and ports are kept as sets, where the source lists them sorted.
- HybridSearch.HybridSearch: what the vector search returns is an input, with any scores; turning stored distances into scores is not modelled.
- KeySelection.ProviderKeyStore.PickKey: one clock reading serves all availability tests of a selection; the source reads the clock once or twice for each key, so a key may expire in the middle of one.
- KeySelection.ProviderKeyStore.GetActiveKeyForProvider: picking and recording are one step; another process may delete or use the key between the two.
- UserStore.UserStore.Authenticate: one clock reading for each call; the source reads the clock several times, and two processes may interleave between its transactions.
- OtaSlots.Engine.ApplyUpdate: the time of the last update is not kept.
- Restart.HealthChecker.CheckService: the bounded history of results is for display and is not kept.
- Restart.Controller.HealthLoop: a restart command that exceeds its own time limit raises and ends the source's loop; the model has only restarts that succeed or fail.
- U-Boot variables, which are written on a best-effort basis and read by boot scripts that are not part of this model.
- HTTP, WebSocket, SSH, terminal, docker and subprocess calls beyond their success or failure; the handlers behind `execute_command`.
- SQLite and JSON themselves: a transaction is atomic and opaque columns come back as written.
- Interleavings inside one locked section, other than a crash between two commits of the fleet registry.
- Online status, device listings and summaries; password complexity, roles and request middleware; image download and signature checking beyond a yes or no; preset and profile files.
- The provider router, the command line, dashboard, benchmarks, messaging, cloud providers, training jobs, conversations and plugins: formatting, thin wrappers or single-step facts.
