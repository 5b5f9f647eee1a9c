# Verification of the connection guards, backend pool, proxy authentication and sync server

This project models the stateful core of the networking library and proves what each part is for.

| file | models |
|---|---|
| `ActivityMap.dfy`, `SlowLoris.dfy` | the slow-loris guard's activity map: a map plus a lazily cleaned queue that behaves as a bounded LRU list |
| `Throttle.dfy` | the connection throttle, as sequential code and as interleaved atomic accesses of any number of callers |
| `RateLimiter.dfy`, `RateBudget.dfy`, `LimiterVerdicts.dfy` | token bucket, sliding window, FIFO-bounded map of per-IP buckets, and the three stages together; what eviction does to an address's budget; what the whole limiter answers |
| `SynGuard.dfy`, `SynLimits.dfy` | half-open accounting in five coupled collections, with eviction and compaction; when its limits, its refusals, its times and its rollback are exact |
| `GuardStack.dfy` | reserve with reverse rollback, sessions with at-most-once establish and close, any number interleaved, with a throttle among the guards |
| `StackProgress.dfy` | what each session of the stack can come to, and what its arrival or a failure settles |
| `ThrottledSessions.dfy` | the same stack with the throttle's atomic accesses interleaved |
| `HalfOpenSessions.dfy` | the same stack with a SYN guard in it, and what the guard's counts say about the sessions |
| `BackendPool.dfy` | the consistent-hash ring: rebuild, sort, partition point, wrap-around, add and remove |
| `Text.dfy`, `Base64.dfy`, `ProxyAuth.dfy`, `AuthStream.dfy` | the proxy's authentication: text operations on bytes, Base64 (section 4 of RFC 4648), the Basic credential header (section 2 of RFC 7617), the client's request and the server's incremental reading of it |
| `SyncServer.dfy` | the blocking server: accept loop, permit counter, job channel, workers, shutdown drain |
| `Net.dfy`, `Sets.dfy` | addresses, integer bounds, time, the compaction threshold shared by two guards, sizes of sets |

Each file follows one pattern. A state change of the Rust code is a function on values (`Step`,
`LimiterStep`, `Next`, ...). Where the Rust code updates fields in place, a class with the same fields has
methods with its loops and branches, and each method's `ensures` ties its new state to that function. What the code
promises is then proved about every run of the function. Concurrent parts (the throttle, the guard sessions,
the sync server) are step systems in which each atomic access, locked region, channel operation or guard call
is one step and any step that is enabled may come next.

Time is a real-valued clock reading passed to each operation, and a difference of two readings saturates at
zero. Token counts are exact reals. 32-bit accumulators, `u32` products and the wrapping sequence number are
written out as modular arithmetic. Hash functions and the text form of addresses are parameters.

## What turned out not to hold

* A refused throttle call does not always leave the state as it was: a per-IP limit of zero makes it store an
  entry with count zero (`Throttle.ZeroLimitLeavesTrace`). `Throttle.RefusalIsSilent` gives the exact condition, and
  `GuardStack.RejectedReserveInAnyRun` the condition for the whole stack. A release, in contrast, always undoes
  an admitted acquire: `Throttle.ReleaseAlwaysUndoesAcquire` and `Throttle.ReleaseRestoresReachable`.
* The throttle can refuse a connection although fewer than `max_connections_global` are open, because a claim
  that will be refused still counts until it is undone: `Throttle.TransientRefusalIsReachable` is such a
  run. `Throttle.RefusedIffClaimsFull` says exactly when a claim is refused, and that a refusal is spurious
  exactly when pending claims make up the difference. The sync server takes its permits in one thread, so
  there the same test is exact: `SyncServer.RefusedIffFull`.
* Evicting a tracked address makes the SYN guard forget half-open connections. `SynLimits.LimitsHoldIff` gives
  the exact condition on the configuration: the global limit bounds the half-open connections, the per-IP
  limit bounds those of each address, and no run ever evicts, each if and only if `max_half_open_per_ip` is zero
  or `max_half_open_global` is at most `max(1, max_tracked_ips)`. For every other configuration
  `SynLimits.InadequateIsUnbounded` builds runs that exceed any number (from one address as far as its ports go), and `SynGuard.EvictionBreaksTheLimit`
  is a smallest instance. Within a run the accounts stay exact if and only if nothing is evicted:
  `SynLimits.AlwaysExactIffEvictionFree`.
* When virtual nodes of two addresses share a hash, the unstable sort decides between them.
  `BackendPool.SelectionIsDeterminedIff`: for every pool, selection is the same for all keys under every order of
  ties if and only if no two *different* addresses share a node hash. The disruption results assume only
  that; repeated addresses, equal hashes within one address, empty rings and products that wrap are all allowed.
* The slow-loris guard does not time out every idle connection. `SlowLoris.TimeoutIsExact`: it forgets one,
  and then never refuses it, exactly from the first point at which `max_tracked_connections` others have been
  noted since and not closed.
* Evicting a per-IP bucket gives its address a fresh one. `RateBudget.SingleBudgetIff`: the budget of a single bucket
  bounds every address's calls in all runs of the map only if buckets hold nothing, since calls from other addresses
  can push it out at no cost to it. What does hold is one capacity per bucket the address has had:
  `RateBudget.AllowedWithinLives`.
* The limit of 64 KiB on proxy headers is not exact. Blocks of at most one byte more always get their answer and those
  of more than 512 bytes more never do, but for every size in between the answer depends on how the stream is split into
  reads: `AuthStream.AnySplitAnswers`, `AuthStream.OversizeIsRefused` and `AuthStream.OutcomeDependsOnSplit`.
* Credentials whose user name contains a colon never validate, not even with their own header:
  `ProxyAuth.EncodedHeaderValidates`, and end to end `AuthStream.AnySplitAuthenticates`.
* A rolled-back reservation is undone exactly only by the throttle. In the slow-loris list it is undone if and only if
  the address was untracked and the list not full (`ActivityMap.RemoveUndoesNoteIff`); the SYN guard's counts are
  restored if and only if the reservation evicted nothing (`SynLimits.CloseUndoesReserveIff`); and the rate
  limiter, which does nothing on close, has always changed once a call passed its window
  (`RateLimiter.AdmittedCallLeavesTrace`).

## Model

| member | source | states |
|---|---|---|
| Net.ElapsedIsExact | src/guard/slow_loris.rs:127-131 | elapsed time is the difference of two clock readings, and zero if the clock is behind |
| ActivityMap.RunRefinesLru | src/guard/slow_loris.rs:53-106 | after any notes and removes (fewer than 2^64), the queue filtered to live pairs is exactly the LRU list of capacity max; each tracked address has one live pair, the map never exceeds max, the queue never exceeds its threshold |
| ActivityMap.GetRefinesLru | src/guard/slow_loris.rs:97-99 | a lookup returns what the LRU list records |
| ActivityMap.StepRefines | src/guard/slow_loris.rs:53-106 | one note or remove on a consistent map is one step of the LRU list, and the queue stays within its threshold |
| ActivityMap.RecencyCoversEntries | src/guard/slow_loris.rs:31-36 | the list derived from the queue names exactly the tracked addresses, once each |
| ActivityMap.EvictionRemovesLeastRecent | src/guard/slow_loris.rs:78-85 | eviction removes exactly the head of the list and leaves its tail |
| ActivityMap.CompactionKeepsList | src/guard/slow_loris.rs:87-95 | compaction leaves the abstract list unchanged and one queue entry per tracked address |
| ActivityMap.InsertionMovesToBack | src/guard/slow_loris.rs:53-68 | recording an address moves it to the back of the list |
| ActivityMap.NotedIsTracked | src/guard/slow_loris.rs:69-71 | the address just noted is tracked, most recent, and never the one evicted |
| ActivityMap.StepCost | src/guard/slow_loris.rs:67-106 | per operation, 3 * pops + 4 * queue growth is at most 4 for a note and 0 for a remove; a remove compacts nothing |
| ActivityMap.AmortisedCost | src/guard/slow_loris.rs:67-106 | over any run, 3 * pops + 4 * queue length <= 4 * notes, and the queue stays within max(4 * max, 16) |
| ActivityMap.StackDistance | src/guard/slow_loris.rs:53-106 | whatever others are noted and removed later, an address is remembered if and only if at no point were max others noted and not removed since, and those are then exactly the addresses behind it |
| ActivityMap.UncrowdedThroughout | src/guard/slow_loris.rs:69-71 | the condition of that law in terms of every prefix of the run |
| ActivityMap.FewNotesLeaveRoom | src/guard/slow_loris.rs:69-71 | in particular fewer than max different addresses noted at all never push one out |
| ActivityMap.RemoveUndoesNoteIff | src/guard/slow_loris.rs:53-106 | removing an address just noted restores the list if and only if it was untracked and the list not full |
| SlowLoris.BoundedActivityMap.constructor | src/guard/slow_loris.rs:43-51 | an empty map with capacity at least one |
| SlowLoris.BoundedActivityMap.Note | src/guard/slow_loris.rs:53-76 | the mutable map takes exactly the step proved to refine the LRU list, with exactly the counted pops |
| SlowLoris.BoundedActivityMap.EvictOldestLive | src/guard/slow_loris.rs:78-85 | the pop loop drops the stale prefix and removes the first live entry |
| SlowLoris.BoundedActivityMap.CompactOrder | src/guard/slow_loris.rs:87-95 | the pop loop keeps exactly the live pairs in order, one pop per entry |
| SlowLoris.BoundedActivityMap.Get | src/guard/slow_loris.rs:97-99 | returns the time recorded for a tracked address, nothing otherwise |
| SlowLoris.BoundedActivityMap.Remove | src/guard/slow_loris.rs:101-106 | forgets the address, leaving its queue entries stale |
| SlowLoris.SlowLorisGuard.CheckIdle | src/guard/slow_loris.rs:127-139 | refuses exactly a tracked address idle for longer than timeout plus grace |
| SlowLoris.SlowLorisGuard.OnReserve | src/guard/slow_loris.rs:147-150 | a reservation notes the address |
| SlowLoris.SlowLorisGuard.OnActivity | src/guard/slow_loris.rs:152-156 | checks first, and notes only when the check passed |
| SlowLoris.SlowLorisGuard.OnPayload | src/guard/slow_loris.rs:158-161 | a payload notes the address without a check |
| SlowLoris.SlowLorisGuard.OnClose | src/guard/slow_loris.rs:163-165 | a close forgets the address |
| SlowLoris.TimeoutIsExact | src/guard/slow_loris.rs:53-139 | after its last note, and whatever others were noted and closed later, a connection is refused if and only if it is idle too long and at no point were max others noted and not yet closed |
| Throttle.Throttle.Acquire | src/guard/throttle.rs:44-68 | run alone: the verdict and whole new state of acquire, undo included |
| Throttle.Throttle.Release | src/guard/throttle.rs:70-80 | run alone: the whole new state of release, wrapping counter included |
| Throttle.ReleaseAlwaysUndoesAcquire | src/guard/throttle.rs:44-80 | after any sequence of calls, spurious releases included, release undoes an admitted acquire exactly |
| Throttle.CallsStoreNoZero | src/guard/throttle.rs:44-80 | under a positive per-IP limit no sequence of calls ever stores a count of zero |
| Throttle.ReleaseRestoresReachable | src/guard/throttle.rs:44-80 | at any point of any interleaving, an admitted acquire followed by its release restores the counters exactly |
| Throttle.ZeroLimitLeavesTrace | src/guard/throttle.rs:54-65 | a refusal under a per-IP limit of zero stores an entry that counts nothing |
| Throttle.RefusalIsSilent | src/guard/throttle.rs:44-68 | a refusal changes no count, and leaves the state unchanged if and only if it was global, or an entry existed, or the per-IP limit is positive |
| Throttle.StepKeepsInv | src/guard/throttle.rs:44-80 | each atomic access by any caller keeps the counters exact, the limits respected and the lock consistent |
| Throttle.EveryInterleavingIsExact | src/guard/throttle.rs:44-80 | in every interleaving the global counter equals the callers with a claim, slots never exceed the global limit, and each per-IP count is exact and within its limit |
| Throttle.NoUnderflow | src/guard/throttle.rs:47-80 | whenever a caller is about to decrement a counter, that counter is at least one |
| Throttle.QuietCountsAreOpenConnections | src/guard/throttle.rs:44-80 | with no call in progress the counters are exactly the open connections |
| Throttle.AloneAcquireIsSequential | src/guard/throttle.rs:44-68 | the atomic steps of one acquire, run without interruption, compute the sequential result |
| Throttle.AloneReleaseIsSequential | src/guard/throttle.rs:70-80 | likewise for release |
| Throttle.RefusedIffClaimsFull | src/guard/throttle.rs:44-52 | a claim is refused globally exactly when that many claims are counted; spuriously exactly when pending claims make up what open connections lack; with none pending exactly when that many connections are open |
| Throttle.CountingRefusesIff | src/guard/throttle.rs:54-65 | past the global check a caller is refused exactly when max_connections_per_ip connections of its address are counted, and admitted otherwise |
| Throttle.QuietVerdict | src/guard/throttle.rs:44-68 | with no call in progress acquire admits exactly while the open connections, and those of the address, are below their limits |
| Throttle.TransientRefusalIsReachable | src/guard/throttle.rs:44-66 | a concrete interleaving refuses a connection while only one of two allowed is open |
| RateLimiter.TokenBucket.constructor | src/guard/rate_limiter.rs:47-55 | a bucket starts full |
| RateLimiter.TokenBucket.Allow | src/guard/rate_limiter.rs:57-70 | refill capped at capacity, then one token spent if there is one |
| RateLimiter.TokensAreTightestWindow | src/guard/rate_limiter.rs:57-70 | after its refill, call j finds exactly the minimum over i <= j of capacity + refill * (t_j - t_i) - calls allowed among i..j-1 |
| RateLimiter.RefusedIffOverBudget | src/guard/rate_limiter.rs:57-70 | a call is refused if and only if admitting it would push some window of calls ending with it over capacity + refill * elapsed |
| RateLimiter.NoWindowOverBudget | src/guard/rate_limiter.rs:57-70 | no window of calls is ever over budget |
| RateLimiter.RateLimiterGuard.AllowGlobalWindow | src/guard/rate_limiter.rs:124-141 | pops expired timestamps, then refuses or records the call |
| RateLimiter.WindowIsRecentAdmissions | src/guard/rate_limiter.rs:124-141 | the deque always holds exactly the admitted timestamps still within the span, in ascending order |
| RateLimiter.RefusedIffWindowFull | src/guard/rate_limiter.rs:124-141 | a call is refused exactly when the limit of admitted timestamps lies within the span of it |
| RateLimiter.NoIntervalOverLimit | src/guard/rate_limiter.rs:124-141 | no closed interval of length at most the span contains more admitted calls than the limit |
| RateLimiter.BoundedIpMap.constructor | src/guard/rate_limiter.rs:79-86 | an empty map with room for at least one address |
| RateLimiter.BoundedIpMap.GetOrInsert | src/guard/rate_limiter.rs:88-100 | returns the address's own bucket, evicting the oldest address first when a new one finds the map full |
| RateLimiter.BoundedIpMap.Use | src/guard/rate_limiter.rs:158-173 | fetches or creates the bucket and spends from it, touching no other bucket object |
| RateLimiter.RunIsFifo | src/guard/rate_limiter.rs:88-100 | the queue always lists exactly the map's keys, once each, and at most max |
| RateLimiter.OtherBucketsUntouched | src/guard/rate_limiter.rs:88-100 | a call leaves every other address's bucket alone, except that inserting into a full map evicts the oldest |
| RateLimiter.BucketIsolation | src/guard/rate_limiter.rs:88-100 | until the max-th later insertion, an inserted address stays tracked, at its exact place in the queue, with a bucket determined by its own calls alone |
| RateLimiter.BucketEviction | src/guard/rate_limiter.rs:88-100 | exactly the max-th later insertion evicts it |
| RateBudget.AllowedWithinLives | src/guard/rate_limiter.rs:57-101 | over any window of any run, evictions included, an address is allowed at most one capacity for each bucket it has had there, plus what one bucket earns |
| RateBudget.SpentWithinLives | src/guard/rate_limiter.rs:57-101 | the same for what it has been allowed together with what it could still spend |
| RateBudget.CyclingIsUnbounded | src/guard/rate_limiter.rs:88-101 | with other addresses in between, one address can be allowed any number of calls at one instant |
| RateBudget.SingleBudgetIff | src/guard/rate_limiter.rs:57-101 | a single bucket's budget bounds every address in all runs of the map if and only if the capacity is zero |
| RateLimiter.RateLimiterGuard.constructor | src/guard/rate_limiter.rs:110-122 | full global bucket, empty window and map |
| RateLimiter.RateLimiterGuard.Allow | src/guard/rate_limiter.rs:143-174 | the three stages in order, each charged only when the earlier ones let the call through |
| RateLimiter.StagesRunAlone | src/guard/rate_limiter.rs:143-174 | over any run each stage is in the state it would reach alone on exactly the calls the earlier stages let through |
| LimiterVerdicts.VerdictIsExact | src/guard/rate_limiter.rs:143-174 | the answer to any call of any run: the window refuses exactly when its limit of admitted timestamps lies within the span, then the global bucket exactly when some window of its uses would go over budget, then the address's bucket exactly when the map used by the calls that reached it refuses, and the call is allowed exactly when none does |
| LimiterVerdicts.TrackedSince | src/guard/rate_limiter.rs:88-101 | every tracked address has a call that inserted the bucket it still has |
| LimiterVerdicts.OwnBucketRefusesIff | src/guard/rate_limiter.rs:57-101 | that bucket refuses exactly when some window of the address's own calls since then would go over capacity + refill * elapsed |
| LimiterVerdicts.NewAddressRefusedIff | src/guard/rate_limiter.rs:88-101 | an untracked address is refused by the map exactly when buckets hold nothing |
| LimiterVerdicts.AddressBudget | src/guard/rate_limiter.rs:143-174 | in any suffix of any run the limiter allows an address at most one per-IP capacity for each bucket it has had there, plus what one bucket earns |
| RateLimiter.AllowedWithinGlobal | src/guard/rate_limiter.rs:143-174 | calls allowed since any point were all paid for by the global bucket |
| RateLimiter.AdmittedCallLeavesTrace | src/guard/rate_limiter.rs:124-141 | a call that passes the window always changes it, whatever came before |
| RateLimiter.GlobalBudget | src/guard/rate_limiter.rs:143-174 | however many addresses take part, the calls allowed in any suffix of a run stay within the global capacity plus what was earned meanwhile |
| SynGuard.SynGuardState.EvictOldestTrackedIp | src/guard/syn_guard.rs:57-65 | the pop loop skips untracked addresses and forgets the first tracked one with its counts |
| SynGuard.SynGuardState.MaybeCompactIpOrder | src/guard/syn_guard.rs:67-83 | above the threshold, keeps tracked addresses once each in order of first occurrence |
| SynGuard.SynGuardState.Reserve | src/guard/syn_guard.rs:85-120 | verdict and whole new state: limits tested before the eviction, counts taken from before it |
| SynGuard.SynGuardState.Establish | src/guard/syn_guard.rs:122-140 | one half-open connection less, and the peer recorded as established |
| SynGuard.SynGuardState.Close | src/guard/syn_guard.rs:142-163 | forgets an established peer, or counts one half-open connection less |
| SynGuard.SynGuardState.OnActivity | src/guard/syn_guard.rs:180-191 | refuses exactly an address whose recorded start is longer ago than the timeout |
| SynGuard.EvictionFacts | src/guard/syn_guard.rs:57-65 | eviction forgets exactly one tracked address when there is one, keeps every other count, and lowers the total or leaves it at zero |
| SynGuard.RunKeepsInv | src/guard/syn_guard.rs:57-163 | after every operation sequence: equal key sets, every key queued, counts between 1 and the per-IP limit, total at most the sum and the global limit, tracked addresses and queue length bounded |
| SynGuard.SettleKeepsShape | src/guard/syn_guard.rs:122-163 | the compaction in establish and close never fires |
| SynGuard.DrainIsRepeatedEviction | src/guard/syn_guard.rs:57-65 | the drain order is what repeated evictions do, victim by victim |
| SynGuard.CompactionKeepsEvictionOrder | src/guard/syn_guard.rs:67-83 | compaction preserves the next victim and the whole order in which evictions would drain the table, and lists each tracked address once |
| SynGuard.AccountsAreOneSided | src/guard/syn_guard.rs:85-163 | for legal sessions the total and each per-IP count never exceed the true half-open numbers, and equal them in every run without an eviction |
| SynGuard.EvictionUndercounts | src/guard/syn_guard.rs:57-65 | right after an eviction the total is strictly below the true number |
| SynGuard.LimitsHoldWithoutEviction | src/guard/syn_guard.rs:85-120 | without evictions the configured limits bound the true half-open connections |
| SynGuard.EvictionBreaksTheLimit | src/guard/syn_guard.rs:106-118 | a smallest such run: three half-open connections under a global limit of two |
| SynLimits.LimitsHoldIff | src/guard/syn_guard.rs:85-120 | for every configuration: the global limit bounds the true half-open connections over all legal runs, the per-IP limit those of each address, and no legal run evicts, each if and only if the per-IP limit is zero or the global limit is at most max(1, max_tracked_ips) |
| SynLimits.AlwaysExactIffEvictionFree | src/guard/syn_guard.rs:57-163 | the accounts are exact after every call of a legal run if and only if nothing was evicted in it |
| SynLimits.ReserveRefusesIff | src/guard/syn_guard.rs:85-102 | after an eviction-free legal run a reservation is refused exactly when the true half-open connections, or those of its address, have reached their limit |
| SynLimits.RefusalIsJustified | src/guard/syn_guard.rs:85-102 | whatever was evicted, a refusal happens only when the true numbers have reached the limit |
| SynLimits.StartIsTrackingStart | src/guard/syn_guard.rs:104-118 | the recorded start of an address is the time of the reservation since which it has been tracked without a break |
| SynLimits.StalledIff | src/guard/syn_guard.rs:180-191 | activity is refused exactly when the address has been tracked without a break for longer than the timeout |
| SynLimits.AdequateNeverEvicts | src/guard/syn_guard.rs:104-108 | under that condition the tracking cap is never reached by an accepted new address |
| SynLimits.InadequateIsUnbounded | src/guard/syn_guard.rs:85-120 | without it legal runs reach any number of half-open connections, in total and from one address |
| SynLimits.CloseUndoesReserveIff | src/guard/syn_guard.rs:85-163 | closing an accepted reservation restores total, counts, start times and established peers if and only if it evicted nothing |
| GuardStack.Stack.Reserve | src/guard/stack.rs:93-142 | exactly the guard calls of a reservation (accepts up to the first refusal, then closes in reverse), none for an allowlisted address, and a session exactly when nothing refused |
| GuardStack.ReservationInOrder | src/guard/stack.rs:104-132 | those calls one by one: accepts in order up to the first refusal, then the closes of those that accepted, last first |
| GuardStack.GuardSession.MarkEstablished | src/guard/stack.rs:153-171 | guards are told once, in order, up to the first failure; the flag is set from the first call on |
| GuardStack.GuardSession.RecordPayload | src/guard/stack.rs:173-192 | each guard sees the activity, then the payload; the first failure ends the loop |
| GuardStack.InspectionInOrder | src/guard/stack.rs:178-189 | those calls one by one: guards in order, each asked about the activity and directly after that about the payload, and nothing after the first failure |
| GuardStack.GuardSession.Touch | src/guard/stack.rs:194-212 | each guard sees the activity; the first failure ends the loop |
| GuardStack.AskedUpToFailure | src/guard/stack.rs:158-210 | establishment and touch ask guards up to and including the first that fails |
| GuardStack.GuardSession.Close | src/guard/stack.rs:214-237 | the first close reaches every guard in order, later ones and bypassed sessions reach none |
| GuardStack.EverySessionFollowsItsScript | src/guard/stack.rs:93-237 | in every interleaving of sessions, repeated closes and allowlist changes, each session's guard calls are exactly its script, and establishment is announced at most once per guard |
| GuardStack.ScriptIsBalanced | src/guard/stack.rs:93-237 | in any script a guard accepts at most once and is closed exactly as often as it accepted, unless the close is still owed; a rejecting guard and later ones see neither |
| GuardStack.CloseMatchesReserve | src/guard/stack.rs:93-237 | over whole runs each guard sees exactly one close per accepted reservation of a finished or rolled-back session, none of an open one, and nothing of a bypassed one |
| StackProgress.ReserveRunsToEnd | src/guard/stack.rs:93-142 | a session off the allowlist can run its reservation to the end: open if every guard accepts, otherwise rejected by the first that refuses |
| StackProgress.CloseRunsToEnd | src/guard/stack.rs:214-231 | an open session's close can run to its end, after which every guard has been told |
| StackProgress.BypassedIffListed | src/guard/stack.rs:94-102 | a session bypasses the guards exactly when its address is on the allowlist as it arrives |
| StackProgress.BypassedForGood | src/guard/stack.rs:144-150 | later changes to the allowlist alter nothing about it |
| StackProgress.FailureEndsTelling | src/guard/stack.rs:158-168 | once a guard fails on establishment no further one is ever told |
| GuardStack.ThrottleCountsHolders | src/guard/throttle.rs:44-80 | with a throttle anywhere in the stack, its counts equal the sessions it has accepted and not yet been told to close, in every interleaving |
| GuardStack.ThrottleCountsOpenSessions | src/guard/throttle.rs:44-80 | with no call in progress the throttle counts exactly the open sessions that were not allowlisted on arrival |
| GuardStack.RejectedReserveRestoresThrottle | src/guard/stack.rs:104-123 | where no zero count is stored, a rejected reserve leaves the throttle's state as before, exactly unless the throttle itself refused under a per-IP limit of zero and stored an entry |
| GuardStack.RejectedReserveInAnyRun | src/guard/stack.rs:104-123 | the same in whatever state any run has reached |
| ThrottledSessions.EveryRunFits | src/guard/throttle.rs:44-80 | with sessions interleaved inside `acquire` and `release` access by access, and acting elsewhere in the stack meanwhile, every session's place in the stack agrees with its phase in the throttle, and the throttle's invariant holds |
| ThrottledSessions.LimitsHoldThroughout | src/guard/throttle.rs:44-68 | at every moment, inside calls or between them, the open sessions respect the global and the per-IP limit |
| ThrottledSessions.QuietCountsAreOpenSessions | src/guard/stack.rs:93-237 | with no reserve or close in progress the atomic counter and the per-IP counts are exactly the open sessions and the lock is free |
| HalfOpenSessions.GuardHearsLegalRun | src/guard/stack.rs:93-237 | with a SYN guard at any position, peer addresses reused only after their session ended and no establish after close, every interleaving, rollback closes included, is a legal run for the guard, and the peers it takes for half open or established are exactly those that are |
| HalfOpenSessions.GuardCountsHalfOpenSessions | src/guard/syn_guard.rs:85-163 | its counts never exceed the number of half-open sessions of the stack, in total and of each address, equal it when nothing was evicted, and under an adequate configuration its limits bound the sessions themselves |
| HalfOpenSessions.SessionsArePeers | src/guard/stack.rs:93-237 | with unique open peer addresses, half-open sessions and half-open peers are equally many |
| HalfOpenSessions.OneSessionPerPeer | src/guard/stack.rs:93-237 | each peer address the guard knows is that of exactly one session |
| BackendPool.Pool.ConsistentHash | src/load_balancer.rs:127-143 | the constructed pool has a valid ring |
| BackendPool.Pool.RebuildRing | src/load_balancer.rs:82-104 | the ring is a sorted permutation of every backend's virtual nodes |
| BackendPool.Pool.AddBackend | src/load_balancer.rs:145-149 | appends the backend and rebuilds a valid ring |
| BackendPool.Pool.RemoveBackend | src/load_balancer.rs:151-160 | keeps exactly the other backends in order, says whether any was removed, rebuilds only then, and is valid in both cases |
| BackendPool.Pool.SelectFor | src/load_balancer.rs:175-200 | none for an empty pool, the first backend for an empty ring, otherwise the chosen node's backend |
| BackendPool.SortUnstableByHash | src/load_balancer.rs:101 | a sorted permutation |
| BackendPool.FindPartitionPoint | src/load_balancer.rs:195 | binary search finds the first position whose hash is not below the key |
| BackendPool.RingShape | src/load_balancer.rs:82-104 | every node's index is in range and names a backend that owns the hash |
| BackendPool.RingFollowsWeights | src/load_balancer.rs:85-100 | a valid ring gives each backend exactly replicas * weight (in 32 bits) nodes, at the hashes of its keys 0, 1, 2, ..., and its length is the sum of those products |
| BackendPool.NodeIsVirtualNode | src/load_balancer.rs:91-98 | every node of the ring hashes one of those keys of its backend |
| BackendPool.SelectedBackend | src/load_balancer.rs:175-200 | none from an empty pool, the first backend while no product is positive, otherwise the backend of a node picked by the linear rule |
| BackendPool.RetainInOrder | src/load_balancer.rs:154 | removal goes backend by backend and keeps their order |
| BackendPool.RetainOne | src/load_balancer.rs:154 | and takes out exactly the backends with the address |
| BackendPool.SelectionIsLinearRule | src/load_balancer.rs:194-198 | partition point plus wrap-around picks a least hash at or above the key, or a least hash overall when there is none |
| BackendPool.SelectedOwns | src/load_balancer.rs:186-199 | the selected address owns the first point of the circle met from the key, whatever the indices are |
| BackendPool.SelectionIsDetermined | src/load_balancer.rs:82-104 | without cross-address collisions every order of ties selects the same backend |
| BackendPool.SelectionIsDeterminedIff | src/load_balancer.rs:82-104 | for every pool, all valid rings select alike for every key if and only if no two addresses share a node hash |
| BackendPool.AnyOwnerCanBeSelected | src/load_balancer.rs:101 | every address that owns a point is selected, for a peer hashing there, by some valid ring |
| BackendPool.AddMovesOnlyToNew | src/load_balancer.rs:145-149 | adding a backend changes a peer's selection only to the new backend |
| BackendPool.RemoveMovesOnlyItsPeers | src/load_balancer.rs:151-160 | removing an address changes only the peers that were on it, despite the index shift |
| BackendPool.AddThenRemoveRestores | src/load_balancer.rs:145-160 | adding a new address and removing it again restores every peer's selection |
| Text.LossyKeepsValid | src/proxy.rs:164 | lossy decoding leaves valid UTF-8 unchanged |
| Text.LossyIsValid | src/proxy.rs:164 | lossy decoding of any bytes is valid UTF-8 |
| Text.LinesOfTerminated | src/proxy.rs:166 | splitting into lines takes off the first CRLF-terminated line |
| Text.LinesOfLf | src/proxy.rs:166 | likewise a line ended by LF alone |
| Text.LinesOfLast | src/proxy.rs:166 | text without LF is one line, or none if it is empty |
| Text.TrimIsExact | src/proxy.rs:168 | trimming takes off white space, only white space, and all of it |
| Base64.CharOfIsAlphabet | src/proxy.rs:917 | the character function is the 64-character table |
| Base64.ValueIsPlaceInAlphabet | src/proxy.rs:957-969 | a character decodes to a value exactly when it stands at that place of the table |
| Base64.EncodeBytes | src/proxy.rs:919-947 | the chunk loop computes the encoding |
| Base64.EncodeChunk | src/proxy.rs:923-943 | one chunk of one to three bytes gives its four characters |
| Base64.DecodeBytes | src/proxy.rs:949-980 | the accumulator loop computes the decoding, or refuses at the first foreign character |
| Base64.UnmaskedIsHarmless | src/proxy.rs:971-976 | never masking the 32-bit accumulator gives the same result as keeping only the pending bits |
| Base64.EncodedLength | src/proxy.rs:919-947 | the encoding has 4 * ceil(n / 3) characters |
| Base64.RoundTrip | src/proxy.rs:919-980 | decoding an encoding gives back the bytes, for every byte string |
| Base64.PadsAreIgnored | src/proxy.rs:950 | any number of pads at the end changes nothing |
| Base64.DecodesExactlyCode | src/proxy.rs:956-979 | decoding succeeds exactly on alphabet characters, and yields as many bytes as their bits fill |
| Base64.DecodedBytes | src/proxy.rs:956-979 | for any text of the alphabet, canonical or not, the bytes as a number are the code's six-bit values as a number without its last 6n mod 8 bits |
| Base64.NumberDeterminesBytes | src/proxy.rs:974-976 | length and number determine the bytes, so the previous row fixes them |
| Base64.EncodedIsPrintable | src/proxy.rs:919-947 | encoded text has no spaces, line breaks or control characters |
| ProxyAuth.ValidateIsExact | src/proxy.rs:45-58 | a header is accepted if and only if it is "Basic " plus text decoding to user, colon, password, with no colon in the user |
| ProxyAuth.EncodedHeaderValidates | src/proxy.rs:34-58 | encoded credentials validate exactly when the user is colon-free |
| ProxyAuth.HeaderText | src/proxy.rs:34-43 | the header is the bytes of "Basic " and the encoding of user, colon, password |
| ProxyAuth.NoAuthAcceptsNothing | src/proxy.rs:34-58 | without credentials there is no header and none is accepted |
| ProxyAuth.HeadersIdentifyCredentials | src/proxy.rs:34-58 | two colon-free-user credentials accept each other's headers only if equal |
| AuthStream.IncrementalSearchIsComplete | src/proxy.rs:263-268 | searching from three bytes before the new data finds the same first terminator as a search of the whole buffer |
| AuthStream.ValidateHttpAuthStream | src/proxy.rs:245-280 | the read loop does what a whole-buffer search after each read would do, and never buffers more than 64 KiB + 512 bytes |
| AuthStream.RequiredIffMissing | src/proxy.rs:166-175 | the parser asks for authorization if and only if no line after the first has the header's prefix |
| AuthStream.FirstDecides | src/proxy.rs:166-173 | otherwise the first such line decides: its trimmed value is accepted, with the bytes after the headers, or the credentials are invalid |
| AuthStream.AcceptedIffProved | src/proxy.rs:156-176 | the parser accepts if and only if the first such line reads "Basic " and text decoding to the server's user, colon, password, with no colon in the user |
| AuthStream.AnySplitAcceptsIffProved | src/proxy.rs:245-280 | a block of at most 64 KiB and one byte is accepted, in any split, if and only if it proves the credentials in that way |
| AuthStream.AcceptanceIsProved | src/proxy.rs:245-280 | whatever is sent, in whatever reads, nobody is accepted whose headers do not prove the credentials |
| AuthStream.EmptyReadCloses | src/proxy.rs:258-262 | a read of nothing ends the exchange as closed, whatever would have come after it |
| AuthStream.ClientLines | src/proxy.rs:806-810 | the client's request as lines: CONNECT with the address, the host, the credentials and a blank line; without credentials it writes nothing |
| AuthStream.TerminatorOfThree | src/proxy.rs:807-810 | whatever payload follows, the request's first terminator is its own end |
| AuthStream.RequestParsesBack | src/proxy.rs:156-176 | the parser finds the client's own header and returns exactly the bytes after the request |
| AuthStream.AnySplitAnswers | src/proxy.rs:245-280 | for any header block from anyone of at most 64 KiB and one byte, any payload and any split into nonempty reads, the exchange gives the parser's answer for the block alone, and on acceptance trailing plus unread bytes are exactly the payload |
| AuthStream.AnySplitAuthenticates | src/proxy.rs:245-280 | the client's own request in any split: colon-free users are accepted and the payload is preserved, other users are refused |
| AuthStream.UnfinishedIsClosed | src/proxy.rs:258-262 | a stream that ends within 64 KiB without a terminator comes to a closed connection in any split |
| AuthStream.OversizeIsRefused | src/proxy.rs:271-275 | a stream with no terminator in its first 64 KiB + 512 bytes, or none at all and longer than 64 KiB, is too large in every split into reads of at most 512 bytes |
| AuthStream.OutcomeDependsOnSplit | src/proxy.rs:253-280 | for a block of a size in between, some reads get its answer and others find it too large |
| SyncServer.InitInv | src/server/sync_server.rs:53-74 | a new pool, of at least one worker, starts with every permit accounted for |
| SyncServer.StepKeepsInv | src/server/sync_server.rs:53-225 | each step of the acceptor or any worker keeps permits, jobs, pool and lock consistent |
| SyncServer.EveryInterleavingIsSafe | src/server/sync_server.rs:53-219 | there are max(1, size) workers, queued plus running jobs never exceed max_connections, jobs leave first in first out, every job sent is queued, running or finished, and every accepted connection is refused, sent or in the acceptor's hand, exactly once |
| SyncServer.ReturnsDrained | src/server/sync_server.rs:83-93 | on every return path every accepted connection was refused or its job has run, exactly once, no worker is left and no permit is out; success means a stop request was seen |
| SyncServer.RefusedIffFull | src/server/sync_server.rs:193-201 | a connection is turned away exactly when max_connections jobs are queued or running |
| SyncServer.SendNeverFails | src/server/sync_server.rs:207-218 | the receiver outlives the sender, so the error path of execute is never taken |
| SyncServer.DrainStepsShrinkEffort | src/server/sync_server.rs:177-225 | once the accept loop is left, or asked to stop while it looks for that, every step but an idle poll brings the return closer |
| SyncServer.DrainIsBounded | src/server/sync_server.rs:177-225 | so a stop request or an error is followed by a bounded number of non-idle steps in any interleaving |
| SyncServer.DrainNeverStuck | src/server/sync_server.rs:177-225 | until the server has returned, some non-idle step is enabled: neither loop nor drain can deadlock |
| SyncServer.StoppingCanReturn | src/server/sync_server.rs:177-225 | from any such state some schedule returns |
| SyncServer.LoopIsLeftIff | src/server/sync_server.rs:165-191 | the accept loop is left exactly for a failed start, a failed accept, or a stop request seen at its head, and only the last leads to the drain |
| SyncServer.AtMostOneMore | src/server/sync_server.rs:177-192 | after a stop request at most one more connection is accepted, in any run |

## Left out

- Sockets, tokio, TLS, certificates, configuration builders, logging, guard observers and error text: plumbing with no state of its own.
- Metrics, IP ban, connection filters, routing rules and round-robin selection: simple sets, counters and first-match searches. The allowlist is a set that may change between steps.
- FNV-1a and the text form of addresses: parameters. The disruption results state as an assumption that virtual nodes of different addresses do not share a hash.
- Floating-point rounding in the token bucket: tokens are exact reals.
- Wrap-around of `next_seq` after 2^64 notes and of the `usize` counters of the throttle, the SYN guard and the server's permits: runs shorter than that are a precondition for the activity map, and the other counters are unbounded where they grow.
- Weak memory ordering: each atomic access and each locked region is one step. The throttle's per-IP refusal, which decrements the global counter while still holding the map's lock, is two.
- Inside `GuardStack` a whole `acquire` or `release` of the throttle is one step; `ThrottledSessions` interleaves their accesses.
- The rate limiter's three locks: `RateLimiter.Allow` is sequential. Each stage has its own clock reading per call, and the run results take those readings in the order the stage saw them.
- The SYN guard's `backlog_limit`, which no code reads.
- Sessions that share an open peer address, and establishing a session that is closing: the SYN guard results assume neither happens.
- Finite address spaces: addresses and ports are unbounded, so `SynLimits.LimitsHoldIff` ignores limits larger than the number of addresses that exist.
- Socket lifetime: `Connection::into_stream` ends the guard session before the stream, so results speak of open guard sessions.
- Panicking handlers in the sync server: their permit is never given back. `SyncServer` lets handlers take any time but return.
- The async proxy's header reader, which does not skip the first line of the request (src/proxy.rs:705), where the sync one does (src/proxy.rs:166).
- I/O errors in the middle of the authentication exchange: they end it as a closed connection does.
- AuthStream.AnySplitAuthenticates: takes the printed address as any text of printable ASCII without spaces, because the formatting of socket addresses is not part of this model.
