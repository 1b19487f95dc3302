# SIPREC server: models and proofs

Dafny models of the stateful cores of the SIPREC recording server: its cluster protocols (leader election, stream
migration, split-brain detection), SIP digest replay protection, the Redis sliding-window rate limiter, the circuit
breaker, interleaved PCM handling, the hash-chained audit log and DNS rdata. `dafny verify dfyconfig.toml` checks all
of it.

Each module has the same plan.

- A value-level step function gives the effect of one atomic operation: a mutex section, a Redis command, a Lua script,
  one loop tick. A run is any sequence of steps, so goroutines and nodes interleave freely.
- The theorems are about every run, or every input.
- A class in the shape of the source, with its fields, loops and buffers, is proved to do what the step functions say.

The environment enters as parameters: clock readings, random values, what becomes of each Redis command whose error
matters (done, done with the answer lost, not done), the digest, the hash, and string quoting.

| file | module | covers |
|---|---|---|
| `CircuitBreaker.dfy` | `CircuitBreaking` | three states, the pruned time window, failure runs, capped backoff |
| `Common.dfy`, `Text.dfy` | `Common`, `Text` | optional values, fates of commands, 64-bit integers, and the string functions of Go's library |
| `RateLimiter.dfy` | `RateLimiting` | the Lua script on an expiring sorted set, against a limiter that forgets nothing |
| `LeaderElection.dfy` | `LeaderElection` | SETNX, compare-and-renew, compare-and-delete on one expiring lock |
| `SipAuth.dfy` | `SipAuth` | header parsing, and inspect-then-commit of nonce counts under concurrent requests and sweeps |
| `RtpState.dfy`, `StreamMigration.dfy` | `RtpState`, `StreamMigration` | handing a stream from node to node through queue, events and a migration record |
| `SplitBrain.dfy` | `SplitBrain` | grace period, partition declaration, notifications, fencing |
| `ChannelMixer.dfy` | `ChannelMixing` | mixing, splitting and merging 16-bit interleaved audio in reused buffers |
| `AuditChain.dfy` | `AuditChain` | the hash chain and what it protects |
| `DnsRdata.dfy` | `DnsRdata` | printing and parsing zone-file rdata |

## Assumptions in the contracts

- The clock does not go backwards in the breaker, the detector and within one authentication (`Monotone`,
  `Clock.Forward`). The limiter's theorems assume nothing about clocks; `InOrder` and `OneClock` are special cases.
- A challenge does not reuse a nonce that has already let somebody in (`SipAuth.Fresh`). `FreshRunIff` shows this is
  exactly what the invariant needs.
- A breaker call asks once and records a refusal at most once, after its own request was refused (`Orderly`; only
  `RefusalsCounted` needs it).
- Limiter windows are whole milliseconds.
- The hash is injective and never empty (`GoodHash`).
- `strconv.Unquote` undoes `strconv.Quote` and shortens what it accepts (`QuotingLaws`).

## Findings

Each of these is a property that fails, with an input that shows it and the exact condition under which it holds.

- **Backoff overflows int64.** The delay is the capped product exactly when the product fits or wraps to no less than
  the cap (`OpenDelayExact`). A longer failure run never gets a shorter delay exactly when the largest product fits
  (`DelayGrowsIff`). With a timeout of 2^53 ns the eleventh failure opens the breaker with an attempt time in the past
  (`OverflowOpensInThePast`).
- **A threshold of zero or less.** A closed breaker is below its failure threshold in every run exactly when the
  threshold is positive (`ClosedBelowThresholdIff`).
- **The limiter can lose admissions from its window, and then admits too many.** It answers like a limiter that counts
  the whole history exactly when every admission inside a request's window is still kept (`CountExactIff`,
  `RefinesNaiveIff`). Four things take one away: a later ZADD of the same member (`CollidingMembersOverAdmit`), a script
  that overtook the request on the way to Redis (`OvertakingOverAdmits`), a key that runs out because the
  script ran late (`LateScriptOverAdmits`, exact condition in `InOrderIff`), and a sweep with too short a window
  (`SweepWindowIff`). In order, it keeps within the limit in every window exactly when it admits only what counting the
  run's own admissions would admit (`WindowBoundIff`).
- **An unset per-user limit shuts users out.** The configuration comment says the default is 50, but the constructor
  does not apply it (`UnsetUserLimitRefuses`, `RefusesFromTheStartIff`). The model follows the code.
- **Two leaders.** Leading nodes hold the lock in all states of a run exactly when no leader's lock lapses, no release
  script runs between winning the lock and setting the flag, and no flagged node loses the answer to its release
  (`LeadersOwnLockIff`). Breaking any of these gives two leaders (`ExpiryMakesTwoLeaders`; `ReleaseRace`,
  `ReleaseRaceReachable`; `LostReleaseAnswer`).
- **A renewal can leave a false flag.** When both its commands are answered the flag tells the truth exactly when the
  node did not find its lock gone and then lose the race for it (`Manager.TryRenewLeadership`,
  `LostReacquisitionKeepsFlag`).
- **A reissued nonce replays** (`ReissueReplays`, exact condition in `FreshIff`).
- **A URI with a comma cannot authenticate.** Section 3.2.2 of RFC 2617 allows commas inside quoted values, but the
  header is split at every comma (`HeaderRoundTripIff`, `AuthenticableIff`).
- **Migrating a call to its own node loses it** (`SelfMigrationRun`, exact condition in `ClosingLosesIff`; for whole
  runs in `SoundRunIff`).
- **A call that ends while it is being migrated can come back at the target** (`EndedCallComesBack`, exact condition in
  `ComesBackIff` and, for whole runs, `StaysGoneIff`).
- **Closing a migration deletes the target's shared record** until the target's next sync, exactly when the delete
  succeeds (`ClosingForgetsSharedRecord`).
- **Retries are unbounded when the count is not saved** (`UncountedRetriesNeverEnd`, exact condition in `BoundedIff`).
- **A fence runs out.** It is set once, for an hour, and never refreshed (`FenceRunsOut`, exact condition in
  `FencedIff`).
- **A reopened audit file starts a second chain**, unless it was empty or nothing is appended (`ReopenedIff`).
- **Some DNS records do not survive printing and parsing** (`LostRecords`, exact condition in `RoundTripIff`).

## Model

| member | source | states |
|---|---|---|
| `CircuitBreaking.AfterAfter` | pkg/circuitbreaker/circuit_breaker.go:323-333 | Pruning at an early cut-off loses nothing that a later cut-off would keep, with or without a record appended in between. |
| `CircuitBreaking.WindowIsHistory` | pkg/circuitbreaker/circuit_breaker.go:215-263 | After every run the pruned window is the whole history since the last reset cut at the newest record, and every counter, both failure runs included, is that of the history. |
| `CircuitBreaking.TripFromWholeHistory` | pkg/circuitbreaker/circuit_breaker.go:239-312 | A failure leaves the breaker open exactly when it was open or the rule applied to the whole unpruned history says so. |
| `CircuitBreaking.TripsExactly` | pkg/circuitbreaker/circuit_breaker.go:239-312 | In every run with a forward clock a failure leaves the breaker open exactly when it was open, or the last FailureThreshold results failed, or enough results were recorded and the failures inside the time window are at least the threshold's share of the results inside it, both counted as sets of positions of the history. |
| `CircuitBreaking.AfterCounts` | pkg/circuitbreaker/circuit_breaker.go:292-312 | The filtered window has as many records, and as many failures, as there are positions of the history later than the cut-off. |
| `CircuitBreaking.TrailingIff` | pkg/circuitbreaker/circuit_breaker.go:274-278 | The failure run reaches a number exactly when that many last results all failed. |
| `CircuitBreaking.RefusedIff` | pkg/circuitbreaker/circuit_breaker.go:189-212 | In every run a request is refused exactly when the breaker is open and its clock reading is not after the next attempt. |
| `CircuitBreaking.NobodyRefused` | pkg/circuitbreaker/circuit_breaker.go:189-212 | A breaker that no failure opens is never open and refuses nobody. |
| `CircuitBreaking.ResetCloses` | pkg/circuitbreaker/circuit_breaker.go:418-442 | After any run a reset leaves a closed breaker with no history, no counts and no refusal; only the transitions stay counted. |
| `CircuitBreaking.RefusalsCounted` | pkg/circuitbreaker/circuit_breaker.go:145-149 | However calls interleave, the rejection counter is the number of requests refused since the last reset, plus the calls refused before it and still to record that then, minus those still to record it now, who are among the former; with nobody pending at either time it is exact. |
| `CircuitBreaking.Edges` | pkg/circuitbreaker/circuit_breaker.go:189-263 | In every run the only state changes besides a reset are closed to open, open to half-open after the next attempt, half-open to open and half-open to closed; each is counted once. |
| `CircuitBreaking.OpenHolds` | pkg/circuitbreaker/circuit_breaker.go:189-212 | Until a request comes after the next attempt, an open breaker refuses every request and keeps its deadline, whatever results arrive and however late. |
| `CircuitBreaking.OpenEnds` | pkg/circuitbreaker/circuit_breaker.go:199-204 | The first request after the next attempt goes through and half-opens the breaker, whatever came between the opening and it. |
| `CircuitBreaking.HalfOpenCounter` | pkg/circuitbreaker/circuit_breaker.go:364-368 | In half-open the success counter is the run of successes at the end of the results recorded since half-open was entered. |
| `CircuitBreaking.HalfOpenCloses` | pkg/circuitbreaker/circuit_breaker.go:231-235 | From half-open a result closes the breaker exactly when it is a success and the results since half-open end in at least SuccessThreshold successes. |
| `CircuitBreaking.ClosedBelowThreshold` | pkg/circuitbreaker/circuit_breaker.go:274-278 | With a positive threshold, a closed breaker's failure run is below it in every run. |
| `CircuitBreaking.ClosedBelowThresholdIff` | pkg/circuitbreaker/circuit_breaker.go:274-278 | That holds in all runs exactly when the threshold is positive. |
| `CircuitBreaking.OpenDelayExact` | pkg/circuitbreaker/circuit_breaker.go:348-358 | The 64-bit delay is min(Timeout * 2^min(run-1,10), MaxTimeout) exactly when the product does not wrap, or wraps to no less than the cap. |
| `CircuitBreaking.BackoffOverflows` | pkg/circuitbreaker/circuit_breaker.go:352-353 | A concrete timeout for which the eleventh failure yields a negative delay. |
| `CircuitBreaking.OverflowOpensInThePast` | pkg/circuitbreaker/circuit_breaker.go:239-263 | The run: eleven failures open such a breaker with a next attempt in the past, so it lets the next request through at once. |
| `CircuitBreaking.SafeBackoffIsExact` | pkg/circuitbreaker/circuit_breaker.go:349-357 | When Timeout * 1024 fits int64 the delay is the capped product for every failure run. |
| `CircuitBreaking.DelayTable` | pkg/circuitbreaker/circuit_breaker.go:347-358 | The delays in numbers: the timeout, twice it after two failures, 16 times after five, 1024 times from eleven on, each capped. |
| `CircuitBreaking.DelayGrowsIff` | pkg/circuitbreaker/circuit_breaker.go:350-357 | A longer failure run never gets a shorter delay exactly when Timeout * 1024 fits int64. |
| `CircuitBreaking.FailuresAreTrailing` | pkg/circuitbreaker/circuit_breaker.go:215-263 | The failures field is the run of failures at the end of the history since the last reset, in every run, clock order aside. |
| `CircuitBreaking.OpeningDelay` | pkg/circuitbreaker/circuit_breaker.go:347-358 | Every opening in every run is a failure and sets the next attempt one backoff after it, for the failure run of the history, with exponent 0 to 10; without exponential backoff, one timeout after it. |
| `CircuitBreaking.DelaysNeverShrink` | pkg/circuitbreaker/circuit_breaker.go:347-358 | Of two openings with no success between them the later one waits at least as long. |
| `CircuitBreaking.CircuitBreaker.constructor` | pkg/circuitbreaker/circuit_breaker.go:123-137 | A new breaker is closed, with no history and no deadline. |
| `CircuitBreaking.CircuitBreaker.SetStateTo` | pkg/circuitbreaker/circuit_breaker.go:337-373 | The in-place state change is the step function's, counters and deadline included. |
| `CircuitBreaking.CircuitBreaker.Allow` | pkg/circuitbreaker/circuit_breaker.go:189-212 | Refused exactly when the breaker was open and the clock is not after its next attempt; the new state is that of the allow step. |
| `CircuitBreaking.CircuitBreaker.AppendToWindow` | pkg/circuitbreaker/circuit_breaker.go:315-334 | The rebuilding loop leaves exactly the records later than the cut-off, in order, and touches nothing else. |
| `CircuitBreaking.CircuitBreaker.CurrentFailureRate` | pkg/circuitbreaker/circuit_breaker.go:292-312 | The counting loop returns failures over requests among the records inside the window, zero when there are none. |
| `CircuitBreaking.CircuitBreaker.Trips` | pkg/circuitbreaker/circuit_breaker.go:274-289 | The decision is that of the trip rule on the breaker's fields. |
| `CircuitBreaking.CircuitBreaker.Succeed` | pkg/circuitbreaker/circuit_breaker.go:215-236 | The whole new state is that of the success step. |
| `CircuitBreaking.CircuitBreaker.Fail` | pkg/circuitbreaker/circuit_breaker.go:239-263 | The whole new state is that of the failure step. |
| `CircuitBreaking.CircuitBreaker.ResetBreaker` | pkg/circuitbreaker/circuit_breaker.go:418-442 | Everything returns to a new breaker's state except the transition counter, which counts the reset of a breaker that was not closed. |
| `CircuitBreaking.CircuitBreaker.Execute` | pkg/circuitbreaker/circuit_breaker.go:140-173 | A cancelled call changes nothing, a refused one is only counted, and an allowed one is the allow step followed by its result, where a failure by the caller's own cancellation records nothing. |
| `RateLimiting.RunRepresents` | pkg/cluster/distributed_ratelimit.go:225-253 | After every run, in whatever order clocks were read, the key holds exactly the admissions that are kept: those no later script's window or sweep has passed, on which the key has not run out, and whose member was not added again. |
| `RateLimiting.CountExactIff` | pkg/cluster/distributed_ratelimit.go:232-236 | At every request of every run the script counts at most the admissions of its window, and all of them exactly when each is still kept. |
| `RateLimiting.RequestReply` | pkg/cluster/distributed_ratelimit.go:225-253 | A request that meets its window intact gets the reply computed from the whole admission log. |
| `RateLimiting.UnfaithfulDiffers` | pkg/cluster/distributed_ratelimit.go:225-253 | The first request of a run that does not meet its window intact gets a different one. |
| `RateLimiting.RefinesNaive` | pkg/cluster/distributed_ratelimit.go:218-284 | When every request meets its window intact, admissions, remaining counts and retry times equal those of a limiter that counts the whole history. |
| `RateLimiting.RefinesNaiveIff` | pkg/cluster/distributed_ratelimit.go:218-284 | For every run, whatever the clocks, members and sweeps: the replies equal those of that limiter exactly when every request meets its window intact. |
| `RateLimiting.InOrderIff` | pkg/cluster/distributed_ratelimit.go:219-255 | When scripts run in the order the clock was read, with distinct members and covering sweeps, all requests meet their windows intact exactly when each runs before the key runs out or a window after the last admission. |
| `RateLimiting.OneClockIsFaithful` | pkg/cluster/distributed_ratelimit.go:219-255 | That is so when callers, sweeps and Redis read one clock and nobody overtakes. |
| `RateLimiting.NaiveWindowBound` | pkg/cluster/distributed_ratelimit.go:238-243 | The limiter that counts the whole history admits at most the limit in any window, with no assumption on the clock. |
| `RateLimiting.WindowBound` | pkg/cluster/distributed_ratelimit.go:225-253 | In every run whose requests meet their windows intact, no interval (lo, lo + window] holds more admissions than the limit. |
| `RateLimiting.WindowBoundIff` | pkg/cluster/distributed_ratelimit.go:225-253 | When scripts run in the order the clock was read, that bound holds exactly when the script admits only requests that counting the run's own admissions would admit. |
| `RateLimiting.SweepWindowIff` | pkg/cluster/distributed_ratelimit.go:420-443 | On one clock all runs are faithful, and all runs keep the bound, exactly when the sweep's window covers the limit's; a shorter one lets one call too many into a window. |
| `RateLimiting.CollidingMembersOverAdmit` | pkg/cluster/distributed_ratelimit.go:240-240 | Three admissions under one member string pass a limit of two. |
| `RateLimiting.LateScriptOverAdmits` | pkg/cluster/distributed_ratelimit.go:242-255 | In order but late: a script that runs after the key has run out lets two calls one nanosecond apart pass a limit of one. |
| `RateLimiting.OvertakingOverAdmits` | pkg/cluster/distributed_ratelimit.go:219-255 | On one perfect clock, with distinct members: a caller overtaken between reading the clock and running the script makes three calls of one window pass a limit of two. |
| `RateLimiting.LateAdmissionStays` | pkg/cluster/distributed_ratelimit.go:233-240 | Only what runs after an admission counts: one made by an overtaken request, older than a window the key has already seen, is still counted. |
| `RateLimiting.RetryExactIff` | pkg/cluster/distributed_ratelimit.go:245-251 | After a refusal the same log admits exactly the times from now + RetryAfter on, if and only if fewer than limit admissions are later than the oldest one in the window; RetryAfter is positive. |
| `RateLimiting.RetryExact` | pkg/cluster/distributed_ratelimit.go:245-251 | So it does for every refused request that meets its window intact, even one that others have overtaken. |
| `RateLimiting.RetryAfterExact` | pkg/cluster/distributed_ratelimit.go:225-283 | After a refusal in a run whose requests meet their windows intact, all requests before now + RetryAfter are refused and the next one is admitted exactly when it is at or after it, whatever sweeps and overtaken requests run in between. |
| `RateLimiting.RefusesFromTheStartIff` | pkg/cluster/distributed_ratelimit.go:238-251 | A limit refuses every call Redis answers exactly when it is zero or less. |
| `RateLimiting.CallsAtOneInstant` | pkg/cluster/distributed_ratelimit.go:130-284 | On one clock, after any number of calls of one user from one address at one instant, the next call is allowed exactly when every limit that applies is positive and either the short window has passed or fewer calls came than calls per second times burst, rounded down. |
| `RateLimiting.DefaultAddressLimit` | pkg/cluster/distributed_ratelimit.go:76-167 | With default settings an address gets exactly twelve calls at once and the next one a second later. |
| `RateLimiting.KeysInjective` | pkg/cluster/distributed_ratelimit.go:130-191 | Different addresses, and different users, are counted under different keys. |
| `RateLimiting.UnsetUserLimitRefuses` | pkg/cluster/distributed_ratelimit.go:77-100 | A per-user limit left at zero stays zero after defaults are applied and refuses every identified call. |
| `RateLimiting.EachKeyIsARun` | pkg/cluster/distributed_ratelimit.go:194-215 | However checks and sweeps of many keys interleave, each key evolves as the run of its own checks and sweeps. |
| `RateLimiting.DistributedRateLimiter.constructor` | pkg/cluster/distributed_ratelimit.go:76-109 | Zero settings become 1000 and 10 calls per second, a burst of 1.2 and windows of one second and one minute; the per-user limit and every setting that is not zero stay; metrics start at zero. |
| `RateLimiting.DistributedRateLimiter.LowestScore` | pkg/cluster/distributed_ratelimit.go:246-249 | The scan returns the lowest score of the set. |
| `RateLimiting.DistributedRateLimiter.CheckSlidingWindowLimit` | pkg/cluster/distributed_ratelimit.go:218-284 | The stored key and the reply are those of the script; a check that is not answered lets the call through, and leaves the key alone only if the script did not run. |
| `RateLimiting.DistributedRateLimiter.AllowCall` | pkg/cluster/distributed_ratelimit.go:130-167 | Which check decides, the result, both keys and the metrics; a call refused for its address has already taken a global place; every request stays counted once. |
| `RateLimiting.DistributedRateLimiter.AllowCallWithUser` | pkg/cluster/distributed_ratelimit.go:170-191 | Allowed exactly when all applicable checks pass; a refusal by the user limit takes back the allowed count, so the metrics stay balanced. |
| `RateLimiting.DistributedRateLimiter.Cleanup` | pkg/cluster/distributed_ratelimit.go:420-443 | The loop over the keys drops from each what is older than the long window and nothing else. |
| `LeaderElection.OnlyOwnerTouchesLock` | pkg/cluster/manager.go:335-362 | No step of another node changes a lock that somebody holds. |
| `LeaderElection.TenuresAreDisjoint` | pkg/cluster/manager.go:292-371 | In every run tenures are disjoint and in order, and the last one is the current owner's, until the lock's expiry. |
| `LeaderElection.CarefulIff` | pkg/cluster/manager.go:262-384 | A step keeps every leading node in possession of the lock exactly when it does not pass a leader's expiry, does not run a release script between winning and flagging, and does not lose the answer to a release script while the flag is set and no other call is about to clear it. |
| `LeaderElection.LeadersOwnLockIff` | pkg/cluster/manager.go:262-384 | All states of a run have their leaders holding the lock exactly when all its steps are careful. |
| `LeaderElection.AtMostOneLeader` | pkg/cluster/manager.go:262-384 | In every careful run at most one node has its flag set, apart from nodes between a release script that deleted their lock and clearing their flag. |
| `LeaderElection.LeaderRenews` | pkg/cluster/manager.go:262-351 | A leader whose round is answered while it owns the lock ends it with a whole lifetime from the renewal and its flag set, whatever the other nodes do in between. |
| `LeaderElection.FollowerTakesOverIff` | pkg/cluster/manager.go:262-308 | A follower's round makes it leader exactly when there is no lock or its expiry has passed, and then the lock lasts a whole lifetime from now. |
| `LeaderElection.DeposedStepsDown` | pkg/cluster/manager.go:311-331 | A flagged node whose lock belongs to somebody else reads that in its next round and clears its flag. |
| `LeaderElection.LeaderReleases` | pkg/cluster/manager.go:354-371 | A leader that owns the lock and releases it leaves it free and clears its flag. |
| `LeaderElection.ReleaseRace` | pkg/cluster/manager.go:354-414 | A release script between winning the lock and setting the flag leads to two leaders in five steps. |
| `LeaderElection.ReleaseRaceReachable` | pkg/cluster/manager.go:405-414 | Two overlapping forced releases reach that situation from the start. |
| `LeaderElection.ExpiryMakesTwoLeaders` | pkg/cluster/manager.go:292-351 | A leader that lets its lock lapse is joined by a second leader. |
| `LeaderElection.LostReleaseAnswer` | pkg/cluster/manager.go:364-370 | A run from the start in which the answer to a release is lost: the flag is never cleared, the next node wins the lock, and both are flagged with no release in progress. |
| `LeaderElection.LostReacquisitionKeepsFlag` | pkg/cluster/manager.go:317-320 | A leader that finds its lock gone and loses the race for it keeps its flag while another node owns the lock. |
| `LeaderElection.AcquireIsSteps` | pkg/cluster/manager.go:292-308 | SETNX and the flag write, with other nodes acting in between, have the effect stated for TryAcquireLeadership. |
| `LeaderElection.RenewIsSteps` | pkg/cluster/manager.go:311-351 | GET, then SETNX or the renew script, then the flag write, with other nodes acting in between, have the effect stated for TryRenewLeadership. |
| `LeaderElection.ReleaseIsSteps` | pkg/cluster/manager.go:354-371 | Release script and flag write have the effect stated for ReleaseLeadership. |
| `LeaderElection.Manager.SetLeaderStatus` | pkg/cluster/manager.go:374-384 | Callbacks report gain and loss in strict alternation, starting with a gain, and the flag is the last report. |
| `LeaderElection.Manager.TryAcquireLeadership` | pkg/cluster/manager.go:292-308 | The lock is taken only when free; the flag is set exactly when that is known to have happened. |
| `LeaderElection.Manager.TryRenewLeadership` | pkg/cluster/manager.go:311-351 | Lock and flag in every branch, with other nodes acting after the GET; when both commands are answered the flag tells whether the node owns the lock exactly when it did not find the lock gone and then lose the race for it. |
| `LeaderElection.Manager.ReleaseLeadership` | pkg/cluster/manager.go:354-371 | After an answered release the node neither owns the lock nor is flagged; an unanswered one leaves the flag even if the lock is gone. |
| `SipAuth.ParseNonceCount` | pkg/auth/sip_auth.go:356-375 | Accepts exactly eight hexadecimal digits of value at most 2^31-1 and returns that value. |
| `SipAuth.HexValueOf` | pkg/auth/sip_auth.go:356-375 | Positional notation: the value of a concatenation is the first part times a power of sixteen plus the second. |
| `SipAuth.HexDigits` | pkg/auth/sip_auth.go:356-375 | Each of the sixteen digits, in either letter case, has its value. |
| `SipAuth.SameCountIff` | pkg/auth/sip_auth.go:356-375 | Two nc strings stand for the same count exactly when they differ only in letter case. |
| `SipAuth.FreshIff` | pkg/auth/sip_auth.go:266-346 | A step keeps the replay invariant exactly when it does not reissue a nonce that already has a success. |
| `SipAuth.FreshRunIff` | pkg/auth/sip_auth.go:137-346 | All states of a run satisfy the invariant exactly when all its challenges are fresh. |
| `SipAuth.RunKeepsInv` | pkg/auth/sip_auth.go:137-346 | In every fresh run each success has a positive well-formed count, on an unexpired nonce issued to that address. |
| `SipAuth.CountsIncrease` | pkg/auth/sip_auth.go:329-346 | In every interleaving of calls, challenges and sweeps the counts accepted for one nonce strictly increase. |
| `SipAuth.NoReplay` | pkg/auth/sip_auth.go:137-247 | No nonce and nonce count succeed twice, whatever the case of the letters. |
| `SipAuth.LoginSucceeds` | pkg/auth/sip_auth.go:137-346 | In every run a challenge issued at t and answered with any positive well-formed count succeeds, with age k - t, when inspection and commit at k come by t + timeout, whatever other calls, challenges, evictions and sweeps by then run in between, unless the nonce is issued again or used meanwhile. |
| `SipAuth.RemovedIff` | pkg/auth/sip_auth.go:300-346 | An eviction of a nonce, or a sweep, removes it exactly when the clock is past its issue time plus the timeout. |
| `SipAuth.ReissueReplays` | pkg/auth/sip_auth.go:278-286 | After a reissue of its nonce any past success can be repeated verbatim. |
| `SipAuth.SIPAuthenticator.GenerateNonce` | pkg/auth/sip_auth.go:266-289 | A new nonce enters with count zero under the client's address; nothing changes when the random source fails. |
| `SipAuth.SIPAuthenticator.InspectNonce` | pkg/auth/sip_auth.go:293-324 | Accepts exactly a well-formed count above the one stored for a known nonce of that address whose age is at most the timeout; changes nothing but the removal of a nonce older than that. |
| `SipAuth.SIPAuthenticator.CommitNonceCount` | pkg/auth/sip_auth.go:329-346 | Compare-and-update: succeeds exactly when the count is still the one inspected, the new one is higher and the nonce's age is at most the timeout; a failure removes the nonce only when it is older. |
| `SipAuth.SIPAuthenticator.CleanupNonces` | pkg/auth/sip_auth.go:482-496 | The sweep removes exactly the nonces whose age is more than the timeout and changes no other. |
| `SipAuth.SIPAuthenticator.ParseDigestAuth` | pkg/auth/sip_auth.go:378-449 | Accepts exactly the headers whose pairs, split at commas and the first equals sign and trimmed, are complete credentials for this realm and URI with MD5, qop auth and a well-formed count; the last value of a repeated key wins. |
| `SipAuth.HeaderRoundTripIff` | pkg/auth/sip_auth.go:389-398 | A header that quotes its values gives them back exactly when none has a comma in it or a quote at either end. |
| `SipAuth.ClientHeaderReads` | pkg/auth/sip_auth.go:378-449 | The header of a client that quotes the ten parameters of its response is read back as that response, field by field, and accepted exactly when the response is complete. |
| `SipAuth.FieldIsLast` | pkg/auth/sip_auth.go:399-421 | Of several pairs with one key the last decides; a missing key reads as empty. |
| `SipAuth.MD5InAnyCase` | pkg/auth/sip_auth.go:435-437 | The algorithms accepted are the four spellings of MD5. |
| `SipAuth.AuthenticableIff` | pkg/auth/sip_auth.go:389-434 | Some header is accepted for a realm and URI exactly when both are non-empty, without commas and without quotes at either end. |
| `SipAuth.SIPAuthenticator.Authenticate` | pkg/auth/sip_auth.go:137-247 | Succeeds exactly when the header is complete, the user is enabled, the nonce is known, of that address, below the count presented and at most the timeout old at the commit, and the digest agrees; success moves one count to the presented value; failure, apart from the unused nonce of its challenge, keeps every count, removes only expired nonces and adds nothing. |
| `RtpState.RTPStateManager.RegisterStream` | pkg/cluster/rtp_state.go:120-148 | The stream is cached active and under this node's ID, otherwise as given, even when replication fails or loses its answer; a missing call ID changes nothing. |
| `RtpState.RTPStateManager.UnregisterStream` | pkg/cluster/rtp_state.go:219-244 | The local copy goes, and so does the shared record, whoever wrote it, if the delete is done. |
| `RtpState.RTPStateManager.GetStream` | pkg/cluster/rtp_state.go:247-276 | The local cache wins over the shared record. |
| `RtpState.RTPStateManager.InitiateMigration` | pkg/cluster/rtp_state.go:344-371 | Only a cached stream is marked as migrating to the target, its other fields kept, locally and, if the write succeeds, in the shared record. |
| `RtpState.RTPStateManager.CompleteMigration` | pkg/cluster/rtp_state.go:374-399 | Field by field: call, media and both ports as given, this node's ID, active, no migration target; cached also when the shared record cannot be written. |
| `StreamMigration.MoveKeeps` | pkg/cluster/stream_migration.go:187-261 | Every operation keeps all copies of a task about the same migration, announces only what it stored, stores only the migrated stream, and drops the source's copy only after an announcement. |
| `StreamMigration.TaskStepKeepsInv` | pkg/cluster/stream_migration.go:187-545 | Every operation of every task keeps the handover invariant for all calls. |
| `StreamMigration.CreateIff` | pkg/cluster/stream_migration.go:134-184 | Saving the record of a migration, whatever happened since its stream was read, keeps the invariant exactly when it goes to another node, one of the two caches the call, and no other migration of the call is in progress. |
| `StreamMigration.EndCallIff` | pkg/cluster/rtp_state.go:219-244 | Ending a call keeps the invariant exactly when it does not take the copy that a migration in progress relies on. |
| `StreamMigration.ComesBackIff` | pkg/cluster/stream_migration.go:223-232 | A call that no node caches is cached again exactly by registering it anew or by an accept of one of its migrations that has come to storing the stream. |
| `StreamMigration.StaysGoneIff` | pkg/cluster/stream_migration.go:187-261 | In any run a call that is gone stays gone exactly when no step of the run does either. |
| `StreamMigration.EndedForGood` | pkg/cluster/stream_migration.go:134-545 | A call that no node caches, with no shared record and no migration in progress, never comes back in any run that does not register it anew. |
| `StreamMigration.EndedCallComesBack` | pkg/cluster/stream_migration.go:217-232 | In every cluster a call that ends at the only node that has it while it is being migrated can come back at the target. |
| `StreamMigration.SoundRunIff` | pkg/cluster/stream_migration.go:134-545 | All states of a run satisfy the invariant exactly when all its steps meet these conditions. |
| `StreamMigration.NeverLost` | pkg/cluster/stream_migration.go:187-463 | In every interleaving of pops, deliveries, losses, accepts, failures and retries a call whose migration is in progress is cached at source or target, and every cached stream names the node that caches it. |
| `StreamMigration.NeverForgotten` | pkg/cluster/stream_migration.go:187-463 | In every such run a call cached anywhere stays cached somewhere until it ends, through any number of migrations, in progress or over. |
| `StreamMigration.TargetAdoptsSnapshot` | pkg/cluster/stream_migration.go:223-232 | However many retries it took, the target caches the stream as it was when the migration was requested, under its own node ID and the new ports. |
| `StreamMigration.TargetUsesItsPorts` | pkg/cluster/stream_migration.go:204-232 | In every sound run the stream the target caches has the call and media of the snapshot, the target's ID, active status, no migration target, and as RTP and RTCP port the numbers that the handler of that very accept answered. |
| `StreamMigration.PortsFollowHandle` | pkg/cluster/stream_migration.go:204-217 | In any run an accept keeps, from its handler's answer on, the two ports of that answer. |
| `StreamMigration.StoreWasHandled` | pkg/cluster/stream_migration.go:204-232 | In any run every accept that gets to storing the stream has had such an answer, with the ports it stores. |
| `StreamMigration.CacheWriters` | pkg/cluster/stream_migration.go:187-503 | What one step of any kind can leave in a cache: the stream that was there, or exactly what registering, updating, marking or accepting writes, field by field. |
| `StreamMigration.EffectOf` | pkg/cluster/stream_migration.go:187-503 | Which operation at which stage has which effect on caches and shared records, with the streams written. |
| `StreamMigration.ClosingForgetsSharedRecord` | pkg/cluster/stream_migration.go:452-452 | After the source's clean-up the call has a shared record exactly when it had one and the delete failed, although the target holds the stream; the target's next sync puts it back. |
| `StreamMigration.ClosingLosesIff` | pkg/cluster/stream_migration.go:419-452 | Dropping the source's copy leaves the call in neither cache exactly when source and target are one node or the target does not have it. |
| `StreamMigration.SelfMigrationRun` | pkg/cluster/stream_migration.go:134-184 | In every cluster a node that migrates a call to itself can lose it. |
| `StreamMigration.BoundedIff` | pkg/cluster/stream_migration.go:466-503 | An operation keeps the accept bound exactly when it does not lose the retry count. |
| `StreamMigration.AcceptsAreBounded` | pkg/cluster/stream_migration.go:466-545 | In every run in which retry counts are saved no task is accepted more than four times. |
| `StreamMigration.RetriesUsedUp` | pkg/cluster/stream_migration.go:466-503 | The bound is reached: a task that the target always refuses is accepted four times and then given up, with three retries on its record. |
| `StreamMigration.UncountedRetriesNeverEnd` | pkg/cluster/stream_migration.go:477-481 | When those writes fail a task can be accepted any number of times. |
| `StreamMigration.AcceptAlone` | pkg/cluster/stream_migration.go:187-261 | Run to its end, the step machine of an accept leaves one event and the record of the last write that succeeded, as stated for AcceptMigration, each write failing on its own. |
| `StreamMigration.RetryAlone` | pkg/cluster/stream_migration.go:466-486 | Run to its end, the step machine of a failed event leaves the record and queue stated for HandleOutgoingMigrationFailed. |
| `StreamMigration.RetryGivesUp` | pkg/cluster/stream_migration.go:487-503 | With three retries used, the step machine of a failed event marks the record failed, queues nothing, and restores the shared record as an active stream. |
| `StreamMigration.TaskRun` | pkg/cluster/stream_migration.go:134-545 | In every run of the cluster, whatever else happens, a migration is where its own operations alone take it. |
| `StreamMigration.StreamMigrationManager.InitiateMigration` | pkg/cluster/stream_migration.go:134-184 | Record, queue, pending map, cache and shared record for every fate of the three writes; a task that could not be queued stays recorded and pending, and one whose push lost its answer goes ahead although an error is reported. |
| `StreamMigration.StreamMigrationManager.AcceptMigration` | pkg/cluster/stream_migration.go:187-261 | The outcome is published exactly once; the cache gets the stream, with the fields stated for TargetUsesItsPorts, exactly when the handler agreed, even if the shared write then fails or loses its answer; the migration record is that of the last write that succeeded. |
| `StreamMigration.StreamMigrationManager.HandleOutgoingMigrationComplete` | pkg/cluster/stream_migration.go:441-463 | The call leaves the cache, the shared records and the pending map, only when the migration record can be read. |
| `StreamMigration.StreamMigrationManager.HandleOutgoingMigrationFailed` | pkg/cluster/stream_migration.go:466-503 | One more retry is recorded and queued below three; otherwise the migration fails and the shared record is restored; the local copy stays either way. |
| `StreamMigration.StreamMigrationManager.HandleMigrationEvent` | pkg/cluster/stream_migration.go:392-427 | Caches, shared records, queue and pending map for every event: a stream leaves this node's cache only on the completion of a migration it is the source of, and retries happen only on the failure of one. |
| `StreamMigration.StreamMigrationManager.ProcessQueue` | pkg/cluster/stream_migration.go:506-545 | The head of the queue is accepted here when targeted here, passed on as an event otherwise, and lost when the answer is. |
| `SplitBrain.ReachableIff` | pkg/cluster/split_brain.go:246-266 | A node is reachable exactly when a listed key parses and its last heartbeat is less than twice the timeout ago; all keys count exactly when all do. |
| `SplitBrain.PartitionedIff` | pkg/cluster/split_brain.go:171-231 | After every run the node is partitioned exactly when from some earlier check on every check reached fewer nodes than MinQuorum and the last one came more than the grace period after it; the first check that reaches MinQuorum clears it. |
| `SplitBrain.NotificationsAlternate` | pkg/cluster/split_brain.go:209-226 | In every run notifications strictly alternate, starting with a detection, and the last one is the state. |
| `SplitBrain.FencedIff` | pkg/cluster/split_brain.go:332-351 | With fencing on, the node is fenced exactly while it is partitioned and no more than 3600 seconds have passed since it was declared. |
| `SplitBrain.FenceRunsOut` | pkg/cluster/split_brain.go:332-340 | A partition that outlasts the key leaves the node unfenced, however often it is checked. |
| `SplitBrain.SplitBrainDetector.CheckNodes` | pkg/cluster/split_brain.go:234-267 | The loop collects exactly the live nodes, in order; without any key the node sees only itself. |
| `SplitBrain.SplitBrainDetector.HandlePartition` | pkg/cluster/split_brain.go:270-300 | One notification; the fence is set for an hour on detection and removed on recovery, only with fencing on. |
| `SplitBrain.SplitBrainDetector.DetectOnce` | pkg/cluster/split_brain.go:186-228 | One tick changes the detector as the tick function says; a failed listing changes nothing. |
| `ChannelMixing.DecodeEncoded` | pkg/audio/multi_channel.go:106-109 | Decoding the two bytes of any 16-bit sample gives the sample, negative ones included. |
| `ChannelMixing.EncodeDecoded` | pkg/audio/multi_channel.go:91-91 | Encoding a decoded sample gives back its two bytes. |
| `ChannelMixing.DecodeIsSigned` | pkg/audio/multi_channel.go:91-91 | Little endian and signed: low byte plus 256 times the high byte taken as -128 to 127. |
| `ChannelMixing.MixedDecodes` | pkg/audio/multi_channel.go:83-110 | Every mono sample decodes to the truncated-toward-zero average of its frame and lies within any bounds on the frame, so the clamp never fires. |
| `ChannelMixing.MonoRises` | pkg/audio/multi_channel.go:83-110 | Every channel counts the same: raising any one of the c samples of a frame by c * d raises its mono sample by d, or by d - 1 where the sum crosses zero. |
| `ChannelMixing.SumChanges` | pkg/audio/multi_channel.go:87-94 | Whatever one sample of a frame changes by, the frame's sum does, for every channel. |
| `ChannelMixing.SilentFrame` | pkg/audio/multi_channel.go:87-94 | A frame of zeros sums to zero. |
| `ChannelMixing.MonoRoundsToZero` | pkg/audio/multi_channel.go:96-97 | The mono sample m of c channels has the sign of their sum s or is 0, and c * abs(m) <= abs(s) < c * (abs(m) + 1). |
| `ChannelMixing.MonoOfStereo` | pkg/audio/multi_channel.go:83-110 | For two channels, byte by byte: twice the mono sample is the sum of the two, or one less in magnitude. |
| `ChannelMixing.MergeOfSplit` | pkg/audio/multi_channel.go:116-191 | Merging the split of any data returns it truncated to whole frames, for any channel count. |
| `ChannelMixing.SplitOfMergeChannel` | pkg/audio/multi_channel.go:116-191 | Splitting a merge returns of each channel as much as the shortest one has samples. |
| `ChannelMixing.SplitOfMergeIff` | pkg/audio/multi_channel.go:116-191 | Splitting a merge returns the channels exactly when they all have the same even number of bytes. |
| `ChannelMixing.SplitBytes` | pkg/audio/multi_channel.go:132-141 | Sample i of channel ch is, byte by byte, sample i * c + ch of the interleaved data. |
| `ChannelMixing.MergeBytes` | pkg/audio/multi_channel.go:176-188 | And the same for merging. |
| `ChannelMixing.ChannelMixer.constructor` | pkg/audio/multi_channel.go:24-43 | At least one channel, each with a buffer of its own. |
| `ChannelMixing.ChannelMixer.Process` | pkg/audio/multi_channel.go:46-66 | Mono mix in the mix buffer when mixing several channels, the caller's own input otherwise. |
| `ChannelMixing.ChannelMixer.MixFrame` | pkg/audio/multi_channel.go:84-104 | Sum, division and clamp over one frame give its average; no index is out of range. |
| `ChannelMixing.ChannelMixer.MixToMono` | pkg/audio/multi_channel.go:69-113 | The slice returned is the mix buffer and holds the mix of the data, whatever it held before; the buffer is replaced exactly when it is too small. |
| `ChannelMixing.ChannelMixer.GrowBuffers` | pkg/audio/multi_channel.go:123-128 | Every channel buffer is large enough afterwards, none is shared, and each is replaced exactly when it was too small. |
| `ChannelMixing.ChannelMixer.CopyFrame` | pkg/audio/multi_channel.go:132-141 | One frame's samples land in their channels' next slots and earlier slots are kept. |
| `ChannelMixing.ChannelMixer.SplitChannels` | pkg/audio/multi_channel.go:116-151 | The slices returned are the channel buffers and hold the split of the data, whatever earlier calls left there; a later call overwrites them exactly when it needs no larger buffer. |
| `ChannelMixing.ChannelMixer.MergeChannels` | pkg/audio/multi_channel.go:154-191 | An error on a wrong channel count, otherwise the interleaving of as many samples as the shortest channel has. |
| `ChannelMixing.ChannelMixer.Interleave` | pkg/audio/multi_channel.go:172-190 | The nested loops fill the output with exactly the merge. |
| `AuditChain.ChainIsLinked` | pkg/compliance/audit_chain.go:34-69 | After any successful and failed appends the records are a linked chain of exactly the successful payloads, and lastHash is the last one's hash. |
| `AuditChain.LastHashDeterminesChain` | pkg/compliance/audit_chain.go:71-87 | Two chains from the empty hash with the same last hash are identical. |
| `AuditChain.TamperEvident` | pkg/compliance/audit_chain.go:34-87 | Any well-linked list from the empty hash that ends in the writer's lastHash is the file. |
| `AuditChain.ReopenedIff` | pkg/compliance/audit_chain.go:21-23 | A new writer on an existing file leaves one chain exactly when the file was empty or nothing is appended. |
| `AuditChain.AuditChainWriter.constructor` | pkg/compliance/audit_chain.go:21-23 | A new writer starts from the empty hash whatever the file holds. |
| `AuditChain.AuditChainWriter.Append` | pkg/compliance/audit_chain.go:34-69 | The hash moves on exactly when the record reached the file; a failed attempt changes neither. |
| `DnsRdata.AtoiOfItoa` | pkg/backup/dns_rdata.go:42-44 | Every 64-bit integer, negative ones included, prints as one word that reads back. |
| `DnsRdata.HostField` | pkg/backup/dns_rdata.go:14-19 | A host name comes back from its field exactly when it has no white space and no trailing dot. |
| `DnsRdata.MXRoundTrip` | pkg/backup/dns_rdata.go:67-74 | Value and priority of an MX record survive exactly when its host has no white space and no trailing dot. |
| `DnsRdata.SRVRoundTrip` | pkg/backup/dns_rdata.go:75-87 | Value, priority, weight and port of an SRV record survive exactly under that condition. |
| `DnsRdata.FormatWords` | pkg/backup/dns_rdata.go:35-54 | The words of a printed MX or SRV record are, in this order, priority, weight, port and dotted target, or preference and dotted exchange. |
| `DnsRdata.ZoneFileLines` | pkg/backup/dns_rdata.go:35-54 | Two records as they stand in a zone file, character by character. |
| `DnsRdata.RoundTripIff` | pkg/backup/dns_rdata.go:35-97 | For every supported type, printing and parsing returns the same record exactly when a condition on the record holds that can be read off its fields. |
| `DnsRdata.LostRecords` | pkg/backup/dns_rdata.go:35-97 | A fully qualified target loses its dot, and a mail host with a space is lost. |

## Left out

- Floating point: failure rates and burst factors are real numbers; float64 rounding is not modelled.
- Lua numbers: nanosecond scores are exact integers here; Redis stores them as doubles, and renders members from them.
- RateLimiting.RefinesNaiveIff: stated for windows of at least a millisecond; the constructor replaces a zero window by its default.
- Limiter windows with a fraction of a millisecond, for which the key's lifetime is shorter than the window.
- The limiter's bandwidth check, block list and statistics, which would only add easy members.
- Metrics of concurrent calls: AllowCall and AllowCallWithUser are stated for one call at a time.
- Counter widths: counters are unbounded integers, except for the backoff product and nonce counts.
- Reporting-only fields (last failure time, window start, error texts) and log output.
- Callbacks run in goroutines; only the order in which they are started is modelled.
- LeaderElection.Manager.SetLeaderStatus: alternation is stated for calls that do not overlap; the source sends the notification after releasing the mutex, so an election loop and a forced release that overlap can start their notifications in the other order.
- Node registration, heartbeats and node listing of the cluster manager.
- SipAuth.SIPAuthenticator.Authenticate: MD5 and the random source are parameters, and a challenge is only whether one was issued.
- IP access lists, adding, removing and disabling users, and the unused validateNonce.
- CancelMigration, which is a separate read-modify-write of a migration record.
- The order of the migration queue in the cluster theorems: entries are taken in any order there; ProcessQueue takes the head.
- Updates pushed to other nodes' subscribers by the RTP state manager.
- Partition event records, the global partition key, ForceQuorumCheck, and fence writes that fail or survive a restart.
- A caller that passes a buffer of the mixer back to it as input: input is given by its bytes.
- Audit records written in part before an error, and the JSON and SHA-256 of a record, which are one function here.
- strconv.Quote and strconv.Unquote, which are parameters with two laws; the TTL fallback of DNS records.
- Configuration loading, command line, cloud and database clients, alerting, signal processing with floating point, tracing.
