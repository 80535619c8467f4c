# Admission control, verified

A Dafny model of the rate limiter and LLM admission gateway, with proofs of
what its Redis scripts and its matchers promise over whole runs. Everything is
checked by

    dafny verify dfyconfig.toml

## What is modelled

**The LLM admission protocol** (`admission*.dfy`, `estimator.dfy`,
`lease_index.dfy`, `budgets.dfy`). For one tenant and model, `Admission.Db`
holds every Redis key with the instant it expires: the token and request
balances, the lease set and the hold table, the statistics and one marker per
settled reservation. A script runs to completion in Redis, so any number of
gateway replicas is one sequence of atomic steps: reserve, commit (a release is
a commit of nothing, a replay a commit whose marker is still there), snapshot,
and the passing of time. `Admission.Step` is that step relation, and every
theorem about runs quantifies over all sequences of its events.
`AdmissionStore.Store` is the scripts as they execute, command by command, with
the sweep as a loop; each method is proved to be exactly one step.

**The three generic limiters** (`token_bucket.dfy`, `sliding_window.dfy`,
`fixed_window.dfy`): the compact stored state of each against the full history
of requests.

**The pattern matcher and the policy resolver** (`glob.dfy`,
`quantifier_scan.dfy`, `pattern_cache.dfy`, `policy_resolver.dfy`,
`policy_writes.dfy`): the printer
from globs to regular expressions, the scanner that rejects nested quantifiers,
the shared bounded cache and the per-pair memo.

### Conventions

- Balances are counted in grains: 1/60000 of a token or request, so a budget of
  `limit` per minute accrues exactly `limit` grains per millisecond. For the
  token bucket a grain is 1/(1000 * windowSeconds) of a token. Averages are
  reals. Arithmetic is exact.
- `now` is the clock of the gateway that makes a call and may go backwards from
  one call to the next; `clock` is the clock of Redis, which alone expires keys.
  A theorem says which it needs: nothing, calls in time order (`Ordered`), calls
  that do not come back to a window (`Advancing`, `NoReturn`), a bounded skew
  (`Skewed`), or one clock (`Synced`). The three generic limiters use one clock
  for both, except where a bound is stated over forward movement.
- A key with deadline `d` is gone once the Redis clock reaches `d`. A balance
  key and its timestamp key are always written by the same script with the same
  lifetime, so they are one `Bucket`.
- Reservation ids are numbers: UUIDs of one layout sort as the numbers they
  spell. Theorems that need it assume fresh ids (`FreshIds`).
- The output average that sizes a hold is read before the reserve script runs.
  The event carries the value read, so it may be stale by any number of steps.
- A policy is fixed over a run. Its ranges are those the route schemas accept
  (`src/routes/admission.routes.ts:50-62`); the idempotency horizon is a
  positive number of seconds.
- Text is a sequence of UTF-16 code units. The regular-expression engine is a
  parameter.

## Where code and documentation part

- Debt and key lifetime. Budget keys are said to outlive the longest lease so
  that no balance silently resets (`src/llm/admission.service.ts:66-69`). They
  do (`AdmissionLifetimes.NothingLiveExpires`), but a debt deeper than
  `ttl - 60` seconds of refill is still open when the key goes, and is forgiven:
  `AdmissionLifetimes.PaidOffExactly` and `AdmissionLifetimes.ForgivenExactly`
  give the exact depth, `AdmissionLifetimes.DeepDebtIsForgiven` a run for every
  policy, and `AdmissionLifetimes.ExpiryIsNaturalRefill` shows expiry invisible
  otherwise.
- Idempotency. Commit is called idempotent (`API.md:90`). It is so exactly until
  its marker expires: `AdmissionSettlement.ReplayIgnoredWithinHorizon`.
- A hold that nobody takes back. Holds are returned by a sweep or a commit
  (`src/llm/admission-scripts.ts:55-64`, `196-207`), but after a whole key
  lifetime without a reserve call Redis drops the table and returns nothing.
  `AdmissionSettlement.ExactlyOnce` holds without that silence. Usually the
  budget key goes with the table and nothing is missed; when commits keep it
  alive, `AdmissionLifetimes.SilenceLosesTokens` shows the stored balance short
  of the hold after exactly that silence.
- `worst_case` is said never to overrun (`API.md:203`). It holds for clients that
  settle before the lease ends, less twice the skew of the gateway clocks, and
  within their declaration (`AdmissionPunctual.PunctualSpendBound`); from there
  on it fails (`AdmissionPunctual.LeaseIsExact`,
  `AdmissionPunctual.LateCommitOverruns`). The spend bound itself needs clocks
  that differ by little enough, exactly: `AdmissionSpend.SpendBoundExactly`.
- The fixed window is said to permit up to twice the limit (`API.md:265`). That
  needs calls that do not come back to a window after one in a later window, whose
  counter has then gone: `FixedWindow.ReturnBreaksTheBound`.
- The sliding window's delay is exact under one limit. After the limit is lowered
  it can be too short, for every pair of limits
  (`SlidingWindow.LoweredDelayIsTooShort`), and
  `SlidingWindow.RetryAfterAfterLowering` says exactly when.
- Glob wildcards stop at line terminators, because `.` does:
  `Glob.FaithfulExactlyOnOneLine` says for which values that matters.
- Resolver cache keys are joined with NUL so that no two pairs share one
  (`src/llm/policy.resolver.ts:29-32`). Pairs with a NUL inside a name still can
  (`PolicyResolver.SharedKeyExactlyWithNul`). Of the names the routes accept,
  exactly those with a NUL that has something before and behind it can be served
  another pair's terms (`PolicyResolver.WrongTermsExactlyWhenAmbiguous`).
- A policy write is said to take effect now rather than after the 30 seconds a
  set lives (`API.md:207-208`, `src/routes/admission.routes.ts:179-181`). A load
  in flight that read the table before the write undoes the invalidation when it
  returns, and the old policies serve another 30 seconds:
  `PolicyWrites.WriteTakesEffectExactly`, `PolicyWrites.LostDrop`.

## Model

| member | source | states |
|---|---|---|
| AdmissionStore.Store.Sweep | src/llm/admission-scripts.ts:50-64 | The sweep loop removes exactly the first 32 leases that are due, with their holds, and counts their tokens. |
| AdmissionStore.Store.Refresh | src/llm/admission-scripts.ts:50-77 | Sweep and refill come before any decision and touch only leases and holds. |
| AdmissionStore.Store.Admit | src/llm/admission-scripts.ts:29-132 | The admission script is one reserve step: same keys afterwards, same reply. |
| AdmissionStore.Store.TakeHold | src/llm/admission-scripts.ts:196-207 | A commit takes back the hold if the sweep has not, and otherwise is late. |
| AdmissionStore.Store.Settle | src/llm/admission-scripts.ts:157-250 | The commit script is one commit step, replays included. |
| AdmissionStore.ReserveCall | src/llm/admission.service.ts:74-106 | A reserve call reads the output average and then runs the script: with nothing in between, one reserve step sized from the average as it stands. |
| AdmissionStore.Attempt.Finish | src/llm/admission.service.ts:81-106 | The script half of a reserve call, at whatever state other gateways have left by then: one reserve step for a hold sized from the earlier read. |
| AdmissionStore.CommitCall | src/llm/admission.service.ts:163-190 | A commit call settles prompt plus output in one step. |
| AdmissionStore.ReleaseCall | src/llm/admission.service.ts:225-235 | A release is a commit of nothing. |
| Admission.RunInv | src/llm/admission-scripts.ts:56-125 | In every run: leases and holds name the same ids, in-flight work is at most concurrency plus queue, the token balance never exceeds its limit, the request balance stays between zero and its limit. |
| LeaseIndex.DueByRank | src/llm/admission-scripts.ts:55 | A due lease is in the batch if and only if fewer than 32 leases sort before it. |
| LeaseIndex.SweepCount | src/llm/admission-scripts.ts:55-64 | A sweep shrinks the lease set by the due leases, a batch at most. |
| LeaseIndex.TotalSweep | src/llm/admission-scripts.ts:55-64 | The tokens counted as reclaimed are the tokens that left the hold table. |
| AdmissionLedger.Conservation | src/llm/admission-scripts.ts:54-123 | Over every run, balance plus holds plus losses equals what there was plus accrual and forgiven debt minus first-commit usage. |
| AdmissionLedger.ConservationFromEmpty | src/llm/admission-scripts.ts:54-76 | The same from a fresh tenant, who starts with one full limit. |
| AdmissionLedger.LedgerNeverDecreases | src/llm/admission-scripts.ts:196-228 | No entry of the ledger, clamp losses in particular, ever goes down as a run goes on. |
| AdmissionBounds.DebtBound | src/llm/admission-scripts.ts:196-224 | Debt never exceeds the sum of all overruns so far, a late commit counting its whole usage. |
| AdmissionBounds.DebtSinceAdmission | src/llm/admission-scripts.ts:91-112 | An admission settles all debt: at any later point of the run the debt is at most the overruns since the last admission. |
| AdmissionBounds.AccruedWithinForward | src/llm/admission-scripts.ts:69-74 | All accrual is paid for by forward movement of the gateway clocks, however they jump. |
| AdmissionBounds.HonestNeverInDebt | src/llm/admission-scripts.ts:218-224 | With worst-case holds, commits that find their hold and keep to their declaration never cause debt or overruns. |
| AdmissionSpend.SpendBound | src/llm/estimator.ts:30-34 | With gateway clocks that jump within a skew of the Redis clock and keys that expire, an honest worst-case tenant is never in debt and is charged at most one limit plus the rate times forward clock movement, for any number of replicas. |
| AdmissionSpend.SpendBoundExactly | src/llm/admission.service.ts:70-72 | Every such run stays within that bound if and only if a key lifetime is at least a minute longer than twice the skew. |
| AdmissionBounds.SpendWithinRate | src/llm/admission-scripts.ts:66-76 | Under one clock, what is readable, held and charged after a run is covered by what there was plus the rate times the time that passed, key expiry included. |
| AdmissionSpend.SpendBoundInSync | src/llm/admission-scripts.ts:97-112 | Under one clock, at most one limit plus the rate times the time that passed. |
| AdmissionSpend.RequestRateBound | src/llm/admission-scripts.ts:94-112 | Requests admitted, by any tenant and under the same skew, are at most one minute's limit plus the rate times forward clock movement. |
| AdmissionSpend.RequestRateBoundInSync | src/llm/admission-scripts.ts:94-112 | Under one clock, plus the rate times the time that passed. |
| AdmissionPunctual.PunctualIsHonest | src/llm/admission-scripts.ts:188-207 | Committing before the lease ends, within the declaration, and retrying within the horizon, each with twice the skew to spare, is enough for the hold or the marker to be there. |
| AdmissionPunctual.PunctualSpendBound | API.md:203 | The spend bound from conditions a caller controls, with clocks that differ. |
| AdmissionPunctual.LeaseProtectsItsHold | src/llm/admission-scripts.ts:113-114 | A commit less than one lease, shortened by twice the skew, after its grant finds exactly the tokens held, whatever happened in between. |
| AdmissionPunctual.LateCommitOverruns | API.md:203 | For every policy, delay and skew, a grant, another call after the delay and then a commit within its declaration overrun if and only if the delay and twice the skew make a lease or more. |
| AdmissionPunctual.LeaseIsExact | src/llm/admission-scripts.ts:113-114 | Every first commit of every grant in every fresh run with clocks within the skew is answered in full after a given delay if and only if the delay is shorter than a lease less twice the skew. |
| AdmissionSettlement.ReturnedAtMostOnce | src/llm/admission-scripts.ts:55-64 | In every interleaving a hold is returned at most once, by a sweep or by its commit. |
| AdmissionSettlement.ReservationAccount | src/llm/admission-scripts.ts:196-224 | Over any run, what a reservation gave and took balances with what it still holds and what it used. |
| AdmissionSettlement.MarkerHolds | src/llm/admission-scripts.ts:188-194 | While the marker lives every further commit is answered as a duplicate with the recorded refund and charges nothing. |
| AdmissionSettlement.ReplayIgnoredWithinHorizon | src/llm/admission-scripts.ts:228 | A second commit is ignored, and answered with the refund of the first, if and only if less than the idempotency horizon has passed; otherwise it is charged again. |
| AdmissionSettlement.ExactlyOnce | src/llm/admission-scripts.ts:188-228 | As long as reserve calls keep coming until the first commit, a reservation's net effect on its tenant is minus that commit's usage, swept first or not, and the hold never comes back. |
| AdmissionSettlement.ExactlyOnceWhenPrompt | src/llm/admission-scripts.ts:188-228 | In particular whenever the first commit comes less than one key lifetime of the Redis clock after the grant. |
| AdmissionSettlement.AttendedIsKept | src/llm/admission-scripts.ts:124-125 | A hold is not dropped with the lease table while no stretch without a reserve call lasts a whole key lifetime. |
| AdmissionSettlement.SilenceLosesTheHold | src/llm/admission-scripts.ts:124-125 | For every policy and delay, the account of a grant, silence and its commit nets to minus the usage if and only if the silence is shorter than the key lifetime. |
| AdmissionSettlement.SweepThenCommit | src/llm/admission-scripts.ts:198-224 | A sweep that beats the commit never leaves more than the commit alone, and leaves as much exactly when no clamp bites, nothing was swept or there was nothing to settle. |
| AdmissionSettlement.ReleaseReturnsTheHold | src/llm/admission.service.ts:225-235 | A release refunds the whole hold, charges nothing, frees the lease and leaves holds of others, requests and statistics alone. |
| AdmissionReads.Erasure | src/llm/admission-scripts.ts:188-194 | Taking all snapshots and live replays out of a run changes no other reply and not the final state. |
| AdmissionReads.SnapshotPredictsReserve | src/llm/admission-scripts.ts:259-268 | With nothing to sweep, a snapshot at the same instant decides the reserve from its own fields, up to a deadline that falls between the waits of its service time rounded down and up; the budgets are the shown ones less the grant. |
| AdmissionReads.SnapshotPredictsSweep | src/llm/admission-scripts.ts:269 | The next admission call sweeps what a snapshot counts as expired, 32 at most, and the snapshot after it counts the rest. |
| AdmissionReads.SnapshotPredictsCommit | src/llm/admission-scripts.ts:173-194 | A commit settles against the balance a snapshot shows; a replay reports it. |
| AdmissionReads.ReserveReports | src/llm/admission-scripts.ts:50-132 | Every reserve reply, sweeps included: its budgets are those shown before, plus the tokens that left the hold table, at most the limit, less exactly the grant, and the next snapshot shows the same; the hold it reports is the one stored. |
| AdmissionReads.SnapshotAccrues | src/llm/admission-scripts.ts:259-266 | Budgets nobody touches grow by their limit every minute, as shown, up to the limit. |
| AdmissionReads.FreshSnapshot | src/llm/admission-scripts.ts:258-274 | A tenant nobody has seen shows full budgets, nothing in flight, two seconds of service time and no statistics. |
| AdmissionTiming.PollingInvariance | src/llm/admission-scripts.ts:66-76 | While the budget key exists and does not expire, however many calls are shed in time order, the balance is start plus rate times elapsed plus everything reclaimed, clamped once: the effective rate does not depend on call frequency. |
| AdmissionTiming.TpmRetryIsSound | src/llm/admission-scripts.ts:97-99 | After a token shed, if only shed calls and commits within their holds intervene, a retry at the advertised time is not shed for tokens. |
| AdmissionTiming.TpmRetryIsLeast | src/llm/admission-scripts.ts:97-99 | With nothing in between and no lease falling due, no earlier retry succeeds. |
| AdmissionTiming.RpmRetryIsSound | src/llm/admission-scripts.ts:94-96 | The same for requests, whatever is committed meanwhile. |
| AdmissionTiming.RpmRetryIsLeast | src/llm/admission-scripts.ts:94-96 | And no earlier retry of a satisfiable request is spared. |
| AdmissionTiming.RetryAfterUnlessUnsatisfiable | src/llm/admission.service.ts:150-153 | A shed reply carries Retry-After exactly when the request fits the whole budget, and its seconds cover the script's milliseconds. |
| AdmissionLiveness.AbandonedIsSwept | src/llm/admission-scripts.ts:50-64 | An abandoned reservation with k leases in front of it is gone after ceil((k + 1) / 32) admission calls past its expiry, however many leases are added meanwhile. |
| AdmissionLiveness.RankFalls | src/llm/admission-scripts.ts:55-64 | Every admission call moves a due lease a whole batch forward, because new leases sort later. |
| AdmissionLiveness.NoLockout | src/llm/admission-scripts.ts:50-125 | From any state, any debt and any n leases, once leases have expired and budgets refilled, repeated attempts are admitted by attempt max(1, ceil(n / 32)), with or without a deadline. |
| AdmissionStats.ServiceIsAveraged | src/llm/admission-scripts.ts:230-238 | While the stats key lives, from the first sample on, the stored service average is the average of the first-commit service times, in order and each once. |
| AdmissionStats.OutputIsAveraged | src/llm/admission-scripts.ts:239-246 | While the stats key lives, from the first sample on, the stored output average and peak are the average and the greatest of the first-commit output lengths. |
| AdmissionStats.EwmaForgets | src/llm/admission.service.ts:23-24 | After k samples two different pasts differ by 0.8^k of what they did. |
| AdmissionStats.ServiceContained | src/llm/admission-scripts.ts:233-238 | The service average never leaves the range of its samples. |
| AdmissionStats.OutputContained | src/llm/admission-scripts.ts:239-246 | The output average never leaves the range of its samples nor exceeds the peak. |
| AdmissionStats.HoldsSized | src/llm/estimator.ts:38-52 | However stale the read, a hold lies between prompt plus one and the declaration, and unless it is the declaration, between what the least and the greatest sample would hold. |
| AdmissionStats.CallHolds | src/llm/admission.service.ts:274-284 | What a reserve call holds, from the calls of the run alone: an adaptive tenant holds the prompt and its average first-commit output times the safety factor, rounded up, within one token and the declared output; every other holds the declaration. The store may change between read and script. |
| AdmissionStats.SnapshotShowsSamples | src/llm/admission-scripts.ts:270-273 | A snapshot shows the average service time and output of the first commits, rounded down, and the longest output; two seconds and zeros before there are any. |
| AdmissionStats.FirstTwoSamples | src/llm/admission-scripts.ts:233-246 | The first sample is the average, and the second enters it with a fifth of the weight. |
| AdmissionStats.StatsForgotten | src/llm/admission-scripts.ts:247 | After a commit and no other the statistics last exactly two leases and a minute, two minutes at least, and are then shown as unknown. |
| AdmissionStats.BusyRetryIsOneService | src/llm/admission-scripts.ts:100-108 | A request shed for a full queue or its deadline is told to wait one average service time of the run, rounded up. |
| AdmissionStats.WaitIsWholeBatches | src/llm/admission-scripts.ts:82-87 | Nobody waits while a slot is free; the last request of the k-th batch behind the running one waits k service times. |
| AdmissionStats.WaitIsLeast | src/llm/admission-scripts.ts:82-87 | The predicted wait is the least whole number of milliseconds that covers the service time times the requests ahead over the slots. |
| AdmissionStats.PredictedWaitBounded | src/llm/admission-scripts.ts:100-111 | An admitted request is predicted no longer wait than a full queue at the slowest pace seen, nor past its own deadline. |
| AdmissionLifetimes.NothingLiveExpires | src/llm/admission.service.ts:66-72 | No balance, lease or hold key expires while a lease is live on any clock within half a lease and thirty seconds of Redis. |
| AdmissionLifetimes.ExpiryIsNaturalRefill | src/llm/admission-scripts.ts:120-123 | As long as no debt is deeper than the lifetime pays off, runs with expiring budget keys give the replies of runs whose keys never expire. |
| AdmissionLifetimes.PaidOffExactly | src/llm/admission.service.ts:70-72 | A budget is full by the time its key goes if and only if its debt is at most ttl minus 60 seconds of refill, which is at least one limit. |
| AdmissionLifetimes.ForgivenExactly | src/llm/admission.service.ts:70-72 | At any clock, after any number of commits of the largest size the route accepts and one key lifetime of silence, the tenant reads a full budget; without expiry it would if and only if its debt was at most ttl minus 60 seconds of refill. |
| AdmissionLifetimes.DeepDebtIsForgiven | src/llm/admission-scripts.ts:226-227 | For every policy and at any clock there is a run of calls the routes accept after which the tenant reads a full budget although refill alone would leave it in debt. |
| AdmissionLifetimes.SilenceLosesTokens | src/llm/admission-scripts.ts:120-125 | When other usage keeps the budget key alive and below its limit, the stored balance ends one granted token short of the same calls settled in time, if and only if the grant was left without a reserve call for a whole key lifetime. |
| AdmissionLifetimes.SomeSilenceLosesTokens | src/llm/admission-scripts.ts:226-227 | For every policy there is such a run of calls the routes accept. |
| Estimator.HoldWithinDeclaration | src/llm/estimator.ts:30-52 | A hold never exceeds the declaration and always covers the prompt and one token; in worst-case mode and before anything is observed it is the declaration. The estimate says which of these it was. |
| Estimator.HoldMonotone | src/llm/estimator.ts:42-46 | A larger observation never holds less. |
| Estimator.HoldIsLeastCover | src/llm/estimator.ts:42-52 | The output held for is the least positive whole number covering the observation times the safety factor, or the declared ceiling if that is smaller. |
| Estimator.HoldCoversObserved | src/llm/estimator.ts:42-52 | An output no longer than the scaled observation fits its hold. |
| TokenBucket.Store.Check | src/scripts/lua-scripts.ts:36-69 | The script is one step on the keys that have not expired, and renews their lifetime. |
| TokenBucket.Store.Reset | src/algorithms/token-bucket.ts:53-55 | A reset drops both keys. |
| TokenBucket.RateBound | src/scripts/lua-scripts.ts:52-65 | Over any stretch of calls, what is granted and left is covered by what there was plus the rate times forward clock movement. |
| TokenBucket.ForwardIsElapsed | src/scripts/lua-scripts.ts:52 | In time order, forward movement is the time that passed. |
| TokenBucket.PollingInvariance | src/scripts/lua-scripts.ts:26-34 | Any number of rejected calls leaves every later reading as it was. |
| TokenBucket.RetryAfterIsLeast | src/scripts/lua-scripts.ts:57-62 | After a rejection and any further rejected calls, the same request is granted from now plus retryAfterMs on and no earlier. |
| TokenBucket.ResetAtIsLeast | src/scripts/lua-scripts.ts:67-68 | resetAtMs is the first instant at which the untouched bucket is full. |
| TokenBucket.RemainingIsSpendable | src/scripts/lua-scripts.ts:68 | remaining is the largest cost the next call may have. |
| TokenBucket.FreshCall | src/scripts/lua-scripts.ts:43-69 | With nothing stored a call is granted exactly up to the limit, leaves the rest, and its reset time is the least by which the window has earned what it took. |
| TokenBucket.TtlIsWindowPlusOne | src/algorithms/token-bucket.ts:33-36 | The key lifetime is the window plus one second. |
| TokenBucket.ExpiryIsInvisible | src/algorithms/token-bucket.ts:33-36 | Keys with that lifetime give the replies of keys that never expire, for calls in any order. |
| TokenBucket.FreshExpiryIsInvisible | src/scripts/lua-scripts.ts:45-50 | The same from a missing key. |
| TokenBucket.ExpiringRateBound | src/algorithms/token-bucket.ts:33-36 | The rate bound with expiring keys, for calls in any order. |
| SlidingWindow.Store.Check | src/scripts/lua-scripts.ts:86-110 | The script is one step on the set if it has not expired, and renews its lifetime. |
| SlidingWindow.RefinesFullLog | src/scripts/lua-scripts.ts:93-99 | Every reply is the verdict of the full unbounded log, and the set is exactly the history newer than one window. |
| SlidingWindow.EveryWindowBounded | src/scripts/lua-scripts.ts:82-84 | Every interval one window long, over the whole history, holds at most the limit. |
| SlidingWindow.RemainingIsExact | src/algorithms/sliding-window.ts:47-51 | remaining is exactly how many more calls at the same instant are admitted. |
| SlidingWindow.RejectionsLeaveNoTrace | src/scripts/lua-scripts.ts:82-84 | However many rejected calls there are, what any later call finds in the set is what it would have found without them. |
| SlidingWindow.RunWithinLimit | src/scripts/lua-scripts.ts:93-100 | Under one limit the set never outgrows it. |
| SlidingWindow.RetryAfterIsLeast | src/scripts/lua-scripts.ts:102-109 | After any calls under one limit, a rejection and further rejected calls, a call is granted from now plus retryAfterMs, which is resetAt, on and no earlier. |
| SlidingWindow.ResetAtIsLeast | src/scripts/lua-scripts.ts:96-100 | After calls in time order, an admission and any rejected calls, resetAt is the first instant at which no admission is left in the window. |
| SlidingWindow.ZeroLimitNeverGrants | src/scripts/lua-scripts.ts:102-109 | With a limit of zero every call is turned away for one whole window. |
| SlidingWindow.RetryAfterAfterLowering | src/scripts/lua-scripts.ts:102-109 | On any stored set, one left by a higher limit included, nothing is granted before the advertised time, and the delay is exact if and only if the oldest instant frees enough. |
| SlidingWindow.LoweredDelayIsTooShort | src/scripts/lua-scripts.ts:102-109 | For every lower limit some calls admitted under the higher one leave a set on which a call is rejected, and rejected again exactly when the reply said to come back. |
| SlidingWindow.ExpiryIsInvisible | src/scripts/lua-scripts.ts:98-108 | The expiry of the set never changes a reply. |
| FixedWindow.Store.Check | src/scripts/lua-scripts.ts:125-144 | The script is one step on the counter of the current window. |
| FixedWindow.Store.Reset | src/algorithms/fixed-window.ts:57-67 | A reset drops the counters of the current and the previous window and no other. |
| FixedWindow.CounterCountsWindow | src/algorithms/fixed-window.ts:22-28 | With counters that expire, a window that no call comes back to after one in a later window has a counter that counts exactly its admissions until it ends. |
| FixedWindow.AlignedWindowBounded | src/scripts/lua-scripts.ts:135-140 | Each such window admits at most the limit, whatever happens in the others. |
| FixedWindow.AnyWindowBounded | API.md:265 | Any interval one window long that lies in two such windows admits at most twice the limit. |
| FixedWindow.OrderedWindowsBounded | API.md:265 | Both bounds in every window and interval for calls in time order. |
| FixedWindow.ReturnBreaksTheBound | src/scripts/lua-scripts.ts:133-138 | When a call comes back to a full window after a call elsewhere, the window stays within its limit if and only if that other call was not in a later window. |
| FixedWindow.TwiceTheLimitIsAttained | API.md:265 | For every limit some run in time order attains that bound. |
| FixedWindow.RemainingIsExact | src/algorithms/fixed-window.ts:47-51 | remaining is exactly how many more calls at the same instant are admitted. |
| FixedWindow.RetryAfterIsLeast | src/scripts/lua-scripts.ts:131-143 | After any calls in time order, a rejection and further rejected calls, a call is granted from now plus retryAfterMs on, the end of the window, and no earlier. |
| FixedWindow.ResetAtIsLeast | src/scripts/lua-scripts.ts:131-143 | After calls in time order and one more, admitted or not, resetAt is the first instant at which the whole limit can be spent at once. |
| FixedWindow.ResetAtEndsTheWindow | src/scripts/lua-scripts.ts:131-143 | From any counters, resetAt is the next multiple of the window length and a rejection waits exactly until it. |
| FixedWindow.ExpiryIsInvisible | src/scripts/lua-scripts.ts:122-123 | Dropping each counter at the end of its window never changes a reply, as long as no call returns to that window. |
| Glob.SourceReadsBack | src/utils/pattern.ts:127-138 | For every pattern the printed source, read as a regular expression, is exactly the pattern's literals, any-char and any-string tokens. |
| Glob.SourceInjective | src/utils/pattern.ts:127-138 | Two patterns print to one source only if they are one pattern. |
| Glob.AcceptsIsMatches | src/utils/pattern.ts:107-114 | The anchored match is a direct recursive glob matcher whose wildcards stop at line terminators. |
| Glob.OneLineMatches | src/utils/pattern.ts:107-114 | On values without line terminators it is the plain glob matcher. |
| Glob.FaithfulExactlyOnOneLine | src/utils/pattern.ts:131-138 | Those are exactly the values on which every glob is matched faithfully. |
| Glob.MatchesItself | src/utils/pattern.ts:110 | The equality shortcut never disagrees with the glob. |
| QuantifierScan.ScanForQuantifier | src/utils/pattern.ts:47-59 | The scan loop computes its specification. |
| QuantifierScan.ScanForNesting | src/utils/pattern.ts:61-79 | The loop with its stack of open groups computes its specification. |
| QuantifierScan.ScanAgrees | src/utils/pattern.ts:28-34 | Scanning the text of a tree finds a quantifier or alternation exactly when the tree has one at any depth. |
| QuantifierScan.ScannerReadsTheTree | src/utils/pattern.ts:28-34 | The stack scanner reports exactly the trees with a quantified group whose body contains a quantifier or an alternation. |
| QuantifierScan.ScannerDecidesTexts | src/utils/pattern.ts:61-79 | The same for every text whose groups and classes are closed. |
| QuantifierScan.OneGroup | src/utils/pattern.ts:28-34 | A text with a single group is refused exactly when an unbounded quantifier follows the group and its body has one or an alternation, wherever they stand. |
| QuantifierScan.TreeOfPrinted | src/utils/pattern.ts:61-79 | Reading a text into a tree is the inverse of printing the tree. |
| PatternCache.KeysDistinct | src/utils/pattern.ts:88-92 | The two key namespaces never meet and neither folds two texts together. |
| PatternCache.Matcher.Remember | src/utils/pattern.ts:102-103 | The cache keeps at most 1000 entries, loses none before it is full, and every entry stays what an uncached compile would give, across clears. |
| PatternCache.Matcher.Compile | src/utils/pattern.ts:116-149 | Cached or not, compile answers as an uncached compile. |
| PatternCache.Matcher.CompileRaw | src/utils/pattern.ts:87-105 | Cached or not, a custom expression compiles as it would without a cache; what that answers is RawVerdictFromTree. |
| PatternCache.Matcher.MatchPattern | src/utils/pattern.ts:107-114 | In any cache state the verdict is the uncached one. |
| PatternCache.Matcher.MatchRegex | src/utils/pattern.ts:81-85 | In any cache state the verdict is the uncached one, on at most 256 units of the value. |
| PatternCache.RawVerdictFromTree | src/utils/pattern.ts:81-105 | The verdict of a custom expression from the tree of its text: nothing matches if some quantified group holds a quantifier or an alternation, whatever the engine; otherwise the engine decides on the first 256 units of the value, and an anchored glob expression matches what it accepts. |
| PatternCache.VerdictIsGlob | src/utils/pattern.ts:107-138 | With an engine that reads the glob fragment as written, the verdict on a wildcard pattern is the direct glob match. |
| PatternCache.VerdictIsEquality | src/utils/pattern.ts:107-114 | Without wildcards or delimiters only the exact text matches, and the empty pattern matches everything. |
| PatternCache.VerdictIsRegex | src/utils/pattern.ts:107-124 | The delimited form matches its own spelling and otherwise exactly what the engine finds between the slashes, nothing if that does not compile. |
| PatternCache.SomePatternSeparates | src/utils/pattern.ts:107-138 | With such an engine any two texts are told apart by some pattern. |
| PatternCache.ShapeVerdict | src/utils/pattern.ts:107-138 | Some glob of the same length matches a given text and no text of another length. |
| PolicyResolver.FindIsFirst | src/llm/policy.resolver.ts:36-38 | The policy found is the first that governs the pair, or none does. |
| PolicyResolver.CleanKeyIsUnique | src/llm/policy.resolver.ts:29-32 | A cache key made of names without NUL belongs to one pair. |
| PolicyResolver.SharedKeyExactlyWithNul | src/llm/policy.resolver.ts:29-32 | Over all texts, exactly the pairs with a NUL in one of them share their key with another pair. |
| PolicyResolver.RivalExactlyWhenAmbiguous | src/llm/policy.resolver.ts:29-32 | Over names that are not empty, exactly the pairs with a NUL that has something before and behind it share their key with another pair. |
| PolicyResolver.MemoIsCurrent | src/llm/policy.resolver.ts:55-76 | In every interleaving of lookups, loads, failed loads and invalidations each remembered entry is the answer of the policies last loaded for the pair it names. |
| PolicyResolver.MemoHoldsAsked | src/llm/policy.resolver.ts:56-84 | The memo holds exactly the keys asked about since the last load, failed load or invalidation. |
| PolicyResolver.EveryAnswerIsCurrent | src/llm/policy.resolver.ts:26-76 | So in every run a clean pair is answered by the first match, with its terms and scope, of the policies the last successful load brought; by the defaults if none matches or none has been loaded. |
| PolicyResolver.UnambiguousIsCurrent | src/llm/policy.resolver.ts:26-76 | Every pair of names that is not ambiguous is answered so in every run of the service. |
| PolicyResolver.WrongTermsExactlyWhenAmbiguous | src/llm/policy.resolver.ts:29-34 | With policies the table can store, lookups the routes let through and loads that were started, some run gives a pair another pair's terms if and only if one of its names has such a NUL. |
| PolicyResolver.FirstAskerDecides | src/llm/policy.resolver.ts:32-45 | Of two pairs that share a key not yet in the memo, the one asked about first decides for both. |
| PolicyResolver.OneLoadAtATime | src/llm/policy.resolver.ts:50-53 | A burst of concurrent refreshes is one query: in every run at most one load is in flight. |
| PolicyResolver.FreshUntil | src/llm/policy.resolver.ts:48-84 | In every run a set is used without waiting for exactly 30 seconds from the end of its last load, good or bad, and after an invalidation not at all past the first 30 seconds of the clock. |
| PolicyResolver.StaleIsLoaded | src/llm/policy.resolver.ts:49-53 | Whoever asks for a stale set starts its load if none is in flight and otherwise waits for it; then exactly one is. |
| PolicyResolver.Resolver.FindPolicy | src/llm/policy.resolver.ts:36-38 | The search loop finds the specified policy. |
| PolicyResolver.Resolver.Resolve | src/llm/policy.resolver.ts:26-46 | resolve is one lookup step on the stored fields. |
| PolicyWrites.WriteTakesEffectExactly | src/routes/admission.routes.ts:179-202 | After any run, once a write has invalidated the cache no later call goes on with other policies than the table's, in any interleaving without another write or a failed load, if and only if no load in flight had read the table as it was before. |
| PolicyWrites.LostDrop | src/llm/policy.resolver.ts:48-84 | If one had, the old policies are used for exactly 30 seconds from the moment it returns. |
| PolicyWrites.DropCanBeLost | src/llm/policy.resolver.ts:53-57 | For any old and new policies some run leads there. |
| PolicyWrites.AnswersAfterWrite | API.md:207-208 | A write that took effect is answered from: every later call that goes on gets the first match of the table as written. |

## Left out

- Floating point: rounding in Lua, `tostring` precision and JavaScript doubles. Balances and averages are exact here.
- Ids that collide: reservation UUIDs and sliding-window members (`src/algorithms/sliding-window.ts:8-9,40`) are taken as given and fresh; the process-local `sequence` counter is outside.
- Redis itself: one record holds a tenant's keys; script loading, EVALSHA, cluster slots and lost connections are not modelled. `AdmissionStore.Store` keeps that record in one field, updated command by command.
- Policies that change while leases are outstanding: every run has one policy.
- Two gateway clocks in the generic limiters' key lifetimes: expiry there is decided by the clock of the call.
- The cost check of the two window limiters (any cost but 1 is refused before the store is touched) and their `getStats`: one-branch logic.
- The general regular-expression engine: `/.../` patterns and custom expressions go to a parameter. Only the glob fragment has a meaning here.
- Texts with unbalanced parentheses or classes: the scanner's tree theorem does not speak about them; the RegExp constructor refuses them.
- The policy repository: a load delivers the policies as a sequence already in priority order.
- Retry-After for a full queue or an infeasible deadline: only its value is stated, since no time makes such a retry succeed for certain.
- Routes, validation, authentication, error handling, metrics, logging, the rule engine and configuration: plumbing with no hard property.
