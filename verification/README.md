# Night Scout execution engine: a verified model

Night Scout runs reconnaissance tasks through a durable engine: a task queue with
claim tokens and leases, a two-class budget ledger, shared token buckets, a
lifecycle that ties them together, a fair scheduler and a convergence controller
that decides how deep a branch is searched. This project models that engine in
Dafny 4.11 and proves what it promises over every input and every run.
`dafny verify dfyconfig.toml` checks all of it.

## How the model is built

| file | part of the engine |
|---|---|
| `Prelude.dfy`, `Sums.dfy` | options, results, exact time; sums over insertion-ordered dictionaries |
| `Tasks.dfy`, `TaskRuns.dfy` | task records, their transitions, and the queue as one atomic state machine |
| `TaskTimes.dfy` | what each operation makes possible: when a task opens, when a claim runs out, what the record says |
| `TaskInterleaving.dfy` | the same queue as read-then-save steps with unlocked claims between them |
| `TaskStore.dfy`, `TaskQueue.dfy` | the in-memory store and the queue as classes, each method against the state machine |
| `Budgets.dfy`, `BudgetBooks.dfy`, `BudgetStore.dfy` | the ledger; the store's running totals and operations as values; the store as a class |
| `BudgetManager.dfy`, `BudgetRuns.dfy` | compiling limits into checks, reserving, caps over whole runs |
| `BudgetLimits.dfy` | the configured limits by name: who is allowed, deferred or denied, what a grant charges, what is spent |
| `BudgetDrift.dfy`, `BudgetDust.dfy` | how far the running totals can be from the ledger for any demands, and what the store's tolerance can cost |
| `RateLimits.dfy`, `RateRuns.dfy`, `RateClock.dfy` | token buckets and leases, their runs, and the bucket under any clock |
| `RateLimitStore.dfy`, `RatePlan.dfy` | the rate-limit store as a class, the pacing hint |
| `RateAnswers.dfy` | what the rate-limit store answers, told by buckets, rules and leases |
| `Lifecycle.dfy`, `ExecutionRuns.dfy` | admission, execution and recovery as methods over both stores; many tickets at once as a joint machine |
| `LifecycleOutcome.dfy` | what an admission or an execution leaves of its task |
| `LifecycleMoves.dfy` | the lifecycle's operations as runs of the joint machine |
| `Scheduler.dfy`, `FairShortlist.dfy`, `Dispatcher.dfy` | batch selection, the ready shortlist, the dispatcher loop |
| `BatchOrder.dfy`, `ReadyOrder.dfy` | what a batch is by positions and numbers, what the shortlist is by the tasks' fields |
| `BranchInspector.dfy`, `Convergence.dfy` | branch pressure; one decision, one evaluation, and runs of evaluations one after another |
| `ConvergenceRulings.dfy` | which action an evaluation comes to and what it stores, by evidence and found state |
| `ConvergenceOverlap.dfy`, `ConvergenceController.dfy` | overlapping evaluations as read-then-put; the controller as a class |
| `HardClose.dfy` | a close for a used-up HARD limit against what that limit will still refuse |

Where the code updates an object, the model is a class with the same fields and a
`Valid()` that ties them to a value (`State()`, `Book()`); each method states its
whole new state as a function of the old one, and lemmas prove what runs of those
functions keep. What these functions themselves amount to is told apart from them, in the
source's own fields and names (`TaskTimes`, `BudgetLimits`, `RateAnswers`,
`LifecycleOutcome`, `ConvergenceRulings`, `ReadyOrder`, `BatchOrder`). Coroutines are modelled by what they can do: the transition methods
of the queue take an arbitrary list `env` of claims and enqueues that run between
their read and their save, and the joint machine interleaves moves of any number of
tickets, and evaluations of a branch read and put with others in between. Time and amounts are exact reals; the tolerance of 1e-9 is kept wherever
the code has it. Ids, claim tokens and lease ids are counters, which is what uuid4
values are taken for: values never used before. Clock readings are parameters.

## What the code turns out not to do

Each of these is proved, with the exact condition where there is one.

- Without the queue's lock a save is safe if and only if its operation found the task RUNNING, or
  found it without an attempt left and overwrites all that another queue can have moved: a
  release from review, or a deferral of a task with no start recorded that gives a reason or
  finds it PENDING without an error (`SafeWithoutLockIff`). Any other task can be taken round by a second queue, and the stale
  save then forgets the attempt (`StaleSaveForgetsAnAttempt`) or, when none is left, the move
  (`StaleSaveForgetsAMove`).
- A review raised while a task runs, once released, leaves a task that can be claimed again
  if and only if the attempt was not its last (`ReviewStrandsIff`). As long as no task is
  reviewed during its last attempt, every live task can still run (`LiveTasksCanRun`).
- `put` does not check the id: the key dictionaries survive an accepted task exactly
  if its id is new (`InMemoryTaskStore.Put`). `save` refuses a record whose key another
  unfinished task has, but only after storing it (`InMemoryTaskStore.Save`).
- Demands within the store's tolerance of 1e-9 are forgotten when a bigger reservation closes
  (`SubtractionIsExactIff`). Reservations can exceed a HARD cap, the store's own running totals
  can, and the store can raise its underflow error, if and only if demands that small occur
  (`OverrunIffTiny`, `TotalsOverrunIffTiny`, `UnderflowIffTiny`). Above the tolerance the store
  is its ledger (`StoreRefinesLedger`); for any demands, until a close underflows, both stay
  within the limits up to one tolerance for each item of a reservation that has ended
  (`CapsHoldUpToDust`).
- The commit at the end of an execution raises exactly if the reservation is no longer
  ACTIVE, or underflows, and the ending does not tolerate it; the task then stays RUNNING
  until its lease runs out (`Lifecycle.ExecuteClaimed`).
- A reap while workers run keeps what the concurrency cap rests on if and only if no
  reservation still held is overdue (`ReapKeepsInvIff`). Otherwise the next admission is
  granted on top of a full house (`LateReapOverruns`; `LateReapRun` is the whole run under a
  cap of one). The code reaps only at start-up, where nothing is held.
- The stored tier of an open branch falls whenever an evaluation starts below it on evidence
  that does not advance it; tiers never fall if and only if no open branch is evaluated below
  its stored tier (`TierHoldsIff`, `TiersHoldIff`). A caller that reads the tier before it
  evaluates can be overtaken (`StaleTierFalls`).
- Evaluations read, await and put without a lock. A closed branch stays closed if and only if
  no evaluation is under way that found it open (`ClosedIsAbsorbingIff`). What every stored
  state still has is an undisturbed line of evaluations of its own (`EveryStateHasItsLine`),
  which carries over what closing a branch takes (`ExplorationNeedsHardPressure`,
  `ClosesHardOrSlowly`).
- A branch is closed for good as soon as a HARD limit is used up to the threshold, running
  reservations included. However the running work ends, committed, released or expired, a
  limit then goes on refusing a demand if and only if it is cumulative and what is committed
  already leaves no room (`HardCloseJustifiedIff`): a concurrency limit that is momentarily
  full grants again, and so does a cumulative one whose reservation is released because the
  claim was lost (`LostClaimReopens`).
- An admission cancelled between its reservation and its claim, or before it releases, leaves
  the reservation ACTIVE until a reap finds it overdue (`AbandonedUntilReaped`).
- A branch can be reported exhausted while a demand within the tolerance would still be
  granted (`ExhaustedYetGranted`).
- The pacing hint divides a rate only by the width of its own rule. A rated rule without
  a width, matched together with one that has a width, is oversubscribed
  (`UndividedRateIsExceeded`); `HintIsSafeIff` says, from the rules alone, when the hint is safe.
- The token-bucket bound does not survive every clock that runs back
  (`BackwardClockBreaksBound`). It holds for a sequence of clock readings if and only if between
  any two of them the clock runs forward by no more than they are apart (`BoundHoldsIff`).
- The dispatcher's busy-wait branch cannot be reached (`Dispatcher.Run`).

## Model

| member | source | states |
|---|---|---|
| Tasks.TransitionIsLawful | recon/core/queue.py:577-878 | every accepted operation yields a record the validator accepts, keeps identity, key and attempts, never mints a token, never starts from a terminal record |
| TaskRuns.RewriteIsLawful | recon/core/queue.py:357-391 | any step that rewrites a record: attempts grow only by claims, a token comes only from a claim and is the next unused one, RUNNING always has a lease |
| TaskRuns.NextKeepsInv | recon/core/queue.py:291-391 | every step keeps records well formed, dedupe keys unique over all tasks ever stored, and claim tokens unique |
| TaskRuns.RunKeepsInv | recon/core/queue.py:278-391 | the same over every run |
| TaskRuns.AttemptsCountClaims | recon/core/queue.py:357-391 | over any run `attempts` grows by exactly the accepted claims and never exceeds `max_attempts` |
| TaskRuns.TerminalIsForever | recon/core/queue.py:834-878 | a SUCCEEDED, FAILED, CANCELLED or BLOCKED record never changes again, whatever follows |
| TaskRuns.NewTokenIsFresh | recon/core/queue.py:371-391 | a token becomes held only through a claim that hands out one never used before |
| TaskRuns.TokenEndsOnce | recon/core/queue.py:357-391 | over any run each token is issued at most once and ended at most once: issued = ended + still held |
| TaskRuns.SpentTokenStaysInert | recon/core/queue.py:577-661 | once a token is lost, no later state of any run lets it change anything |
| TaskRuns.NextKeepsAttemptsLeft | recon/core/queue.py:703-757 | one step that reviews no task running its last attempt keeps an attempt left for every live task |
| TaskRuns.LiveTasksCanRun | recon/core/queue.py:703-757 | over any run that reviews no task during its last attempt every queued or reviewed task still has an attempt left |
| TaskRuns.ReviewStrandsIff | recon/core/queue.py:703-757 | a review of a running task, once released, leaves a task that some run claims again if and only if the attempt was not its last |
| TaskRuns.OutcomesAreEarned | recon/core/queue.py:605-661 | over any run nothing succeeds or fails unclaimed, and if every failure asks for a retry nothing fails before its last attempt |
| TaskRuns.ReviewGivesTaskBack | recon/core/queue.py:703-757 | review and release undo each other: same attempts, priority and identity, claimable again from the release delay on exactly if attempts remain, no other task touched |
| TaskTimes.StatusTells | recon/core/queue.py:357-407 | a PENDING or DEFERRED task can be claimed exactly from its available time on and with an attempt left, only a RUNNING one can be taken by recovery, exactly from the end of its lease on, and nothing touches a finished one |
| TaskTimes.AcceptedIff | recon/core/queue.py:577-878 | which operation is accepted in which status, under which token, lease and delay |
| TaskTimes.RecordTells | recon/core/queue.py:577-878 | the status, error text, start and finish that each accepted operation records |
| TaskTimes.OperationTakesEffect | recon/core/queue.py:577-878 | when the task can be claimed and its claim taken away after each accepted operation: a heartbeat holds it for exactly its lease, a deferral, retry or release opens it exactly after its delay, an ending for good |
| TaskTimes.ClaimTakesEffect | recon/core/queue.py:357-391 | a claim starts the task, clears its error, counts an attempt and holds it for exactly its lease |
| TaskTimes.RecoveryTakesEffect | recon/core/queue.py:787-830 | recovery reopens a task with an attempt left exactly after the retry delay and ends any other |
| TaskTimes.LivingClaimIsKept | recon/core/queue.py:577-603 | over any run a claim whose owner heartbeats within every lease is never taken by recovery, and can be taken exactly from the end of the last heartbeat's lease on |
| TaskTimes.EnqueueTakesEffect | recon/core/queue.py:291-309 | a draft is stored as it is if and only if it is PENDING or DEFERRED, passes the validator and no task ever was the same work |
| TaskTimes.SameWorkIff | recon/core/queue.py:195-203 | two tasks have one key if and only if worker, action and input agree, as long as no worker or action has a colon |
| TaskInterleaving.SaveIsAtomicOrLost | recon/core/queue.py:316-355 | a save that wins its comparison is its transition run atomically at that moment; one that loses changes nothing and lost only to a claim |
| TaskInterleaving.FineKeepsSysInv | recon/core/queue.py:316-391 | what lock holders have read stays valid, or was overtaken by a claim, under every fine-grained step |
| TaskInterleaving.Linearizable | recon/core/queue.py:577-832 | every interleaving of read-then-save transitions with unlocked claims and enqueues has exactly the effect of its atomic steps in some order, each at its save |
| TaskInterleaving.LostTokenStaysLost | recon/core/queue.py:357-391 | a token no longer held is never held again |
| TaskInterleaving.TokenPinsRecord | recon/core/queue.py:316-355 | while a task keeps its token, no run of any operations has changed more than what heartbeats write |
| TaskInterleaving.HeartbeatIsOverwritten | recon/core/queue.py:577-603 | every transition of a RUNNING record gives the same result whatever heartbeats wrote before it |
| TaskInterleaving.TokenCasNeedsNoLock | recon/core/queue.py:316-355 | a save expecting RUNNING is atomic under every interference, other queues included |
| TaskInterleaving.SafeWithoutLockIff | recon/core/queue.py:316-355 | without the shared lock the save of an accepted operation is atomic or lost under every interference if and only if the operation found the task RUNNING, or found it with no attempt left and overwrites whatever others can move |
| TaskInterleaving.ExhaustedStaysParked | recon/core/queue.py:357-391 | over any run a task at rest without an attempt left never runs again and changes only in status, times and error, its start and, while PENDING, its error at most cleared |
| TaskInterleaving.StaleSaveForgetsAMove | recon/core/queue.py:663-766 | a stale save over an exhausted task that another queue has moved and returned passes its comparison and differs from the operation run then |
| TaskInterleaving.StaleSaveForgetsAnAttempt | recon/core/queue.py:663-766 | a stale save over any task at rest with an attempt left, taken round by another queue, passes its comparison and lowers `attempts` |
| TaskStores.InMemoryTaskStore.constructor | recon/core/queue.py:285-289 | a new store is empty and its dictionaries agree with it |
| TaskStores.InMemoryTaskStore.Put | recon/core/queue.py:291-309 | inserts any record exactly if its key was never stored; the dictionaries still agree with a scan exactly if an accepted id is new |
| TaskStores.InMemoryTaskStore.Save | recon/core/queue.py:316-355 | unknown id, failed comparison and success are told apart with the state after each; after a matching comparison the record is stored and the call raises exactly if another unfinished task has its key; for a lawful replacement that cannot arise |
| TaskStores.InMemoryTaskStore.Claim | recon/core/queue.py:357-391 | succeeds exactly on a ready task and then changes that one record to the claimed one under a fresh token |
| TaskStores.InMemoryTaskStore.ActiveByDedupeKey | recon/core/queue.py:479-490 | agrees with a search of all records: the unfinished task of the key or none; never needs to repair its dictionary |
| TaskStores.PutKeepsIndexes | recon/core/queue.py:291-309 | both dictionaries agree with a scan after an insertion under a new key |
| TaskStores.ReplaceKeepsIndexes | recon/core/queue.py:334-355 | and after any replacement that keeps the key, finishing ones included |
| TaskQueues.TaskQueue.Enqueue | recon/core/queue.py:526-532 | is the atomic enqueue step; reports whether the key was new, refuses drafts that are neither PENDING nor DEFERRED |
| TaskQueues.TaskQueue.Claim | recon/core/queue.py:557-575 | is the atomic claim step; accepted exactly for a positive lease on a ready task |
| TaskQueues.TaskQueue.Heartbeat | recon/core/queue.py:577-603 | refused, beaten by a claim, or exactly the atomic heartbeat at its save, whatever claims and enqueues run between read and save |
| TaskQueues.TaskQueue.Fail | recon/core/queue.py:613-661 | the same for a failure, whether it defers the task or ends it |
| TaskQueues.TaskQueue.Defer | recon/core/queue.py:663-692 | the same for a deferral |
| TaskQueues.TaskQueue.SendToReview | recon/core/queue.py:703-729 | the same for a review |
| TaskQueues.TaskQueue.ReleaseReview | recon/core/queue.py:731-757 | the same for the release of a review |
| TaskQueues.TaskQueue.Succeed | recon/core/queue.py:605-611 | the same for a success |
| TaskQueues.TaskQueue.Block | recon/core/queue.py:694-701 | the same for a block |
| TaskQueues.TaskQueue.Cancel | recon/core/queue.py:759-766 | the same for a cancellation |
| TaskQueues.TaskQueue.Finish | recon/core/queue.py:834-878 | the shared tail of the three: atomic or nothing |
| TaskQueues.TaskQueue.Store | recon/core/queue.py:316-355 | read, let any claims and enqueues run, compare and swap: atomic at the save or nothing |
| TaskQueues.TaskQueue.SaveOver | recon/core/queue.py:316-355 | the swap wins exactly if no claim took the record since it was read |
| TaskQueues.TaskQueue.RecoverOne | recon/core/queue.py:787-830 | an expired record becomes DEFERRED if attempts remain and FAILED otherwise; the save cannot lose |
| TaskQueues.TaskQueue.RecoverExpiredLeases | recon/core/queue.py:768-832 | every RUNNING task with an expired lease is released and reported, nothing else moves but by the claims that run in between |
| TaskQueues.RecoveryOutcome | recon/core/queue.py:787-830 | after recovery an expired task is FAILED on its last attempt and otherwise DEFERRED with its attempts, or already claimed anew with one attempt more and a fresh token; unexpired tasks at rest are as before |
| TaskQueues.EnvOnlyClaims | recon/core/queue.py:557-575 | after any unlocked steps a record is as read, or was queued and is now exactly the claimed record, one attempt more, under a token not handed out before |
| TaskQueues.SameRecordSameRewrite | recon/core/queue.py:316-355 | a transition computed on a record that did not move is the transition at the save |
| TaskQueues.SaveIsCas | recon/core/queue.py:316-355 | the store's comparison is that of the interleaved machine: status, token, and the lease for recovery |
| Budgets.NamesAreInjective | recon/core/budgets.py:707-785 | the string keys of global, worker, branch and resource buckets never collide |
| Budgets.ChargedOnce | recon/core/budgets.py:194-201 | distinct items charge each key exactly once |
| Budgets.EnteredUsage | recon/core/budgets.py:376-388 | a reservation raises each reserved total by its charge and no committed one |
| Budgets.ClosedUsage | recon/core/budgets.py:390-431 | a commit moves cumulative charges from reserved to committed and frees capacity; a release frees both |
| Budgets.RenewedUsage | recon/core/budgets.py:433-450 | a renewal changes no total |
| Budgets.ReapedUsage | recon/core/budgets.py:452-481 | reaping never raises a reserved total and never touches a committed one |
| Budgets.UsageNonNegative | recon/core/budgets.py:483-499 | no total is ever negative |
| BudgetBooks.SubtractionIsExactIff | recon/core/budgets.py:523-538 | a subtraction never underflows when the total covers it, and is exact if and only if what remains is nothing or above the tolerance |
| BudgetBooks.NoViolationsIffFits | recon/core/budgets.py:349-374 | on exact books the store refuses exactly the checks that the ledger's usage exceeds by more than the tolerance |
| BudgetBooks.StepIsExact | recon/core/budgets.py:523-538 | taking one item of a closing reservation off exact totals neither underflows nor loses dust |
| BudgetStores.InMemoryBudgetStore.constructor | recon/core/budgets.py:327-337 | a new store is the empty ledger with empty, exact totals |
| BudgetStores.InMemoryBudgetStore.TryReserve | recon/core/budgets.py:339-388 | all or nothing, for every positive demand: the reservation is entered and its items added to the totals exactly if the id is new and no check is violated by the running totals; for demands above the tolerance the totals stay the ledger's sums |
| BudgetStores.InMemoryBudgetStore.Commit | recon/core/budgets.py:390-410 | COMMITTED, with every item taken off the reserved totals and the cumulative ones added to the committed; unknown and closed ids refused unchanged; an underflow leaves the reservation ACTIVE midway; on exact books none occurs |
| BudgetStores.InMemoryBudgetStore.Release | recon/core/budgets.py:412-431 | the same for RELEASED |
| BudgetStores.InMemoryBudgetStore.Renew | recon/core/budgets.py:433-450 | accepted exactly for an ACTIVE reservation and a later expiry; changes only that expiry |
| BudgetStores.InMemoryBudgetStore.ReapExpired | recon/core/budgets.py:452-481 | reports and expires exactly the overdue ACTIVE reservations, in order, unless one underflows, which ends the sweep there; on exact books none does |
| BudgetStores.AnswersTell | recon/core/budgets.py:509-521 | an id never made is unknown, an ended reservation refused, an underflow an error; anything else ends as asked |
| BudgetBooks.CloseTotals | recon/core/budgets.py:390-410 | the ledger's totals before a reservation closes are those after plus its charges |
| BudgetBooks.TakeIsExact | recon/core/budgets.py:390-431 | closing a reservation on exact totals takes off exactly its charges, without underflow |
| BudgetBooks.ClosingIsExact | recon/core/budgets.py:390-431 | exact books stay exact when a reservation is committed, released or expired |
| BudgetBooks.SweptIsExact | recon/core/budgets.py:452-481 | and when any number of overdue ones are reaped |
| BudgetManagers.ChecksForCaps | recon/core/budgets.py:787-821 | one check for each metric both limited and demanded, with the lane's share of the scaled limit |
| BudgetManagers.MergeChecks | recon/core/budgets.py:824-862 | one check a key with the demands added up; an error exactly if two checks of a key disagree on limits |
| BudgetManagers.CompileChecks | recon/core/budgets.py:707-785 | exactly the expected check of every key of global, worker, branch and resource limits in both classes; merging never conflicts |
| BudgetManagers.RequestedOnce | recon/core/budgets.py:824-862 | over distinct keys the merged demand of a check is its own |
| BudgetRuns.Reserve | recon/core/budgets.py:555-661 | for every request: denies on depth or a cumulative limit, defers when only capacity is short, allows otherwise, as the store's totals say; on exact books and demands above the tolerance, as the ledger's usage says |
| BudgetRuns.VerdictIsLedgers | recon/core/budgets.py:349-374 | on exact books the running totals decide as the ledger's usage would |
| BudgetLimits.VerdictByLimits | recon/core/budgets.py:555-661 | depth apart, denied if a limit on tasks, cost, requests, candidates or runtime has no room, deferred if only running tasks have none, allowed if every configured limit that concerns the request has: HARD ones as configured, SOFT ones less the exploration reserve for NORMAL work, the branch's own stretched by its multiplier |
| BudgetLimits.GrantCharges | recon/core/budgets.py:707-785 | a grant charges every configured limit of its bucket, worker, branch and resources its demand and no other |
| BudgetLimits.GrantLasts | recon/core/budgets.py:376-388 | a granted reservation is ended by a reap exactly once its lease is over |
| BudgetLimits.ReservationLasts | recon/core/budgets.py:433-481 | and a renewed one exactly at its new expiry |
| BudgetLimits.CommitSpends | recon/core/budgets.py:390-410 | a commit keeps the usage of tasks, cost, requests, candidates and runtime and adds it to the committed total; running tasks come back |
| BudgetLimits.SpentWithinLimits | recon/core/budgets.py:339-537 | over any run with demands above the tolerance, all that ACTIVE and COMMITTED reservations were charged on a cumulative metric, and ACTIVE ones for running tasks, stays within the configured HARD limit of its bucket |
| BudgetRuns.StoreRefinesLedger | recon/core/budgets.py:339-537 | over any run with demands above the tolerance the store's totals are the sums over its reservations and it makes the ledger's decisions |
| BudgetRuns.CompiledCharge | recon/core/budgets.py:707-785 | a compiled request charges a limited key exactly its demand and any other key nothing |
| BudgetRuns.CheckBelowCeiling | recon/core/budgets.py:787-821 | no check allows more than the key's ceiling, and NORMAL ones leave the exploration reserve |
| BudgetRuns.ReserveKeepsCaps | recon/core/budgets.py:339-388 | a reservation that the ledger's usage leaves room for keeps every key within its ceiling and NORMAL usage out of the reserve |
| BudgetRuns.OtherStepsOnlyFree | recon/core/budgets.py:390-481 | commit, release, renew and reap raise no usage, in total or of the NORMAL lane |
| BudgetRuns.CapsHoldOverRuns | recon/core/budgets.py:339-537 | over any run with demands above the tolerance, in any mix of lanes, HARD usage never passes its cap and SOFT usage never its ceiling, up to the tolerance |
| BudgetRuns.ExplorationReserveProtected | recon/core/budgets.py:787-821 | over such runs from the start, on every SOFT key that does not stretch, what NORMAL work leaves of the cap is at least the exploration reserve, up to the tolerance |
| BudgetRuns.StoreKeepsCaps | recon/core/budgets.py:339-537 | the store's own runs with demands above the tolerance never exceed a limit that does not stretch |
| BudgetDust.OverrunIffTiny | recon/core/budgets.py:339-538 | a run of the store exceeds its HARD cap if and only if demands within the tolerance occur |
| BudgetDust.TotalsOverrunIffTiny | recon/core/budgets.py:339-538 | so do its own running totals, committed and reserved together: a commit adds what the reserved total had forgotten |
| BudgetDust.UnderflowIffTiny | recon/core/budgets.py:523-538 | a run of the store reaches its underflow error, on a reservation it holds, if and only if demands within the tolerance occur |
| BudgetDrift.SubtractionDrifts | recon/core/budgets.py:523-538 | one subtraction is off by at most the tolerance and never raises a total |
| BudgetDrift.TakeDrifts | recon/core/budgets.py:390-431 | closing a reservation moves each reserved total by its charge, up to one tolerance an item on that key, and the committed totals exactly |
| BudgetDrift.CapsHoldUpToDust | recon/core/budgets.py:339-538 | over any run with any positive demands and no underflow: committed totals are the ledger's, reserved ones within one tolerance per ended item of it, and usage and running totals stay within every ceiling, the tolerance and that dust, capacity totals without the dust |
| BudgetDrift.ReserveHoldsUpToDust | recon/core/budgets.py:787-821 | over such runs what NORMAL work leaves of a SOFT limit that does not stretch is at least the exploration reserve, less the tolerance and the dust |
| BudgetRuns.NormalWithinUsage | recon/core/budgets.py:483-499 | what the NORMAL lane accounts for is part of the usage |
| BranchInspectors.PressuresForCaps | recon/intelligence/convergence.py:343-433 | reports exactly the limited metrics of the branch, each with the usage and limits of the ledger |
| BranchInspectors.InspectorAgreesWithChecks | recon/intelligence/convergence.py:377-395 | the checks compiled for a request and the pressures reported for its branch, each by its own arithmetic, have the same limits and usage metric by metric, both ways, and an exhausted report means a refused check |
| BranchInspectors.ExhaustedIffRefused | recon/intelligence/convergence.py:178-180 | exhausted if and only if every demand beyond the two tolerances would be refused |
| BranchInspectors.ExhaustedYetGranted | recon/intelligence/convergence.py:178-180 | within the tolerances the two do differ |
| Convergence.ProductiveMultiplier | recon/intelligence/convergence.py:1618-1654 | lies between 1 and the configured maximum for every input |
| Convergence.MultiplierMonotone | recon/intelligence/convergence.py:1618-1654 | more expected yield never earns a smaller multiplier |
| Convergence.CooldownDoubles | recon/intelligence/convergence.py:1657-1688 | the closed form is the recurrence: base, doubled each time, capped at the maximum, constant from the 21st on |
| ConvergenceRulings.MultiplierInterpolates | recon/intelligence/convergence.py:1618-1654 | one up to the threshold, the maximum from a certain yield on, a straight line between |
| ConvergenceRulings.ActionIff | recon/intelligence/convergence.py:967-1536 | when exactly an evaluation answers CLOSE, ADVANCE_TIER, COOLDOWN and CONTINUE, by the evidence and the found state |
| ConvergenceRulings.CloseStores | recon/intelligence/convergence.py:967-1064 | what a close stores: by hard pressure or low yield, or nothing but the answer if already closed |
| ConvergenceRulings.CooldownStores | recon/intelligence/convergence.py:1066-1230 | a running cooldown is repeated uncounted; a new one lasts the next ordinal's duration, and full soft limits leave both streaks going |
| ConvergenceRulings.AdvanceStores | recon/intelligence/convergence.py:1277-1345 | one tier up, at the earned multiplier, both streaks anew |
| ConvergenceRulings.ContinueStores | recon/intelligence/convergence.py:1232-1536 | no cooldown, the streaks counted or cleared for want of history |
| ConvergenceRulings.FoundState | recon/intelligence/convergence.py:879-898 | a new branch starts at the caller's tier with nothing counted, an open one moves to it, a closed one is as it was |
| ConvergenceRulings.TiersInOrder | recon/intelligence/convergence.py:126-155 | the five tiers, each followed by the next |
| Convergence.EvaluationStep | recon/intelligence/convergence.py:887-933 | an evaluation of an open branch leaves the caller's tier or the one above, never above the maximum; of a closed one, the branch closed at its tier |
| Convergence.TierHoldsIff | recon/intelligence/convergence.py:887-898 | whatever is stored, a tier above the maximum included, and whatever the evidence an evaluation does not lower the stored tier if and only if it starts at it or above, or the branch is closed |
| Convergence.TiersHoldIff | recon/intelligence/convergence.py:887-898 | over a run tiers never fall if and only if no open branch is evaluated below its stored tier |
| Convergence.RunsStaySound | recon/intelligence/convergence.py:935-1536 | over any run the lane is kept, and a state within the maximum tier and the multiplier's bounds stays so |
| Convergence.StaleTierFalls | recon/runtime.py:1848-1858 | two evaluations at the same reading of the tier, the first of which advances, leave the lower tier stored |
| Convergence.TiersCostStreaks | recon/intelligence/convergence.py:935-1536 | evaluated one after another where it stands, a branch climbs at most one tier an evaluation, never falls, and k tiers cost k full productive streaks |
| Convergence.ClosedIsForever | recon/intelligence/convergence.py:967-999 | evaluated one after another, a closed branch answers CLOSE to everything forever, whatever tier the caller gives |
| Convergence.ExplorationClosesOnlyHard | recon/intelligence/convergence.py:887-1536 | in runs one after another, at any tiers, an EXPLORATION branch is closed only by hard budget pressure |
| Convergence.StreakIsEarned | recon/intelligence/convergence.py:887-1536 | the stored low-yield streak never exceeds the low evaluations really made in a row, cooldown ones left out |
| Convergence.RunsKeepWaiting | recon/intelligence/convergence.py:1657-1688 | a streak past the cooldown threshold has waited out a base cooldown for each evaluation beyond it |
| Convergence.LowYieldClose | recon/intelligence/convergence.py:887-1536 | a close without hard pressure needs a NORMAL branch evaluated at EXHAUSTIVE, not cooling down, with a full streak |
| Convergence.LowYieldCloseIsSlow | recon/intelligence/convergence.py:887-1536 | over whole runs, at any tiers, such a close comes only after the configured number of low evaluations in a row and after their cooldowns have elapsed |
| ConvergenceOverlap.EveryStateHasItsLine | recon/intelligence/convergence.py:872-931 | however evaluations overlap, every state stored or read is the result of an undisturbed run of some of them, in their order |
| ConvergenceOverlap.ClosedIsAbsorbingIff | recon/intelligence/convergence.py:872-931 | a closed branch stays closed whatever follows if and only if no evaluation is under way that found it open |
| ConvergenceOverlap.PutHoldsTierIff | recon/intelligence/convergence.py:872-931 | an evaluation's put does not lower the stored tier, whatever its evidence, if and only if the state it started from is at that tier or above |
| ConvergenceOverlap.ExplorationNeedsHardPressure | recon/intelligence/convergence.py:872-931 | however evaluations overlap, an EXPLORATION branch is found closed only if some evaluation met hard pressure |
| ConvergenceOverlap.ClosesHardOrSlowly | recon/intelligence/convergence.py:872-931 | however evaluations overlap, a branch found closed was closed on its own line by hard pressure or as slowly as an undisturbed run needs |
| ConvergenceControllers.LargestUtilization | recon/intelligence/convergence.py:217-235 | the largest utilization reported, 0 for none |
| ConvergenceControllers.ConvergenceController.PressureOf | recon/intelligence/convergence.py:294-341 | the largest utilization of the branch's limits of a class in the ledger |
| ConvergenceControllers.ConvergenceController.Begin | recon/intelligence/convergence.py:853-898 | refuses a tier above the maximum, else yields the stored state at the caller's tier, a closed one as it is |
| ConvergenceControllers.ConvergenceController.Evaluate | recon/intelligence/convergence.py:832-933 | refuses a tier above the maximum unchanged; otherwise judges the state it read, whatever others put meanwhile, with the present pressures, and overwrites what is stored by then |
| HardCloses.RefusedForGoodIff | recon/core/budgets.py:339-481 | over all ways the ACTIVE reservations can end, a limit refuses a demand in every one if and only if what is committed leaves no room, and in some one if and only if committing them all would leave none |
| HardCloses.HardCloseJustifiedIff | recon/intelligence/convergence.py:1001-1013 | an evaluation that meets hard pressure closes the branch because a HARD limit is used up to the threshold; a limit then refuses a demand within it for good if and only if it is cumulative and committed plus demand pass it |
| HardCloses.LostClaimReopens | recon/core/lifecycle.py:536-549 | one reservation of a cumulative limit's whole amount closes the branch, and once its lost claim releases it the same limit grants again |
| RateLimits.WrittenAt | recon/policy/rate_limit.py:579-614 | writing distinct buckets gives each its own share and leaves the others alone |
| RateLimits.ItemsAt | recon/policy/rate_limit.py:579-614 | the lease holds in each bucket exactly the slots that were checked there |
| RateLimits.AcquireConserves | recon/policy/rate_limit.py:466-614 | an acquisition keeps every bucket's counter equal to the sum over ACTIVE leases |
| RateLimits.EndConserves | recon/policy/rate_limit.py:779-797 | a release or expiry does too |
| RateLimits.ActiveLeaseFits | recon/policy/rate_limit.py:779-797 | a bucket always holds what an ACTIVE lease gives back: missing-bucket and underflow errors cannot occur |
| RateLimits.DuplicateChecksLoseSlots | recon/policy/rate_limit.py:466-614 | checks that name a bucket twice would break that equality, so distinct keys are needed |
| RateRuns.LazyRefillIsEager | recon/policy/rate_limit.py:697-735 | refilling at t then u is refilling at u |
| RateRuns.LevelGrowsAtRate | recon/policy/rate_limit.py:697-735 | a level grows at most at the rate and never past the burst |
| RateRuns.AcquireSpendsLevel | recon/policy/rate_limit.py:466-614 | an acquisition takes from a bucket's level exactly the tokens it hands out |
| RateRuns.GrantedWithinLevel | recon/policy/rate_limit.py:466-614 | from any level a run hands out at most the level plus the inflow |
| RateRuns.TokenBucketBound | recon/policy/rate_limit.py:466-735 | in any window a bucket of rate r and burst b hands out at most b + r * length, up to the tolerance, however acquisitions over many buckets, refusals, releases, renewals and expiries interleave |
| RateRuns.SlotsConservedOverRuns | recon/policy/rate_limit.py:466-671 | over any run each counter is what ACTIVE leases hold and never passes the rule's width |
| RateRuns.ShortUntilRetry | recon/policy/rate_limit.py:496-577 | a check short of tokens stays short exactly until its reported wait, less what the tolerance is worth |
| RateRuns.RetryAfterIsExact | recon/policy/rate_limit.py:496-577 | after the reported wait of a multi-bucket acquisition no bucket is short of tokens; before, one is exactly while its own wait lasts |
| RateRuns.BackwardClockBreaksBound | recon/policy/rate_limit.py:697-735 | readings 10, 8, 10 make a bucket of burst 2 hand out 3 tokens at one instant |
| RateClocks.BoundHoldsIff | recon/policy/rate_limit.py:466-735 | for any sequence of clock readings, every run with these readings keeps the token-bucket bound in every window if and only if between any two of them the clock runs forward by no more than they are apart |
| RateClocks.LevelMoves | recon/policy/rate_limit.py:716-729 | under any clock a level grows at most by the rate times what the clock runs forward |
| RateClocks.MonotoneIsSteady | recon/policy/rate_limit.py:716-729 | readings that only rise, or only fall, meet that condition |
| RateAnswers.GrantedIff | recon/policy/rate_limit.py:466-614 | an acquisition is impossible if some demand passes its burst, and otherwise granted exactly if every bucket has the tokens, counted from its last refill, and the free slots |
| RateAnswers.LeaseLasts | recon/policy/rate_limit.py:589-614 | a reap ends a granted lease exactly once its time is over |
| RateAnswers.RenewedLeaseLasts | recon/policy/rate_limit.py:628-671 | and a renewed one exactly at its new expiry |
| RateAnswers.SlotRetryIsEarliest | recon/policy/rate_limit.py:737-777 | the wait for slots is that for the first lease to run out of those that hold one, a millisecond at least |
| RateAnswers.WaitFreesSlots | recon/policy/rate_limit.py:737-777 | after it a reap ends a lease that holds a slot of the bucket |
| RateAnswers.BucketsShared | recon/policy/rate_limit.py:1077-1108 | two matches share a bucket exactly if of one rule, and it is global or they are of one resource |
| RateLimitStores.InMemoryRateLimitStore.TryAcquire | recon/policy/rate_limit.py:466-614 | every bucket grants its share or nothing changes; an impossible demand is an error, a refusal reports the longest wait, which is positive |
| RateLimitStores.InMemoryRateLimitStore.Grant | recon/policy/rate_limit.py:579-614 | a grant is the acquisition step, with a lease exactly if slots were taken |
| RateLimitStores.InMemoryRateLimitStore.RetryOf | recon/policy/rate_limit.py:496-577 | one check against its refilled bucket: impossible, or the wait it asks for |
| RateLimitStores.InMemoryRateLimitStore.ReleaseItems | recon/policy/rate_limit.py:779-797 | gives back each bucket what the lease held there, without error |
| RateLimitStores.InMemoryRateLimitStore.Release | recon/policy/rate_limit.py:616-626 | slots come back, tokens stay spent; unknown and ended leases are refused unchanged |
| RateLimitStores.InMemoryRateLimitStore.Renew | recon/policy/rate_limit.py:628-647 | accepted exactly for an ACTIVE lease and a later expiry |
| RateLimitStores.InMemoryRateLimitStore.ReapExpired | recon/policy/rate_limit.py:649-671 | ends exactly overdue ACTIVE leases; none is left |
| RateLimitStores.ReapedLeases | recon/policy/rate_limit.py:649-671 | reaping expires exactly the overdue ACTIVE leases and touches no other |
| RateLimitStores.RetryIffRefused | recon/policy/rate_limit.py:496-577 | a check asks for a wait exactly if it refuses |
| RateLimitStores.CompileChecks | recon/policy/rate_limit.py:1077-1108 | one check a matched bucket, under its rule's limits, every matched bucket checked |
| RatePlans.MakePlan | recon/policy/rate_limit.py:843-892 | lowest rate, lowest share and lowest width of the matched rules, absent exactly if no rule has one |
| RatePlans.HintIsGreatest | recon/policy/rate_limit.py:854-877 | a rate fits every rule at the rule's own width if and only if it is at most the hint |
| RatePlans.HintIsSafeIff | recon/policy/rate_limit.py:854-892 | any number of processes up to the lowest width stay within every rate at the hint if and only if some rated rule's rate times that width is at most its own consumers times the lowest rate |
| RatePlans.DividedRatesAreSafe | recon/policy/rate_limit.py:39-42 | it is whenever every rated rule has a width |
| RatePlans.UndividedRateIsExceeded | recon/policy/rate_limit.py:866-871 | a rated rule without a width beside one with a width is exceeded by two processes at the hint |
| RatePlans.IntegerHint | recon/policy/rate_limit.py:1111-1122 | the greatest integer rate not above the hint, none exactly if the hint is below one |
| Lifecycles.Lifecycle.ApplyGates | recon/core/lifecycle.py:841-921 | stops at the first gate that does not let the task through, with exactly that gate's operation, or raises if that operation is refused |
| Lifecycles.Lifecycle.Admit | recon/core/lifecycle.py:436-570 | a ticket needs all gates, the budget and the claim; without one every total and open reservation is what it was; with one the only new reservation is the ticket's |
| Lifecycles.Lifecycle.Conclude | recon/core/lifecycle.py:499-570 | defers, blocks or claims by the budget's answer, releasing the reservation if the claim is lost |
| Lifecycles.Lifecycle.ExecuteClaimed | recon/core/lifecycle.py:572-839 | commits the reservation once; whatever others do to the queue between commit and transition, a token still current by then takes the task off RUNNING with the status its ending calls for, a stale one changes no record; the commit error escapes exactly if the reservation was lost or underflows and the ending does not tolerate it |
| Lifecycles.Lifecycle.RecoverExpired | recon/core/lifecycle.py:370-390 | afterwards no ACTIVE reservation is overdue, every task RUNNING overdue before is released, committed totals are unchanged, unexpired work is untouched but by claims; an underflow, impossible on exact books, leaves the queue untouched |
| Lifecycles.EnteredThenReleased | recon/core/lifecycle.py:492-549 | a reservation made and released leaves every total as it was |
| Lifecycles.ConcludeLeaks | recon/core/lifecycle.py:492-570 | no ending of an admission other than a ticket leaves anything reserved |
| Lifecycles.EndingIsFinal | recon/core/lifecycle.py:599-839 | every ending under the current token takes effect and ends the claim with SUCCEEDED, DEFERRED or FAILED as it calls for; under any other it changes nothing |
| LifecycleOutcomes.ExecutionOutcome | recon/core/lifecycle.py:599-839 | under the current token: a success is final, a worker's retry opens the task exactly after its delay, an interrupted execution at once, while attempts are left; every other failure is final; the record has the ending's own text |
| LifecycleOutcomes.StopperIsFirst | recon/core/lifecycle.py:841-921 | the stopping gate is the first that neither passes nor has its review approved |
| LifecycleOutcomes.GateOutcome | recon/core/lifecycle.py:841-921 | that gate lets the task wait exactly its delay, blocks it, or puts it under review, with its reason |
| LifecycleOutcomes.BudgetOutcome | recon/core/lifecycle.py:499-570 | a ticket holds the task for exactly its lease, a budget deferral opens it exactly after the capacity delay, a denial blocks it |
| ExecutionRuns.MoveKeepsInv | recon/core/lifecycle.py:436-839 | every move of any ticket keeps: each token owned by one admission or left by a dead process, each reservation held ACTIVE, usage within caps |
| ExecutionRuns.ReachableInv | recon/core/lifecycle.py:436-839 | so does every interleaving whose reaps catch nothing held |
| ExecutionRuns.AdmissionCountsOne | recon/runtime.py:1298-1306 | a granted admission charges the concurrency key exactly one |
| ExecutionRuns.WorkersWithinCap | recon/core/lifecycle.py:492-570 | at most C workers execute under a hard concurrency cap C |
| ExecutionRuns.JointSafety | recon/core/lifecycle.py:436-839 | from any stored tasks and reservations, in every reachable state: at most C workers; every RUNNING task owned by a live admission or claimed before the start; every ACTIVE reservation held by one, abandoned by a cancelled one, or made before the start |
| ExecutionRuns.RecoveredStart | recon/runtime.py:2308-2310 | a start with crash recovery is such a start, with nothing overdue left ACTIVE |
| ExecutionRuns.QuiescenceLeaksNothing | recon/core/lifecycle.py:572-839 | with nothing in flight but cancelled admissions, only what they or a dead process left is ACTIVE, and only what a dead process left RUNNING |
| ExecutionRuns.AbandonedUntilReaped | recon/core/lifecycle.py:492-549 | the reservation of a cancelled admission stays ACTIVE through a move if and only if the move is not a reap that finds it overdue |
| ExecutionRuns.ClosesOnlyOnce | recon/core/lifecycle.py:739-744 | whenever a commit or release is due its reservation is ACTIVE, and not afterwards |
| ExecutionRuns.ReapKeepsInvIff | recon/core/budgets.py:452-481 | a reap keeps the invariant if and only if no reservation still held is overdue |
| ExecutionRuns.LateReapOverruns | recon/core/lifecycle.py:492-570 | after a reap that catches an executing worker one more admission is granted and claims: one worker more than before, so cap + 1 from a full house |
| ExecutionRuns.LateReapRun | recon/core/lifecycle.py:492-570 | under a cap of one the run admit, claim, reap, admit, claim ends with two workers executing |
| LifecycleMoves.TicketIsMoves | recon/core/lifecycle.py:436-570 | an admission that yields a ticket leaves both stores as the machine's moves reserve and claim do, with what others do before and between |
| LifecycleMoves.LostClaimIsMoves | recon/core/lifecycle.py:536-549 | one that loses its claim, as the moves reserve, claim and release do |
| LifecycleMoves.TurnedAwayIsMoves | recon/core/lifecycle.py:499-534 | one turned away by the budget, as a reservation not granted and a queue step do |
| LifecycleMoves.StoppedIsMoves | recon/core/lifecycle.py:841-921 | one stopped by a gate, as a queue step does |
| LifecycleMoves.ExecutionIsMoves | recon/core/lifecycle.py:572-839 | the end of an execution, as the moves stop, commit and finish do |
| Schedulers.GroupByWorker | recon/core/scheduler.py:238-245 | workers in order of first appearance, each with its own ranked items |
| Schedulers.Round | recon/core/scheduler.py:250-263 | one round gives every worker at most one item, in order, and progresses unless all are at their quota |
| Schedulers.SelectRankedBatch | recon/core/scheduler.py:228-264 | per worker a prefix of its ranked items within capacity, no excluded worker, as many items as limit and quotas allow, and fair at every moment |
| Schedulers.BatchIsUnique | recon/core/scheduler.py:228-264 | exactly one batch has these properties |
| Schedulers.BatchHasNoRepeats | recon/core/scheduler.py:228-264 | a batch of a ranking without repeats has none |
| Schedulers.TurnIsForced | recon/core/scheduler.py:250-263 | fairness decides whose turn it is |
| BatchOrders.TurnsFollowRank | recon/core/scheduler.py:238-245 | workers take turns in the order of their first ranked items, excluded ones never |
| BatchOrders.BatchFollowsRank | recon/core/scheduler.py:250-263 | no item is taken before a higher ranked one of the same worker |
| BatchOrders.BatchFills | recon/core/scheduler.py:228-264 | within limit and capacities, and short of the limit only when every other worker is out of items or capacity |
| FairShortlists.FairLaneLimits | recon/core/queue.py:497-505 | the four lanes add up to the limit, and age has a place from limit three |
| FairShortlists.SortSorts | recon/core/queue.py:409-448 | sorting orders by the key and keeps every task |
| FairShortlists.AddLane | recon/core/queue.py:451-462 | adds a lane's unseen tasks up to the limit, none twice, none lost if the lane fits |
| FairShortlists.PickDistinct | recon/core/queue.py:451-463 | every lane that fits is wholly included and space left over is filled |
| FairShortlists.Candidates | recon/core/queue.py:400-407 | exactly the ready tasks, each once |
| FairShortlists.Ready | recon/core/queue.py:393-467 | all candidates by priority, the first few of them, or a fair shortlist; a limit below one is refused |
| FairShortlists.ShortlistFromPicks | recon/core/queue.py:393-467 | the picks have no duplicates, exactly min(limit, candidates) members, and all four lanes |
| FairShortlists.OldestIsListed | recon/core/queue.py:497-505 | from limit three the oldest ready task is never crowded out |
| FairShortlists.HighestIsListed | recon/core/queue.py:497-505 | from limit one the task of highest priority is not either |
| ReadyOrders.UnfairByPriority | recon/core/queue.py:409-419 | by falling priority, then available time, age and id; nothing omitted outranks anything returned |
| ReadyOrders.TopHalfIsListed | recon/core/queue.py:451-505 | of a fair list the places of the first lane, half of them, go to the tasks of highest priority |
| ReadyOrders.HighestPriorityIsListed | recon/core/queue.py:497-505 | from one place on a task of the greatest priority of all is listed |
| ReadyOrders.EldestIsListed | recon/core/queue.py:497-505 | from three on the oldest of all |
| ReadyOrders.LowestPriorityIsListed | recon/core/queue.py:497-505 | from two on one of the least priority of all |
| ReadyOrders.BestExplorationIsListed | recon/core/queue.py:421-449 | from five on the best task marked for exploration |
| Dispatchers.Dispatcher.constructor | recon/runtime.py:2890-2899 | all slots free, nothing running |
| Dispatchers.Dispatcher.Choose | recon/runtime.py:2904-2919 | asks for the fair batch of the free slots, remaining steps and free worker capacity; whatever of it is admitted will fit |
| Dispatchers.Dispatcher.ChoiceFillsRoom | recon/runtime.py:2904-2919 | the choice fits the free slots, the steps left, the batch size and every worker's limit, and below the first three leaves out only items of workers at their limit |
| Dispatchers.Dispatcher.Start | recon/runtime.py:2966-2976 | a ticket takes the lowest free slot and the next step; slots, worker counts and limits stay consistent |
| Dispatchers.Dispatcher.Dispatch | recon/runtime.py:2903-2987 | the admitted decisions take consecutive steps and the lowest free slots in order; it stalls exactly on an empty batch or backpressure |
| Dispatchers.AdmittedAreTickets | recon/runtime.py:2946-2976 | exactly the decisions answered by a ticket are started, in their order |
| Dispatchers.Dispatcher.EndAll | recon/runtime.py:2989-3010 | every completed execution returns its slot and its worker's unit, each once, in any order |
| Dispatchers.Dispatcher.Run | recon/runtime.py:2901-3063 | over any run: slots free and held are exactly 1..concurrency, worker limits and the step limit hold, taking a slot never fails; it stops only with nothing outstanding and all slots back, short of its steps exactly when an idle round finds no deferred task or none due within its patience, and never comes round without waiting |
| Dispatchers.AllSlotsReturned | recon/runtime.py:2898-2997 | with nothing under way the slot list is 1..concurrency in order |
| Dispatchers.BatchWithinCapacity | recon/runtime.py:2911-2919 | a batch never overdraws a worker's free slots |

## Left out

- BudgetRuns.CapsHoldOverRuns: demands are 0 or above the tolerance of 1e-9, as for every result about the ledger's caps; `OverrunIffTiny` shows that below it the caps do not hold, and `CapsHoldUpToDust` what holds for all demands.
- BudgetDrift.CapsHoldUpToDust: supposes that no close raises the underflow error, which leaves a reservation ACTIVE with part of its items taken off the totals.
- Lifecycles.Lifecycle.Admit: requires the same of its request, and exact books; budget steps of other coroutines inside an admission are left to the joint machine, where reserve, claim and release are separate moves.
- ExecutionRuns.MoveKeepsInv: admissions follow the ledger, which is the store for demands above the tolerance.
- TaskStores.InMemoryTaskStore.Put: keeps the whole store sound for records as `enqueue` passes them, validated, PENDING or DEFERRED and with a minted id, and for other records only the dictionaries; a task's id is minted when it is enqueued rather than when it is built.
- BudgetManagers.CompileChecks: leaves the order of the merged checks open; the code sorts them, and no decision depends on it.
- RateRuns.RetryAfterIsExact: speaks of tokens only; the wait for slots is the earliest expiry of a lease in the bucket, which a release can beat.
- Dispatchers.Dispatcher.Run: is driven by finitely many answers of its surroundings, since the loop itself has no bound; its invariants hold after every number of them. An execution whose result raises ends the run and is not followed further.
- ConvergenceOverlap.ClosesHardOrSlowly: takes the clock of an evaluation to read no earlier than that of the evaluation whose result it found.
- Cancellation of an admission or an execution at other points than between reservation, claim and release.
- The asyncio machinery: locks, task groups, shields, the heartbeat timer and the shutdown grace appear as nondeterministic interleavings and endings.
- The SQLite stores; the in-memory stores carry the contract.
- What gates, the review coordinator, the budget planner and the yield model compute: arbitrary inputs of the right type.
- Attempt-observer rows, progress events and error texts that no decision reads.
- Scores and ranking of the scheduler: the ranked list is an input.
- Text normalisation (stripping, case folding) of names, reasons and targets; the mention of exploration in a task's texts is a given set of marked tasks.
- Rule matching by worker and glob pattern: the matched rules and resources are an input.
- `bucket_state`, `next_ready_at`, waiting statistics and other diagnostics.
- `await_acquire`: the retry loop around an acquisition.
- Compatibility paths of the dispatcher for lifecycles without batch admission.
- Rounding of floating-point numbers: all arithmetic is exact.
