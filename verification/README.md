# Verification of the protocols and rules of the museum catalogue

This project models, in Dafny, the parts of the catalogue whose correctness does not show in one function: the
background worker and its registry, the idempotent batch of movements, the tree of locations, the rule checker of the
code base, the SLA verdict of the load test, the review of AI suggestions, the data and schema migrations and two
reconciling loops. `dafny verify dfyconfig.toml` checks all of it.

Code that changes state is modelled by classes and methods with loops (`Jobs`, `BatchMovement.Session`,
`LocationForest`, `DeleteScan`, `RuleGate`, `LoadCounters.Counters`, `Suggestions.Session`, the migrations,
`CatalogGeneration.Catalog`, `TemplateSync.TemplateStore`). Each method is proved equal to a function of the old state,
and the lemmas state what that function promises. Concurrency is a relation between states: every interleaving is a
sequence of steps, and the lemmas hold in every state of every such sequence.

| module | what it holds |
|---|---|
| `WorkerProtocol` | the worker thread, the producers, `start_workers`, the registry and `stop`, interleaved step by step, with a clock |
| `Jobs` | the worker registry as objects, and the heartbeat |
| `BatchMovement` | one batch request: service, endpoint, session and rollback |
| `BatchProtocol`, `BatchRuns` | any number of batch requests at once, with crashes, lost answers, retries and other writers |
| `BatchDeadlock` | which requests can block each other by their locks |
| `LocationForest` | the tree of visible locations, built by one pass over mutable nodes, and the guard that keeps cycles out |
| `DeleteScan`, `RuleGate` | the scan for physical deletes, the table checks, and what the silence of all of them means |
| `Percentiles`, `LoadCounters` | the statistics and verdict of the load test, and the counters its workers share |
| `Suggestions` | the review of AI suggestions |
| `TenureAliases`, `AbsenceMarkers`, `PieceRename` | three migrations, each form and each direction |
| `CatalogGeneration`, `TemplateSync` | the batching generator and the template reconciliation |
| `Common`, `Ordering` | optional values, sequences and sets, and `sorted` |

## Where the code does not keep a promise

Each of these is stated exactly, for all inputs, and comes with a lemma that stands at a run or an input where it fails.

- `start_workers` wakes a worker before it lists it, so a `notify` in between, or after `stop_workers` took it off the
  list, does not find it although its thread runs. Until it is taken off no wake-up is lost if and only if the worker is
  listed first (`WorkerProtocol.NoneIsLostExactlyWhenListedFirst`); in the program's order an item committed and notified
  in a state is lost if and only if the worker is woken and not listed, its flag down and no drain about to begin
  (`WorkerProtocol.NewItemIsLostExactlyWhen`; the run: `WorkerProtocol.NotifyBeforeListingIsLost`). Such an item is
  taken by polling, after the interval at the latest and the drains (`WorkerProtocol.NotifiedItemsAreDrainedWithinTwoDrains`).
- A committed verification records the truth if and only if its pieces were still at the destination when it got their
  locks; a piece is read before it is locked and not read again
  (`BatchProtocol.CommittedVerificationIsTrueExactlyWhenFresh`; the run: `BatchProtocol.StaleVerificationIsRecorded`).
  A move is protected by the version of the piece (`BatchProtocol.CommittedMovesAreAtomic`).
- After a key expires its row still holds the unique index. Until it is cleaned, a retry with that key is refused by the
  index instead of being run again (`BatchMovement.ExpiredKeyRefusesTheRetry`; the run:
  `BatchRuns.ExpiredKeyIsRefusedInARun`).
- Batches can block each other: pieces are locked in the order of the request. Requests can if and only if they are
  tangled, and two requests if and only if they name two pieces in opposite orders
  (`BatchDeadlock.RequestsCanBlockExactlyWhenTangled`, which builds the run,
  `BatchDeadlock.TwoCanBlockExactlyWhenOpposite`); nothing but the end of one of them by the database lets the others
  go on (`BatchDeadlock.BlockedForGood`). Requests that name their pieces in one common order never do
  (`BatchDeadlock.OneOrderNeverBlocks`).
- The generator ends if and only if there is nothing to do or a batch holds at least one piece
  (`CatalogGeneration.LoopEndsExactlyWhenBatchesHoldSomething`; a batch size of 0:
  `CatalogGeneration.EmptyBatchesNeverEnd`).
- The verdict of the load test passes a p95 of up to 2000.005 ms and fails an error rate from 0.995 % on, because both
  are rounded before they are compared with 2000 ms and 1 % (`Percentiles.VerdictIsExact`; a p95 of 2000.004 ms passes:
  `Percentiles.PassesAboveTheTarget`; 2 errors in 201 requests fail: `Percentiles.FailsBelowTheErrorTarget`).

## Exact conditions, and what keeps the input out

These hold under a condition that the rest of the program sees to. The condition is exact, and a lemma shows what the
code does without it.

- The location tree is a permutation of the visible locations if and only if no location is its own ancestor
  (`LocationForest.ForestIsAPermutationIffAcyclic`; without it, `LocationForest.CycleDisappears`). A relocation is
  refused by `would_cycle`, exactly when it would close a cycle (`LocationForest.RelocationIsSafeExactlyOutside`), and
  then pruning loses nothing (`LocationForest.PrunedTreeKeepsAll`). Two relocations at the same time are not covered.
- The live and the offline form of migration 0018 agree if and only if no missing code is listed twice; otherwise the
  unique constraint refuses the live form, and the offline form stores one
  (`TenureAliases.FormsAgreeIffCodesAreListedOnce`, `TenureAliases.LiveSucceedsIffListedOnce`; without it,
  `TenureAliases.ListedTwiceDiffers`). Its list is a constant without repetitions (`TenureAliases.OwnTermsAgree`).
- The forms of migration 0020 leave the same set of markers if and only if the stored value is not null, and the same
  list up to order if and only if, besides, it has no repetitions (`AbsenceMarkers.UpgradeFormsAgree`; a repeated marker:
  `AbsenceMarkers.RepeatedMarkerIsStoredOnceOffline`); their downgrades agree if and only if the list has no null
  elements (`AbsenceMarkers.DowngradeFormsAgree`). The settings accept lists of texts only
  (`apps/api/app/modules/identification/params_schemas.py:66`); the migration promises the set.
- The template reconciliation is idempotent if and only if no illustrative name is active twice; otherwise each run
  retires one more (`TemplateSync.SecondRunIsIdleExactlyWhenIllustrativeNamesAreDistinct`; a name active twice:
  `TemplateSync.TwiceActiveNeedsTwoRuns`). `_check_name_free` refuses a second active template of a name
  (`apps/api/app/modules/imports/templates.py:144-155`).
- The generator completes if and only if the normalization tells the new numbers apart
  (`CatalogGeneration.Catalog.Generate`; without it, `CatalogGeneration.OneCodeForAllIsRefused`). The normalization of
  inventory codes is not part of this model.
- The rename migration runs if and only if the names it takes away are there and those it gives are free
  (`PieceRename.MigrationRunsExactlyWhenReady`), which the migration before it sees to.

Where the code and its documentation differ, the model follows the code: `docs/adr/ADR-016-claves-idempotencia-lotes.md`
(line 18) answers a reused key with status 409, the code raises the error that becomes 422
(`apps/api/app/api/v1/locations.py:304-308`); the names of the answers in `BatchMovement` follow the code.

## Model

| member | source | states |
|---|---|---|
| `WorkerProtocol.StepKeepsInv` | apps/api/app/core/jobs.py:117-183 | Every step of the thread, the producers, `start_workers`, `stop_workers`, `stop` or the clock keeps the inductive invariant: no wake-up is lost but by a `notify` that did not find the worker, the flag is up for a signalled thread that has still to leave `wait`, and at most one drain begins after the stop event. |
| `WorkerProtocol.WakeupsAreNeverLost` | apps/api/app/core/jobs.py:117-183 | In every state of every interleaving, a notified item that no drain took, or left since it was notified, has the flag up or still to be raised by `start_workers`, or a drain about to begin, or a running drain that began after its commit, unless stop was requested; provided that `notify` found the worker listed or the commit came before its first drain. |
| `WorkerProtocol.NoneIsLostExactlyWhenListedFirst` | apps/api/app/core/jobs.py:160-171 | Until the worker is taken off the list, every notified item is on its way in every reachable state, without that proviso, if and only if the worker is listed before it is woken. |
| `WorkerProtocol.NewItemIsLostExactlyWhen` | apps/api/app/core/jobs.py:160-183 | In every reachable state, an item committed and notified there is lost if and only if the worker is woken and not listed, its flag is down and no drain is about to begin; its first drain has begun then. |
| `WorkerProtocol.NotifyBeforeListingIsLost` | apps/api/app/core/jobs.py:160-183 | A run of the program in which the worker drains before it is listed, an item is notified meanwhile, and the listed thread sleeps with the flag down and the item untaken. |
| `WorkerProtocol.TheStateIsTheHistory` | apps/api/app/core/jobs.py:117-183 | In every state of every run, what the lemmas say of it is the history of the actions: what was committed, taken, notified and when, which look-ups found no listed worker, what was committed before the first drain of the woken worker, what a running drain has in its hands, and what drains have left; how far the callers are, whether the flag is up, from when the thread waits, and how many drains began after the stop event. |
| `WorkerProtocol.CallersAreNeverHeldUp` | apps/api/app/core/jobs.py:160-183 | Each step of `start_workers`, `stop_workers`, `stop`, `notify` and the clock is enabled as soon as the one before it is done, and a drain may end with any committed items. |
| `WorkerProtocol.SignalledThreadIsNotBlocked` | apps/api/app/core/jobs.py:126-138 | With both signals sent, whatever the interval, the thread's next own step is enabled without waiting for time, and it lowers the rank. |
| `WorkerProtocol.StopBoundsTheThread` | apps/api/app/core/jobs.py:126-142 | From the stop event on, from any program point, all later steps of the thread together are at most its rank (at most 3), and at most one drain begins. |
| `WorkerProtocol.ClearAfterDrainLosesAWakeup` | apps/api/app/core/jobs.py:135-140 | Why `clear` comes before `drain`: with the other order some run loses a wake-up. |
| `WorkerProtocol.WakeBeforeStopCanSleep` | apps/api/app/core/jobs.py:126-128 | Why `stop` sets the stop event first: with the other order some run ends with both signals sent and the thread asleep. |
| `WorkerProtocol.NextDrainBeginsWithinInterval` | apps/api/app/core/jobs.py:133-142 | After a drain ends, by returning or raising, no more than the interval passes before the next one begins, absent stop. |
| `WorkerProtocol.ADrainFollows` | apps/api/app/core/jobs.py:133-142 | No state is stuck in time: from every state of a timed run in which the thread is woken, not stopped and neither before its start nor after its exit, the run goes on, by steps of the thread and of the clock alone, to a drain that begins with everything committed in its hands: at once if the flag is up or the thread has left `wait`, otherwise an interval after the last drain, whenever a running one ends. |
| `WorkerProtocol.SleepsForTheInterval` | apps/api/app/core/jobs.py:133-136 | With the flag down the thread does not leave `wait` before the interval is over. |
| `WorkerProtocol.PollsEveryInterval` | apps/api/app/core/jobs.py:133-142 | A drain that no flag calls for begins exactly an interval after the end of the one before. |
| `WorkerProtocol.WokenThreadDrainsAtOnce` | apps/api/app/core/jobs.py:160-171 | A wake-up outside a drain leads to the next drain with no time in between; so the first drain of a started worker needs no interval wait. |
| `WorkerProtocol.NotifiedItemsAreDrainedWithinTwoDrains` | apps/api/app/core/jobs.py:133-183 | While nobody stops the worker, a notified item that no drain had in its hands and left waits no longer than two drains if `notify` found the worker or the commit came before its first drain, and no longer than the interval and two drains in any case. |
| `WorkerProtocol.LeftItemsAreTriedAgain` | apps/api/app/modules/quality/incremental.py:132-170 | What a drain leaves, because it raised, failed in silence or takes a batch of limited size, is in the hands of every later drain until one takes it, and n of them have ended before n + 1 intervals and drains are over. |
| `Jobs.PollingWorker.Start` | apps/api/app/core/jobs.py:117-121 | Starting twice keeps the thread; otherwise a new thread, which lives unless the stop event is set, since its first test would end it. |
| `Jobs.PollingWorker.Stop` | apps/api/app/core/jobs.py:126-131 | Both events set, the thread gone and dead (joined). |
| `Jobs.Registry.RegisterWorker` | apps/api/app/core/jobs.py:155-157 | The spec of a name is the last one registered, the place of a name the first; running workers do not change. |
| `Jobs.Registry.StartWorkers` | apps/api/app/core/jobs.py:160-171 | Afterwards exactly the registered queues and those that ran are running; a queue that ran keeps its worker, every other one has a new worker of its current spec with the flag up, and exactly these are returned, in the order in which their queues were registered. |
| `Jobs.Registry.StopWorkers` | apps/api/app/core/jobs.py:174-176 | Nothing runs, every worker that ran is stopped, and no thread ever started is alive. |
| `Jobs.Registry.Notify` | apps/api/app/core/jobs.py:179-183 | Raises the flag of the named worker and of no other; nothing when it does not run. |
| `Jobs.Registry.OneLiveThreadPerQueue` | apps/api/app/core/jobs.py:151-176 | Over any sequence of calls a queue has at most one live thread, and one exactly when it runs. |
| `Jobs.Heartbeat.Tick` | apps/api/app/core/jobs.py:72-76 | Unforced beats are at least `every` apart; a beat that raises leaves the object as it was, so the next call tries again; the recorded beat is that of the whole history of calls. |
| `Jobs.LiveJobIsNotStale` | apps/api/app/core/jobs.py:49-76 | With ticks at most `gap` apart and the last f of them unable to beat, the job is not stale until `gap` after the last tick if `every + (f + 1) gap` fits in the timeout. |
| `Jobs.SilentJobIsStale` | apps/api/app/core/jobs.py:49-76 | A job none of whose calls could beat looks interrupted at any time. |
| `Jobs.StalenessBoundIsExact` | apps/api/app/core/jobs.py:49-76 | With beats that succeed, no schedule makes a live job look interrupted if and only if `every + gap <= timeout`. |
| `BatchMovement.BatchSucceedsExactlyWhenExecutable` | apps/api/app/modules/locations/service.py:490-540 | The checking loop finds no failure if and only if the pieces are distinct, exist, and are where the kind of batch needs them. |
| `BatchMovement.PrecheckMeans` | apps/api/app/modules/locations/service.py:465-490 | The tests before the pieces accept a batch if and only if its destination is an undeleted, active space and it has 1 to 200 items of a known kind; a refusal gives the reason that holds, in the order of the tests. |
| `BatchMovement.Session.MovePiecesBatch` | apps/api/app/modules/locations/service.py:465-568 | The two loops return exactly the failures in item order and then write nothing, or write exactly one row and one change per piece. |
| `BatchMovement.Session.MoveEndpoint` | apps/api/app/api/v1/locations.py:294-354 | The stored data and the answer after the endpoint, in every branch: known key, reused key, refused destination, failures, unique-index violation, success. |
| `BatchMovement.ServeRequest` | apps/api/app/api/deps.py:60-66 | With the rollback on every exit, what is stored is the result of the committed request or the old data, and nothing is left pending. |
| `BatchMovement.AllOrNothing` | apps/api/app/api/v1/locations.py:315-354 | A request changes the data if and only if the batch is accepted and executable and its key is free, and then it stores exactly one row per item, from where the piece was, the moves, each of an undeleted piece that stays so and has the next version, and the answer under the key for 24 hours. |
| `BatchMovement.ThereAndBack` | apps/api/app/modules/locations/service.py:490-568 | After a registered move of pieces from one place, the batch back expects and finds them where they are; once registered, every piece is where it was, undeleted, two versions later, with its availability unless a destination proposed another. |
| `BatchMovement.RefusalsStoreNothing` | apps/api/app/api/v1/locations.py:300-330 | A request is refused exactly when its valid key is stored for another body or, without such a key, the batch is not accepted; it stores nothing and gives the reason that holds. |
| `BatchMovement.FailuresStoreNothing` | apps/api/app/api/v1/locations.py:331-340 | A batch with a failure that is not answered from its key stores nothing and leaves the key as it was; its failures are exactly those that some item has for the reason its code names; and the status is a conflict if and only if a piece of a move is neither where the request expects it nor at the destination. |
| `BatchMovement.RetryAnswersTheSame` | apps/api/app/modules/locations/idempotency.py:28-34 | Before it expires, a stored key answers the same rows to the same body and refuses any other body, storing nothing, whatever else changed. |
| `BatchMovement.ExpiredKeyRefusesTheRetry` | apps/api/alembic/versions/0008_locations_idempotency.py:82-84 | An expired key that was not cleaned refuses an executable retry through the unique index. |
| `BatchProtocol.StepKeepsOnce` | apps/api/app/api/v1/locations.py:341-354 | The exactly-once invariant is kept by every step of every request, a crash, a lost answer, another writer or the clock. |
| `BatchProtocol.KeyedBatchesRunAtMostOnce` | apps/api/app/api/v1/locations.py:300-354 | Under any interleaving, the rows of one key come from one request at most, and all its successful answers are that request's rows, for one body. |
| `BatchProtocol.StoredKeyIsFinal` | apps/api/app/modules/locations/idempotency.py:28-58 | A stored key stays with its answer, and no later request with it writes a row, even after it expires. |
| `BatchProtocol.LookupAnswersAsAlone` | apps/api/app/api/v1/locations.py:300-330 | Among any other requests, the look-up answers at once exactly when the key is stored and valid or the batch is not accepted, and then as if the request ran alone; otherwise it goes on and holds nothing. |
| `BatchProtocol.FinishExplainsItself` | apps/api/app/api/v1/locations.py:331-354 | In every run, a request that ends without storing has released its locks, and its outcome says why: the failures of the pieces as it read them, each for its reason and with the right status; a piece of a move with another version by now; or its key stored meanwhile. |
| `BatchProtocol.SurroundingsAreFree` | apps/api/app/api/deps.py:60-66 | At any moment a request may begin, or crash and then holds no lock, an answer may be lost, another writer may change a location or an unlocked piece, and time may pass. |
| `BatchProtocol.StepKeepsReadInv` | apps/api/app/modules/locations/service.py:331-334 | What a request read is the current piece or an older version; what it locked is current; every step keeps this. |
| `BatchProtocol.CommittedMovesAreAtomic` | apps/api/app/modules/catalog/models.py:79-81 | A committed move batch has the effect and the answer of running alone on the data of its commit, although it read its pieces earlier. |
| `BatchProtocol.CommittedVerificationIsTrueExactlyWhenFresh` | apps/api/app/modules/locations/service.py:500-537 | A committed verification has the effect of running alone if and only if every piece was undeleted and at the destination when its lock was granted. |
| `BatchProtocol.StaleVerificationIsRecorded` | apps/api/app/modules/locations/service.py:500-537 | A run in which a verification is recorded for a piece that had left. |
| `BatchRuns.ExpiredKeyIsRefusedInARun` | apps/api/app/modules/locations/idempotency.py:28-34 | A run in which a batch is registered, its key expires, and the same request is neither answered as before nor run again. |
| `BatchRuns.LostAnswerIsGivenAgain` | apps/api/app/modules/locations/idempotency.py:28-34 | From any state of any run in which a request with a key has its rows, the answer may be lost, and while the key is valid the same request, sent again, gets the same rows and stores nothing more. |
| `BatchDeadlock.BlockedForGood` | apps/api/app/modules/locations/service.py:331-334 | Requests that wait for each other's locks stay so to the end of any run in which none of them is ended. |
| `BatchDeadlock.BlockedRequestsAreTangled` | apps/api/app/modules/locations/service.py:493-506 | In every state of every run, requests that block each other are tangled: a piece can be chosen for each of some of them so that each names the piece of another after its own. |
| `BatchDeadlock.RequestsCanBlockExactlyWhenTangled` | apps/api/app/modules/locations/service.py:493-506 | Some run over given data blocks some of given requests if and only if the requests are tangled. |
| `BatchDeadlock.TwoCanBlockExactlyWhenOpposite` | apps/api/app/modules/locations/service.py:493-506 | Two requests can block each other if and only if they name two existing pieces in opposite orders. |
| `BatchDeadlock.OneOrderNeverBlocks` | apps/api/app/modules/locations/service.py:493-506 | Requests that name their pieces in one common order never block each other. |
| `LocationForest.HangNext` | apps/api/app/api/v1/locations.py:121-125 | One pass of the loop appends one node to its visible parent's children, or to the roots, and changes no other list. |
| `LocationForest.GetLocationsTree` | apps/api/app/api/v1/locations.py:102-126 | The roots and the children of every node are exactly the visible locations that hang there, in code order. |
| `LocationForest.EachLocationOnceIffItsChainEnds` | apps/api/app/api/v1/locations.py:120-126 | Reading the forest from its roots meets a visible location once if its chain of visible ancestors ends, otherwise never, and meets nothing else. |
| `LocationForest.ForestIsAPermutationIffAcyclic` | apps/api/app/api/v1/locations.py:104-126 | The forest is a permutation of the visible locations if and only if every chain ends. |
| `LocationForest.EdgesAreTheVisibleLinks` | apps/api/app/api/v1/locations.py:121-125 | The edges are exactly the parent links with both ends visible; a node without a visible parent is a root; siblings keep code order. |
| `LocationForest.CycleDisappears` | apps/api/app/api/v1/locations.py:120-126 | Two locations inside each other are in no tree. |
| `LocationForest.SubtreeIds` | apps/api/app/modules/locations/hierarchy.py:80-93 | The walk finds exactly a location and all that is inside it, even where chains run in a cycle. |
| `LocationForest.WouldCycle` | apps/api/app/modules/locations/hierarchy.py:96-100 | The guard holds exactly when the new parent is the location or inside it. |
| `LocationForest.RelocationIsSafeExactlyOutside` | apps/api/app/modules/locations/service.py:220-252 | Where every chain of parents ends, a relocation keeps that if and only if the guard lets it through. |
| `LocationForest.PrunedTreeKeepsAll` | apps/api/app/api/v1/locations.py:104-126 | Where every chain of the stored locations ends, the tree of any visible part of them is a permutation of that part. |
| `DeleteScan.ArgumentTableOfCallee` | apps/api/app/core/cross_cutting.py:361-369 | However often an argument is called, its table is that of the innermost callee. |
| `DeleteScan.DeletedTableMeans` | apps/api/app/core/cross_cutting.py:372-391 | The classification names a table exactly for the calls that delete rows, and which table. |
| `DeleteScan.ScanFile` | apps/api/app/core/cross_cutting.py:400-417 | The worklist walk visits every node of the tree once and reports each finding once. |
| `DeleteScan.UnjustifiedPhysicalDeletes` | apps/api/app/core/cross_cutting.py:394-418 | The findings are those of all files, each once, sorted by location. |
| `DeleteScan.ScanIsSoundAndComplete` | apps/api/app/core/cross_cutting.py:394-418 | A finding is reported if and only if some position of some file holds a delete of a table that this file may not delete. |
| `DeleteScan.EachDeleteIsReportedOnce` | apps/api/app/core/cross_cutting.py:400-417 | In a file, a finding is made exactly as often as there are positions that hold it. |
| `DeleteScan.LocationsAreDistinct` | apps/api/app/core/cross_cutting.py:409-415 | The location of a finding determines its file and its line, the line in decimal digits, even where the path has colons. |
| `DeleteScan.MigrationAppendOnlyTables` | apps/api/app/core/cross_cutting.py:421-440 | The tables returned are exactly those that some node of some migration declares by a literal, in any of the forms that `literal_eval` reads; other values are skipped, and the function fails exactly when a literal has a member that cannot be one. |
| `DeleteScan.EvalMeans` | apps/api/app/core/cross_cutting.py:433 | A literal has a value if and only if its form is accepted: constants, signed numbers, complex sums, `set()`, and collections and dictionaries of such, with members and keys that may be one. |
| `DeleteScan.EvalFaultMeans` | apps/api/app/core/cross_cutting.py:433-435 | The error of type comes out exactly when the first fault, in the order of evaluation, is an accepted value that may not be a member or a key, here or below. |
| `DeleteScan.DeclaredTablesMean` | apps/api/app/core/cross_cutting.py:426-439 | A node declares a table if and only if it assigns to the list, among its targets, an accepted literal that is a string of that text or a list, tuple or set with an element that shows as it. |
| `DeleteScan.RaisesMeans` | apps/api/app/core/cross_cutting.py:426-435 | What fails the function: an assignment to the list of a literal with a fault of type. |
| `DeleteScan.DeclaresIsAPosition` | apps/api/app/core/cross_cutting.py:426-439 | A declaration is found if and only if it stands at some position of the tree. |
| `RuleGate.ModelFacts` | apps/api/app/core/cross_cutting.py:250-268 | One fact per model, with its exceptions, in order of table. |
| `RuleGate.MissingDeleteProtection` | apps/api/app/core/cross_cutting.py:271-292 | One finding per table that lacks the guarantee, in the order of the facts. |
| `RuleGate.MissingAuditCoverage` | apps/api/app/core/cross_cutting.py:295-314 | The same for the audit. |
| `RuleGate.StaleExceptions` | apps/api/app/core/cross_cutting.py:317-351 | The findings of every exception, in order of table. |
| `RuleGate.SilenceIsAnExactPartition` | apps/api/app/core/cross_cutting.py:271-351 | The three checks are silent if and only if every exception names a table, soft deletion is excepted exactly for the tables with neither guarantee, and the audit exactly for those not audited among the tables that are not append-only (an append-only table may have that exception only if it is not audited). |
| `RuleGate.GateFindsExactly` | apps/api/app/core/cross_cutting.py:250-351 | Over the models, with the facts in any order: a finding is made if and only if it is deserved. A table lacks a guarantee when its model has neither and no exception says so; an exception is stale when no model has its table or the model has what it excepts. |
| `RuleGate.GateIsSilentExactlyForAPartition` | apps/api/app/core/cross_cutting.py:250-351 | The three checks find nothing in the facts of the models if and only if the exceptions partition the models by their own soft deletion, append-only mark and audit. |
| `RuleGate.SilentGateProtectsTables` | apps/api/app/core/cross_cutting.py:211-220 | Silent checks, allowed deletes only of excepted tables and a clean scan: no delete at any position of any file names a soft-delete or append-only table. |
| `RuleGate.AppendOnlyMismatches` | apps/api/app/core/cross_cutting.py:443-478 | The findings are the three differences of the lists, each in order of table; there are none if and only if declared and listed tables are equal and all protected. |
| `RuleGate.MismatchesFindExactly` | apps/api/app/core/cross_cutting.py:443-478 | A finding of the lists is made if and only if a model is append-only and its table not listed, or a table is listed without such a model, or it has one and no trigger. |
| `Ordering.SortSet` | apps/api/app/core/cross_cutting.py:448-467 | Sorting a set gives its one ascending list, in whatever order its members are met. |
| `Ordering.SortedIsStable` | apps/api/app/core/cross_cutting.py:268 | Elements with the same key keep their order. |
| `Ordering.LeqMeans` | apps/api/app/core/cross_cutting.py:268 | Strings are ordered by code points: up to some place they are the same, and there the lesser ends or has the lesser code point. |
| `RuleGate.OwnListsAreConsistent` | apps/api/app/core/cross_cutting.py:68-220 | The program's own lists meet the assumptions of the lemma on the gate. |
| `Percentiles.PctMonotone` | scripts/perf/search_load.py:160-166 | Percentiles grow with p, within and across interpolation segments; the index never leaves the list. |
| `Percentiles.PctInterpolates` | scripts/perf/search_load.py:160-166 | Where `p (n - 1)` is `i + t` with `t` from 0 to 1, both included, the percentile is `(1 - t) s[i] + t s[i + 1]`: so it is the sample at a position of a sample, and it has no jump. |
| `Percentiles.PctAtASample` | scripts/perf/search_load.py:160-166 | Where `p (n - 1)` is a whole number i, the percentile is the sample at i. |
| `Percentiles.StatsMean` | scripts/perf/search_load.py:157-176 | Each of the four percentiles of the answer is that mixture for its own p, rounded. |
| `Percentiles.ExtremesAndAverage` | scripts/perf/search_load.py:157-172 | The other three are the least and the greatest sample and the sum of the samples, in any order, over their number, rounded. |
| `Percentiles.NoSamplesGiveZeros` | scripts/perf/search_load.py:144-155 | Without samples all seven are zero. |
| `Percentiles.StatsAreOrdered` | scripts/perf/search_load.py:144-176 | min <= p50 <= p90 <= p95 <= p99 <= max and min <= avg <= max, after rounding, for any samples. |
| `Percentiles.StatsIgnoreOrder` | scripts/perf/search_load.py:157-176 | The result is the same for any permutation of the samples. |
| `Percentiles.PercentileCounts` | scripts/perf/search_load.py:160-166 | A percentile within a bound leaves at least floor(p(n-1)) + 1 samples within it; one above leaves at least n - 1 - floor(p(n-1)), and at least one, above it. |
| `Percentiles.Round2Shift` | scripts/perf/search_load.py:169-175 | Rounding to two decimals moves a value by at most 0.005. |
| `Percentiles.VerdictIsExact` | scripts/perf/search_load.py:262-270 | The verdict holds if and only if the exact p95, if there are latencies, is at most 2000.005 and, if there are requests, fewer than 0.995 % of them failed. |
| `Percentiles.PassesAboveTheTarget` | scripts/perf/search_load.py:169-175 | A p95 of 2000.004 ms passes. |
| `Percentiles.FailsBelowTheErrorTarget` | scripts/perf/search_load.py:262-270 | 199 latencies and 2 errors fail, with less than 1 % of errors. |
| `Percentiles.TwoLatenciesFail` | scripts/perf/search_load.py:157-270 | Latencies of 1000 and 3000 ms have a p95 of 2900 ms, and the run fails. |
| `Percentiles.VerdictMeansWhatItSays` | scripts/perf/search_load.py:267-270 | What a pass or a failure says about how many samples are within the target. |
| `LoadCounters.Counters.Record` | scripts/perf/search_load.py:113-138 | What one answer, good, bad or raised, does to the shared lists. |
| `LoadCounters.DrawsFollowTheMix` | scripts/perf/search_load.py:61-93 | The draws that give a type are an interval as long as its documented share: 40, 25, 20 and 15 %. |
| `LoadCounters.CountersHoldTheAnswers` | scripts/perf/search_load.py:113-138 | In every state of every interleaving, however types are drawn, the latencies are the durations of the good answers in order, each list by type those of its type, and the errors the other answers and the good ones of an unknown type. |
| `LoadCounters.ConservedExactlyWhenTypesAreKnown` | scripts/perf/search_load.py:214-221 | However types are drawn, the total counts every answer once and the latencies are those of the four types together if and only if no good answer has a type without a list; each of those is counted twice. |
| `LoadCounters.CountersAreConserved` | scripts/perf/search_load.py:61-141 | With the types of `generate_query`, for any number of interleaved workers: answers equal latencies plus errors, latencies equal the sum over the four types, and requests sent equal answers plus those waiting. |
| `Suggestions.Session.ApproveEndpoint` | apps/api/app/api/v1/admin.py:551-582 | Stored data and answer of every branch; the catalogue and the review are stored together or not at all. |
| `Suggestions.Session.RejectEndpoint` | apps/api/app/api/v1/admin.py:592-612 | The same for a rejection. |
| `Suggestions.Session.SuggestEndpoint` | apps/api/app/api/v1/admin.py:505-541 | The same for a new suggestion, which is pending. |
| `Suggestions.Serve` | apps/api/app/api/deps.py:60-66 | A failing application leaves neither the review nor what it had written. |
| `Suggestions.HandleKeepsInv` | apps/api/alembic/versions/0001_core_data_model.py:423-425 | Every request keeps the three constraints, the catalogue as the replay of the committed applications, one application per suggestion approved since the start with a piece, and the suggestions reviewed before it. |
| `Suggestions.LifecycleIsSafe` | apps/api/app/api/v1/admin.py:505-612 | All of that in every stored state of every serial run, from any stored data that meet the constraints. |
| `Suggestions.CreationAwaitsReview` | apps/api/app/api/v1/admin.py:505-541 | An accepted creation stores one new suggestion, on the requested piece, with the whole output, pending and without a review, and nothing else. |
| `Suggestions.CreatedThenAppliedOnce` | apps/api/app/api/v1/admin.py:505-582 | In every state of a serial run after it, a suggestion created for a piece keeps the piece and the output; it was applied exactly once if it is approved, else never; and what was applied went to that piece, with the data stored as approved. |
| `Suggestions.ReviewIsFinal` | apps/api/app/api/v1/admin.py:557-561 | A reviewed suggestion, reviewed in the run or before it, never changes again and is never applied again. |
| `Suggestions.ReviewIsThatOfOneRequest` | apps/api/app/api/v1/admin.py:551-612 | In every state of every serial run, what is stored of a suggestion reviewed in the run is what one request decided that found it pending (approved in full or in part by the number of fields, by whom, when, why), and no other review of it succeeded. |
| `Suggestions.FailureChangesNothing` | apps/api/app/api/deps.py:60-66 | A request succeeds exactly when it is acceptable, and changes nothing otherwise; one that succeeds answers what it stored, and only an approval writes the catalogue, with one application and on no other sheet than that of its piece. |
| `TenureAliases.AddTermsLive` | apps/api/alembic/versions/0018_tenure_aliases.py:116-161 | The live form: the missing codes with consecutive orders after the maximum, in one insert, which the unique constraint refuses or stores after the old terms. |
| `TenureAliases.AddTermsOffline` | apps/api/alembic/versions/0018_tenure_aliases.py:103-115 | The offline form: one conditional insert per code, each seeing those before it and subject to the constraint. |
| `TenureAliases.VocabularyIdFinds` | apps/api/alembic/versions/0018_tenure_aliases.py:128-132 | The vocabulary looked up has the code, and none is found only if none has it. |
| `TenureAliases.MaxOrderMeans` | apps/api/alembic/versions/0018_tenure_aliases.py:136-140 | The order counted from is the greatest of the vocabulary, or zero without terms. |
| `TenureAliases.LiveSucceedsIffListedOnce` | apps/api/alembic/versions/0001_core_data_model.py:331 | From terms with distinct codes per vocabulary, the insert of the live form is accepted if and only if no missing code is listed twice, and keeps the codes distinct. |
| `TenureAliases.OfflineAlwaysSucceeds` | apps/api/alembic/versions/0018_tenure_aliases.py:103-115 | From such terms no statement of the offline form is refused: the codes stay distinct, the old rows stay first and untouched, and every listed code is there. |
| `TenureAliases.FormsAgreeIffCodesAreListedOnce` | apps/api/alembic/versions/0018_tenure_aliases.py:103-161 | From terms with distinct codes, both leave the same terms and orders if and only if no missing code is listed twice; otherwise the live form is refused. |
| `TenureAliases.OwnTermsAgree` | apps/api/alembic/versions/0018_tenure_aliases.py:50-51 | On the migration's own terms both succeed and agree; a vocabulary that lacks both gains exactly these two rows. |
| `TenureAliases.ListedTwiceDiffers` | apps/api/alembic/versions/0018_tenure_aliases.py:103-161 | A missing code listed twice: the live form is refused, the offline form stores one term. |
| `TenureAliases.UpgradeSettingLive` | apps/api/alembic/versions/0018_tenure_aliases.py:72-100 | The live insert: nothing if an active row of the key is counted, else the migration's row, or an error if its id is taken. |
| `TenureAliases.SettingUpgradeFailsExactlyWhen` | apps/api/alembic/versions/0018_tenure_aliases.py:83-100 | The live insert fails if and only if the id is taken and no row of the key is active. |
| `TenureAliases.SettingFormsAgree` | apps/api/alembic/versions/0018_tenure_aliases.py:56-100 | The live and the offline insert leave the same settings or fail alike if and only if the database is PostgreSQL and the value survives its way as text, or there is nothing to insert or the id is taken. |
| `TenureAliases.SettingUpgradeUndoes` | apps/api/alembic/versions/0018_tenure_aliases.py:56-169 | Where the id is free both forms succeed: a row of the key is active, an administrator's row is kept, and the downgrade restores the old rows. |
| `AbsenceMarkers.SettingTable.ChangeLive` | apps/api/alembic/versions/0020_real_absence_markers.py:59-72 | The loop changes every active row of the key and no other row. |
| `AbsenceMarkers.RowChanges` | apps/api/alembic/versions/0020_real_absence_markers.py:59-72 | An active row of the key keeps everything but its list, which gains the markers it lacks, in their order, or loses both; a value whose list does not change stays as it is, a null too; any other row is untouched. |
| `AbsenceMarkers.LiveUpgradeIsIdempotent` | apps/api/alembic/versions/0020_real_absence_markers.py:66-72 | The upgrade keeps the old list as a prefix, holds every marker, and does nothing the second time. |
| `AbsenceMarkers.DowngradeAfterUpgrade` | apps/api/alembic/versions/0020_real_absence_markers.py:75-80 | Live downgrade after live upgrade is the old list without the markers; they undo each other exactly for lists that had none. |
| `AbsenceMarkers.UpgradeFormsAgree` | apps/api/alembic/versions/0020_real_absence_markers.py:41-72 | The two forms of the upgrade store the same set if and only if the stored value is not null, and the same list up to order if and only if, besides, it had no repetitions. |
| `AbsenceMarkers.DowngradeFormsAgree` | apps/api/alembic/versions/0020_real_absence_markers.py:49-72 | The two forms of the downgrade leave the same list up to order if and only if the stored value is a list without null elements. |
| `AbsenceMarkers.RepeatedMarkerIsStoredOnceOffline` | apps/api/alembic/versions/0020_real_absence_markers.py:44-48 | A marker stored twice: the live upgrade keeps both, the offline one stores it once. |
| `AbsenceMarkers.OwnMarkersAgree` | apps/api/alembic/versions/0020_real_absence_markers.py:28-80 | For every list of texts the offline upgrade stores the live set, and the offline downgrade after it the old texts that are none of the markers. |
| `PieceRename.RenameColumnsTranslates` | apps/api/alembic/versions/0002_piece_contract_names.py:57-58 | The column renames, one after another, are one simultaneous renaming of columns and of their uses. |
| `PieceRename.RenameKeysTranslates` | apps/api/alembic/versions/0002_piece_contract_names.py:61-66 | The same for the names of indexes and constraints, with what each stands for. |
| `PieceRename.RecreatingRenames` | apps/api/alembic/versions/0002_piece_contract_names.py:69-75 | Dropping and creating the plain indexes again equals renaming them when the columns given are those they have. |
| `PieceRename.PieceTable.Rename` | apps/api/alembic/versions/0002_piece_contract_names.py:53-75 | The statements of either direction on either dialect, each of which may fail: what they leave, and whether all ran; PostgreSQL undoes a failed migration. |
| `PieceRename.MigrationRunsExactlyWhenReady` | apps/api/alembic/versions/0002_piece_contract_names.py:53-75 | All statements run if and only if every name taken away is there, the index by trigrams aside, and no name given is taken; then exactly the renamed table is left. |
| `PieceRename.UpgradeCarriesEverything` | apps/api/alembic/versions/0002_piece_contract_names.py:53-75 | On either database the upgrade of an old schema leaves every column, index and constraint under its new name, in the order, with the columns and the uniqueness it had, and nothing else. |
| `PieceRename.FailureLeavesSqliteHalfway` | apps/api/alembic/versions/0002_piece_contract_names.py:57-75 | What a failed migration leaves on SQLite: the columns before the first that cannot be renamed, and nothing else; or all columns, the indexes before the first that cannot be created again, and that one dropped. |
| `PieceRename.DowngradeUndoesUpgrade` | apps/api/alembic/versions/0002_piece_contract_names.py:27-83 | For any schema with the old names and none of the new ones no statement of the upgrade fails, nor of the downgrade after it, and together they restore columns, index definitions and constraints, on both dialects. |
| `CatalogGeneration.DistinctMeansNoTwoClash` | apps/api/alembic/versions/0001_core_data_model.py:532 | What the partial unique index refuses: two current inventory codes alike. |
| `CatalogGeneration.Catalog.Commit` | scripts/perf/generate_catalog.py:178-180 | A batch is stored whole, or not at all when the index is violated. |
| `CatalogGeneration.Catalog.Build` | scripts/perf/generate_catalog.py:126-176 | The inner loop makes exactly the rows of the numbers of its batch and counts those without a code. |
| `CatalogGeneration.Catalog.Generate` | scripts/perf/generate_catalog.py:87-192 | Current codes stay distinct whatever happens; the run completes if and only if the normalization tells the new numbers apart, and then it holds the pieces 1 to `count` whatever the batch size; otherwise the batches before the first bad one stay. |
| `CatalogGeneration.DistinctExactlyWhenInjective` | scripts/perf/generate_catalog.py:108-169 | From distinct codes, the codes stay distinct if and only if two numbers have one code only when it was in use. |
| `CatalogGeneration.PiecesAreNumbered` | scripts/perf/generate_catalog.py:126-163 | Each number of a range gets one piece, in order. |
| `CatalogGeneration.RowsOfANumber` | scripts/perf/generate_catalog.py:146-170 | The rows of one number: its code, current, unless the code is in use, and then its collection code, if it drew one, not current. |
| `CatalogGeneration.InUseMeans` | scripts/perf/generate_catalog.py:108-118 | A code is in use if and only if a current, undeleted inventory code has it. |
| `CatalogGeneration.IndexIsAMultiple` | scripts/perf/generate_catalog.py:120-184 | After k batches the loop stands at k times the batch size, or at the count. |
| `CatalogGeneration.CodesAddedPlusSkipped` | scripts/perf/generate_catalog.py:165-170 | Codes added plus codes skipped equal the number of pieces. |
| `CatalogGeneration.RangesJoin` | scripts/perf/generate_catalog.py:120-184 | Batches laid end to end are one range: pieces, codes and skipped codes. |
| `CatalogGeneration.LoopEndsExactlyWhenBatchesHoldSomething` | scripts/perf/generate_catalog.py:120-183 | The outer loop ends if and only if `count <= 0` or `batch_size >= 1`. |
| `CatalogGeneration.EmptyBatchesNeverEnd` | scripts/perf/generate_catalog.py:119-121 | With a batch size of 0 and one piece to make the loop never ends. |
| `CatalogGeneration.OneCodeForAllIsRefused` | scripts/perf/generate_catalog.py:165-180 | With one code for all numbers the second is refused. |
| `TemplateSync.TemplateStore.ActiveTemplates` | apps/api/app/seed/import_templates.py:301-306 | The dictionary keeps, for each active name, its last active row. |
| `TemplateSync.TemplateStore.Sync` | apps/api/app/seed/import_templates.py:291-328 | The table after a run and the two lists of names. |
| `TemplateSync.OneRunCounts` | apps/api/app/seed/import_templates.py:307-326 | For every name: a missing predefined one appears once, one active row of an illustrative one goes, no other count changes. |
| `TemplateSync.NothingIsRemoved` | apps/api/app/seed/import_templates.py:307-326 | Every old row stays at its place and as it was, except the retired ones, which keep their content; new rows are of missing predefined names. |
| `TemplateSync.CreatedKeepTheirOrder` | apps/api/app/seed/import_templates.py:307-318 | The created templates are in the order of their list: over a list in two parts they are those of the first and then of the second. |
| `TemplateSync.CreatedForOne` | apps/api/app/seed/import_templates.py:307-318 | A predefined template is created if and only if no row of its name is active. |
| `TemplateSync.RetiredKeepTheirOrder` | apps/api/app/seed/import_templates.py:319-326 | So are the retired names. |
| `TemplateSync.RetiredForOne` | apps/api/app/seed/import_templates.py:319-326 | An illustrative name is retired if and only if a row of it is active. |
| `TemplateSync.OneRunSettlesExactlyWhenNamesAreDistinct` | apps/api/app/seed/import_templates.py:291-294 | One run leaves exactly one active row per predefined name and no active illustrative one if and only if no such name was active twice. |
| `TemplateSync.SecondRunIsIdleExactlyWhenIllustrativeNamesAreDistinct` | apps/api/app/seed/import_templates.py:291-294 | The second run changes nothing and answers two empty lists if and only if no illustrative name was active twice. |
| `TemplateSync.TwiceActiveNeedsTwoRuns` | apps/api/app/seed/import_templates.py:291-328 | An illustrative name active twice: the first run leaves one of its rows, and the second run changes the table again. |
| `TemplateSync.EnoughRunsConverge` | apps/api/app/seed/import_templates.py:291-328 | From any table, as many runs as an illustrative name has active rows reach a fixed point. |
| `TemplateSync.ShippedSyncConverges` | apps/api/app/seed/import_templates.py:275-284 | All of that for the program's own two lists. |

## Left out

- BatchMovement.Session.MoveEndpoint: the hash of the body is the body itself, so a collision of SHA-256 is not modelled; messages, masked fields of the answer, permissions and the audit context are not either.
- BatchMovement.Session.MovePiecesBatch: the availability that a destination proposes is a value of the request, because the walk up the spaces that finds it would only add an easy member; ids and instants of rows are not kept, one origin per request stands for them.
- BatchProtocol.KeyedBatchesRunAtMostOnce: keys are not cleaned during a run; the job that would clean expired keys is not part of this model.
- BatchProtocol.CommittedMovesAreAtomic: locations are read once, at the lookup, as in the code; a destination deleted after that is not noticed and not claimed to be.
- Jobs.Registry.StopWorkers: every join is assumed to end before its timeout of five seconds; a thread that outlives it is not modelled.
- Jobs.StalenessBoundIsExact: instants are real numbers on one clock; naive datetimes and clock changes are not modelled.
- WorkerProtocol.NextDrainBeginsWithinInterval: steps of the thread other than sleeping and draining take no time, and the thread is scheduled when it can run; the thread starts and gets its first wake-up at one instant.
- WorkerProtocol.LeftItemsAreTriedAgain: a drain may leave any item it had in its hands; that a drain gives an item up after `MAX_ATTEMPTS` failures, or takes the oldest of its batch first, is not modelled.
- WorkerProtocol.WakeupsAreNeverLost: a run is the life of one worker; what it left when it stopped is committed before the first drain of the next one, and each item is notified once.
- `recover_interrupted`, `register_recovery` and `run_in_background`: one loop with a handler and two one-line functions, easy members.
- LocationForest.GetLocationsTree: the filter by permission and the sort by code are those of the query; names and labels of the nodes are not kept.
- DeleteScan.UnjustifiedPhysicalDeletes: files are given with their paths in order; finding and parsing them is not modelled, and the texts of the messages are not kept.
- DeleteScan.MigrationAppendOnlyTables: a set literal with equal members written differently, such as 1 and True, counts each of them; a `**` inside a dictionary literal makes it malformed before its other entries are read.
- Percentiles.VerdictIsExact: latencies are real numbers; floating-point rounding inside the interpolation and the sum is not modelled, nor the statistics by type, which are the same function.
- LoadCounters.CountersAreConserved: query parameters, think times and the end of the run by the clock are not modelled.
- Suggestions.LifecycleIsSafe: requests run one after another; the code takes no lock, and two reviewers of one suggestion at once are not covered. What approved data does to a sheet is an arbitrary function, and the reason of a rejection is whatever the request schema lets through.
- TenureAliases.SettingFormsAgree: what the database decodes from the text of the value is a parameter; that base64 and UTF-8 give it back is not modelled. Ids and instants of terms are not kept.
- AbsenceMarkers.UpgradeFormsAgree: the order in which PostgreSQL aggregates the markers is left open; stored values other than null and lists of texts and nulls are not modelled.
- PieceRename.MigrationRunsExactlyWhenReady: a schema is its column names in order, its named indexes and its named constraints; types and data are not touched by the statements, and names taken by other tables are not known.
- BatchDeadlock.BlockedForGood: which of the blocked requests the database ends, and when, is left open; SQLite takes no row locks.
- LocationForest.RelocationIsSafeExactlyOutside: relocations run one after another, and the check of the allowed levels is not modelled.
- CatalogGeneration.Catalog.Generate: the random draws and the normalization are arbitrary functions of the number; the text of the pieces is not kept. With `batch_size` below 1 and something to do the loop does not end, so the method asks for the other case, and the lemma on the loop states the rest.
- TemplateSync.TemplateStore.SoftDelete: the reason is never blank here, so the refusal of a blank one is not modelled; mappings and descriptions of a new row are not kept.
- The import, collection, normalization and loan routers, storage, the language-model client and the web application: not modelled.
