# CRDBService task queue and flush policy, in Dafny

This project models the core of CoolReader's database service
(`CRDBService`). The service sits in front of two stores: the main metadata
database and the cover-image database. Clients never call a store directly.
Every public operation enqueues a task, and a single worker runs the queued
tasks one at a time, in release order.

The model covers four parts of the service:

- **Lifecycle tasks.** `OpenDatabaseTask` opens both stores and, if either
  fails, closes both. `CloseDatabaseTask` clears both stores' caches and then
  closes the main store and the cover store. `ReOpenDatabaseTask` does the
  close and then the open inside one task.
- **The flush coordinator.** `flush()` schedules a non-forced
  `FlushDatabaseTask` after `MIN_FLUSH_INTERVAL` (30000 ms). `forceFlush()`,
  which the binder's `flush` calls, enqueues a forced one at once. Each new
  flush task becomes `lastFlushTask`.
  - A forced task always syncs both stores.
  - A non-forced task syncs only while it is still `lastFlushTask` and strictly
    more than 30000 ms have passed since `lastFlushTime`.
- **The request methods.** Each write method enqueues one store task, and most
  of them then call `flush()`. `saveBookCoverpage` with null data returns
  without enqueueing anything. Each read method, and `sync`, enqueues one task
  that hands its outcome to the caller's handler as its last step.
- **The queue and the worker.** A task delayed by `d` is released at `now + d`.
  It is inserted behind every task released no later than it, so equal
  release times keep their submission order.

The model is a functional state machine. The `State` record
(`service.dfy`) holds:

- the two store records;
- the flush marker, which is the identity of the last flush task constructed;
- `lastFlushTime`;
- the next task identity;
- the queue, as a sequence of entries ordered by release time;
- a trace of every effect the task bodies had, in order: a task began, a store
  was opened, closed, flushed or had its caches cleared, a store was called, a
  result was delivered.

`Submit` (`requests.dfy`) is a client call. `Step` (`worker.dfy`) is one turn
of the worker at a given clock reading. `Exec` (`runs.dfy`) runs any
interleaving of the two.

Module layout:

- `task_queue.dfy`: entries, stable insertion by release time, selection and
  counting by a predicate on tasks.
- `stores.dfy`, `service.dfy`: the store records, the work kinds, the state,
  the invariant `Valid`.
- `lifecycle.dfy`, `flush.dfy`, `tasks.dfy`: the task bodies.
- `requests.dfy`, `worker.dfy`, `runs.dfy`: producers, the worker, and runs.
- `coalescing.dfy`: the flush-coalescing guarantees.
- `ordering.dfy`, `interleaving.dfy`: the ordering guarantees, for one or
  two requests and for whole interleaved runs.

The name suggests that `lastFlushTask` tracks only non-forced flushes. The
`FlushDatabaseTask` constructor sets it for forced tasks too, and the model
follows the constructor (`Requests.NewFlushTakesMarker`). A
`forceFlush` therefore makes every scheduled flush already pending a no-op
(`Coalescing.ForceFlushSupersedes`).

The interval test is strict (line 157). A flushing write made at the very
moment of a sync, with its flush run as soon as it is due 30000 ms later,
therefore syncs nothing (`Coalescing.FlushAtBoundarySkipped`). Its data waits
for a later flush.

The code stamps `lastFlushTime` only after both syncs, with a second clock
reading (line 161). A write made while those syncs are running schedules its
flush from an earlier reading. That flush comes due less than 30000 ms after
the new `lastFlushTime` and is skipped if the worker reaches it on time. The
model reads the clock once per task and runs each task whole inside one
`Step`, so no request arrives in the middle of a sync. A run may still give a
request a clock reading earlier than the worker turn before it, and that is
how the model expresses this case: a flushing write stamped no later than the
last sync has its flush skipped when the worker runs it on time
(`Coalescing.StaleWriteFlushSkipped`).

A `sync` callback is placed behind every task already released. A scheduled
flush released later still runs after it (`Ordering.ImmediatePlacement`).

`BaseService`, which owns the real queue, is not part of this model. The
model treats its delayed posting as behaving like Android's message queue:
ordered by release time, stable for equal times.

## Model

All source paths below are in `android/src/org/coolreader/db/CRDBService.java`.

| member | source | states |
|---|---|---|
| TaskQueue.Insert | android/src/org/coolreader/db/CRDBService.java:177-179 | enqueueing adds exactly the new entry: the queue grows by one and the multiset of entries gains only it |
| TaskQueue.InsertAtSlot | android/src/org/coolreader/db/CRDBService.java:177-186 | a task released at `t` goes in right after every entry released no later than `t` and ahead of every entry released later; nothing else moves |
| TaskQueue.InsertSorted | android/src/org/coolreader/db/CRDBService.java:177-179 | inserting a delayed or an immediate task keeps the queue in release order |
| TaskQueue.InsertSplits | android/src/org/coolreader/db/CRDBService.java:177-186 | in a sorted queue, everything ahead of a new entry is released no later than it and everything behind it is released later |
| TaskQueue.SelectInsertKept | android/src/org/coolreader/db/CRDBService.java:177-186 | on a sorted queue, the entries a filter keeps after an insertion are the kept entries with the new one inserted the same way |
| Lifecycle.ClearCaches | android/src/org/coolreader/db/CRDBService.java:166-169 | both stores' caches are cleared once, main then cover; nothing is opened, closed or flushed, and nothing else changes |
| Lifecycle.OpenStores | android/src/org/coolreader/db/CRDBService.java:87-96 | open returns true exactly when both stores opened; both stores are asked, main then cover, even after a main failure; on failure main and then cover are closed, so both end open exactly when it returns true; nothing is flushed |
| Lifecycle.CloseStores | android/src/org/coolreader/db/CRDBService.java:110-114 | both stores' caches are cleared (main, cover) before either is closed, then main and then cover are closed; both end closed; no flush; nothing else changes |
| Lifecycle.ReopenStores | android/src/org/coolreader/db/CRDBService.java:123-126 | reopen is the whole close followed by the whole open; afterwards both stores are open exactly when both opens succeeded, whatever held before; no flush |
| FlushPolicy.FlushWork | android/src/org/coolreader/db/CRDBService.java:155-162 | a forced task syncs main then cover and keeps `lastFlushTime`; a non-forced task syncs and sets `lastFlushTime` to now exactly when it is still the marker and more than 30000 ms have passed, and otherwise changes nothing at all |
| Tasks.Touch | android/src/org/coolreader/db/CRDBService.java:512-520 | a task's store calls are made in the given order, each on its store, each seeing whether that store was open; nothing but the trace changes |
| Tasks.RunTask | android/src/org/coolreader/db/CRDBService.java:77-164 | a task body starts by beginning, starts no other task, never enqueues a task or moves the flush marker, syncs nothing unless it is a flush task, and keeps the two stores open or closed together |
| Tasks.ReadDeliversLast | android/src/org/coolreader/db/CRDBService.java:235-244 | a read task calls its one store (the cover store only for a coverpage) and then, as its very last step, delivers to the caller's handler; no store changes |
| Tasks.SyncOnlyDelivers | android/src/org/coolreader/db/CRDBService.java:436-443 | a sync task touches no store and only delivers the callback to the caller's handler |
| Tasks.WriteRunsOnTargets | android/src/org/coolreader/db/CRDBService.java:512-520 | a write task calls exactly the stores its method names, in order (main then cover for `deleteBook`), and opens, closes or flushes nothing |
| Worker.Step | android/src/org/coolreader/db/CRDBService.java:177-179 | the worker waits exactly while the queue is empty or its head is not yet released; otherwise exactly the head task runs, and the record of started tasks grows by that task alone. The delayed `execTask` on line 178 is the only evidence in this file; the dequeue rule belongs to `BaseService`, outside this model, and is the assumed one |
| Requests.EnqueueAddsOne | android/src/org/coolreader/db/CRDBService.java:177-186 | enqueueing a task keeps the queued tasks in their order and adds exactly one task, under the next identity; the marker stays |
| Requests.NewFlushTakesMarker | android/src/org/coolreader/db/CRDBService.java:149-153 | a new flush task, forced or not, becomes the marker, so every flush already queued loses it: afterwards the new task is the only queued flush that may sync unforced, and none may when it is forced; it joins the queue as the one newest task, released 30000 ms later unless forced |
| Requests.PlannedShape | android/src/org/coolreader/db/CRDBService.java:272-592 | each request method enqueues at most two tasks, with consecutive new identities, in release order, the first released at the call; only `saveBookCoverpage` with null data enqueues nothing; exactly the flushing writes enqueue two, the second a non-forced flush released 30000 ms after the call |
| Requests.Submit | android/src/org/coolreader/db/CRDBService.java:272-282 | a request only enqueues: the stores, the trace and `lastFlushTime` are untouched |
| Requests.SubmitInserts | android/src/org/coolreader/db/CRDBService.java:272-282 | the queue after a request is the old queue with the planned entries inserted in turn; a null cover plans nothing |
| Requests.SubmitEnqueues | android/src/org/coolreader/db/CRDBService.java:502-510 | each request keeps the queued tasks in their order and adds exactly the planned tasks, in queue order: the store task released now, then, for a flushing write, one non-forced flush released 30000 ms later; only flush requests move the marker, onto the new flush task |
| Requests.SubmitSelectsFrom | android/src/org/coolreader/db/CRDBService.java:472-480 | for any identity up to the next one, older tasks keep their order and the planned tasks are inserted among the newer ones |
| Requests.SubmitKeepsValid | android/src/org/coolreader/db/CRDBService.java:146-153 | every request keeps the queue sorted, identities and the marker below the next identity, and at most one queued non-forced flush that is still the marker |
| Runs.StepKeepsValid | android/src/org/coolreader/db/CRDBService.java:155-162 | a worker turn keeps the invariant |
| Runs.ExecKeepsValid | android/src/org/coolreader/db/CRDBService.java:146-153 | every run of requests and worker turns keeps the invariant |
| Runs.NeverHalfOpen | android/src/org/coolreader/db/CRDBService.java:87-96 | from a fresh service, after any run, the main and the cover store are both open or both closed |
| Runs.DrainRunsInOrder | android/src/org/coolreader/db/CRDBService.java:177-186 | worker turns alone run a prefix of the queue strictly in queue order, one task after another, and leave the rest queued |
| Coalescing.StepFlushBudget | android/src/org/coolreader/db/CRDBService.java:155-162 | a worker turn never raises syncs done plus forced flushes queued plus queued flushes still the marker, and it syncs once for every forced flush it runs |
| Coalescing.DrainFlushBudget | android/src/org/coolreader/db/CRDBService.java:155-162 | the same bound over any sequence of worker turns |
| Coalescing.DrainSyncsAtMostOnceMore | android/src/org/coolreader/db/CRDBService.java:146-162 | left to the worker, each store is synced at most once more than the forced flushes queued, however many scheduled flushes are pending |
| Coalescing.SupersededFlushIsNoop | android/src/org/coolreader/db/CRDBService.java:157 | a scheduled flush that is no longer the marker neither syncs nor moves `lastFlushTime` when it runs |
| Coalescing.ForceFlushSupersedes | android/src/org/coolreader/db/CRDBService.java:739-741 | the binder's `flush` queues one more forced flush and leaves no queued scheduled flush able to sync; while only the worker runs after it, only forced flushes sync |
| Coalescing.SubmitForced | android/src/org/coolreader/db/CRDBService.java:184-186 | a request adds a forced flush exactly when it is the binder's `flush` |
| Coalescing.SubmitFlushesFrom | android/src/org/coolreader/db/CRDBService.java:177-179 | every flush a non-forcing request schedules is released 30000 ms after the request |
| Coalescing.QuietWindow | android/src/org/coolreader/db/CRDBService.java:171-179 | through requests and worker turns inside one interval shorter than 30000 ms with no forced flush, no store is synced and every queued flush stays released after the interval |
| Coalescing.BurstCoalesces | android/src/org/coolreader/db/CRDBService.java:146-179 | a burst of requests inside one 30000 ms interval, with no flush queued before and none forced, followed by the worker draining, syncs each store at most once, however many writes asked for a flush |
| Coalescing.SubmitLive | android/src/org/coolreader/db/CRDBService.java:149-153 | a flushing write leaves exactly one queued flush able to sync, its own, since the new task takes the marker; any other non-forcing request leaves those flushes alone |
| Coalescing.QuietWindowArms | android/src/org/coolreader/db/CRDBService.java:146-179 | inside a quiet interval a flush able to sync stays queued, and after a flushing write in it exactly one is queued at the end |
| Coalescing.LiveFlushSyncs | android/src/org/coolreader/db/CRDBService.java:155-161 | the worker running the marker's scheduled flush more than 30000 ms after the last sync syncs both stores once and stamps `lastFlushTime` |
| Coalescing.DrainReachesLiveFlush | android/src/org/coolreader/db/CRDBService.java:155-162 | worker turns all later than `lastFlushTime` plus 30000 ms either leave the marker's flush queued or sync both stores |
| Coalescing.BurstSyncsExactlyOnce | android/src/org/coolreader/db/CRDBService.java:146-179 | a quiet burst holding a flushing write, drained completely by worker turns later than `lastFlushTime` plus 30000 ms, syncs each store exactly once |
| Coalescing.StaleWriteFlushSkipped | android/src/org/coolreader/db/CRDBService.java:155-161 | a flushing write stamped no later than the last sync, such as one made while that sync ran, has its flush come due within 30000 ms of the sync; run on time, it syncs nothing and the write stays unsynced |
| Coalescing.FlushAtBoundarySkipped | android/src/org/coolreader/db/CRDBService.java:155-161 | a flushing write made at the time of the last sync, with its flush run exactly 30000 ms later, syncs nothing, because the interval test is strict |
| Ordering.ImmediatePlacement | android/src/org/coolreader/db/CRDBService.java:436-443 | a single task released at once, such as `sync`'s, lands behind every task released by now and ahead of every task released later, and nothing else moves |
| Ordering.LaterRequestFollows | android/src/org/coolreader/db/CRDBService.java:43-45 | after an immediate request such as `reopenDatabase`, a request made no earlier has all its tasks queued behind that task, in their own order, and older tasks keep theirs |
| Ordering.ReopenRunsAsOneTask | android/src/org/coolreader/db/CRDBService.java:117-143 | a reopen is one worker turn: caches cleared, both closed, both opened, and both closed again on failure, with no other task starting in between; both end open exactly when both opens succeeded |
| Interleaving.InsertKeepsBehind | android/src/org/coolreader/db/CRDBService.java:177-186 | enqueueing keeps every task queued behind an earlier immediate task behind it, and a new task released no earlier lands behind it too |
| Interleaving.ImmediateRequestStartsFirst | android/src/org/coolreader/db/CRDBService.java:177-186 | in any run, a request that enqueues anything, a flushing write included, has its first task, released at once, start before every task of any later request made no earlier, whatever requests and worker turns come between |
| Ordering.ReadAfterReopen | android/src/org/coolreader/db/CRDBService.java:123-126 | a read run after a reopen finds its store open exactly when the reopen's opens both succeeded, and delivers last |

## Left out

- `getDatabaseDir`: filesystem and Android `Environment` probing. The directory is an opaque input, and each open records it.
- The internals of `MainDB` and `CoverDB`, such as queries, schema and cover blobs. A store is a record with `open`, a flush count and a cache-clear count. A store call is a trace event naming the store, the call, and whether the store was open. Open results are inputs and may fail. A sync is a `flush()` call on a store: the flush count and the `Flushed` trace event record it whether or not the store is open, so a scheduled flush that runs after the close task or after a failed open still counts as a sync in every coalescing bound.
- Results of reads. A read delivers an event naming its handler and task, not data. The defensive copies the binder makes (`new FileInfo(...)`) are not modelled either.
- Android plumbing: `Intent`, `onBind`, `onRebind`, `onUnbind`, `onStartCommand`, logging, and the binder's one-line forwarding methods. A `Handler` is an identity, and `sendTask` becomes a delivery event.
- `super.onCreate` and `super.onDestroy` of `BaseService`: that class is not part of this model. `onCreate` and `onDestroy` are modelled only as enqueueing the open and close tasks. What happens to tasks still queued when the service is destroyed is not modelled.
- The real worker thread. The model is sequential, and a task runs to completion inside one `Step`. A request made while a task runs is modelled as one that comes after that task's turn, stamped with an earlier clock reading (see above). Exceptions thrown by a task are not modelled.
- The wall clock: `Utils.timeStamp` and `Utils.timeInterval` are not part of this model. A worker turn gets one clock reading as a parameter, and `elapsed` is that reading minus `lastFlushTime`. The code reads the clock twice, once for `elapsed` and once for the new `lastFlushTime`. The model uses the one reading for both. The write-during-sync case described above appears only as a request stamped no later than the sync.
- FlushPolicy.FlushWork: Java `long` overflow of the clock and the elapsed time is not modelled, because times are unbounded naturals.
- `FileInfoCache` and the callback interfaces: data holders with no queue logic.
- `crengine/src/locale_data/files/fur_orth.c`: a generated constant table, unrelated to the service.
