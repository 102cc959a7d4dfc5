/**
 The public request methods: each only enqueues tasks and never touches a
 store. Flushing writes also schedule a delayed non-forced flush; `flush()`
 schedules, `forceFlush()` (what the binder's `flush` calls) runs at once.
 */
module Requests {
  import opened Optional
  import opened TaskQueue
  import opened Service

  /** A call into the service from outside the worker. */
  datatype Request =
    | Create                                   // onCreate
    | Destroy                                  // onDestroy
    | Reopen                                   // reopenDatabase
    | FlushNow                                 // LocalBinder.flush
    | Update(write: WriteOp)                   // the write methods
    | Query(read: ReadOp, handler: HandlerId)  // the read methods
    | SyncCallback(handler: HandlerId)         // sync

  /** Whether a write method calls `flush()` after enqueueing its task. */
  predicate FlushesAfter(op: WriteOp)
  {
    !(|| op.SaveOPDSCatalog?
      || op.SaveSearchHistory?
      || op.UpdateOPDSCatalogLastUsage?
      || op.RemoveOPDSCatalog?
      || op.SetPathCorrector?)
  }

  /** `saveBookCoverpage` returns at once, enqueueing nothing, for null data. */
  predicate Dropped(op: WriteOp)
  {
    op.SaveBookCoverpage? && op.data.None?
  }

  /** `execTask(task, delay)` for a new task with the next identity. */
  function Enqueue(s: State, work: Work, release: Time): State
  {
    s.(nextId := s.nextId + 1,
       queue := Insert(s.queue, Entry(Task(s.nextId, work), release)))
  }

  /** `new FlushDatabaseTask(force)`, whose constructor makes it `lastFlushTask`,
      then enqueued: with a delay of MinFlushInterval (`flush()`) or none
      (`forceFlush()`). */
  function NewFlushTask(s: State, now: Time, force: bool): State
  {
    var marked := s.(lastFlushTask := Some(s.nextId));
    Enqueue(marked, FlushDatabase(force), if force then now else now + MinFlushInterval)
  }

  /** A request made at time `now`. Producers only enqueue: stores, trace and
      `lastFlushTime` are untouched. */
  function Submit(s: State, now: Time, req: Request): (r: State)
    ensures r.main == s.main && r.cover == s.cover
    ensures r.trace == s.trace && r.lastFlushTime == s.lastFlushTime
    ensures s.nextId <= r.nextId
  {
    match req
    case Create => Enqueue(s, OpenDatabase, now)
    case Destroy => Enqueue(s, CloseDatabase, now)
    case Reopen => Enqueue(s, ReopenDatabase, now)
    case FlushNow => NewFlushTask(s, now, true)
    case Update(op) =>
      if Dropped(op) then s
      else
        var w := Enqueue(s, StoreWrite(op), now);
        if FlushesAfter(op) then NewFlushTask(w, now, false) else w
    case Query(op, h) => Enqueue(s, StoreRead(op, h), now)
    case SyncCallback(h) => Enqueue(s, Sync(h), now)
  }

  /** Reference table of what each request enqueues, in queue order, when the
      next identity is `n`: one task released at once; for a flushing write,
      that task and then one non-forced flush released MinFlushInterval later;
      nothing for a null cover. */
  function Planned(req: Request, n: TaskId, now: Time): seq<Entry<Task>>
  {
    match req
    case Create => [Entry(Task(n, OpenDatabase), now)]
    case Destroy => [Entry(Task(n, CloseDatabase), now)]
    case Reopen => [Entry(Task(n, ReopenDatabase), now)]
    case FlushNow => [Entry(Task(n, FlushDatabase(true)), now)]
    case Update(op) =>
      if Dropped(op) then []
      else if FlushesAfter(op) then
        [Entry(Task(n, StoreWrite(op)), now), Entry(Task(n + 1, FlushDatabase(false)), now + MinFlushInterval)]
      else [Entry(Task(n, StoreWrite(op)), now)]
    case Query(op, h) => [Entry(Task(n, StoreRead(op, h)), now)]
    case SyncCallback(h) => [Entry(Task(n, Sync(h)), now)]
  }

  /** What becomes of the flush marker. */
  function PlannedMarker(req: Request, n: TaskId, marker: Option<TaskId>): Option<TaskId>
  {
    match req
    case FlushNow => Some(n)
    case Update(op) => if !Dropped(op) && FlushesAfter(op) then Some(n + 1) else marker
    case _ => marker
  }

  /** A queue whose identities are all below `n` has nothing from `n` on. */
  lemma OldQueue(q: Queue, n: TaskId)
    requires forall x :: x in q ==> x.item.id < n
    ensures Select(q, OlderThan(n)) == q
    ensures Select(q, FromId(n)) == []
    ensures Count(q, IsLiveFlush(Some(n))) == 0
  {
    SelectAllOrNone(q, OlderThan(n));
    SelectAllOrNone(q, FromId(n));
    SelectAllOrNone(q, IsLiveFlush(Some(n)));
  }

  lemma EnqueueKeepsValid(s: State, work: Work, release: Time)
    requires Valid(s)
    requires !work.FlushDatabase?
    ensures Valid(Enqueue(s, work, release))
  {
    var e := Entry(Task(s.nextId, work), release);
    CountInsert(s.queue, e, IsLiveFlush(s.lastFlushTask));
    InsertSorted(s.queue, e);
    InsertMembers(s.queue, e);
  }

  lemma NewFlushKeepsValid(s: State, now: Time, force: bool)
    requires Valid(s)
    ensures Valid(NewFlushTask(s, now, force))
  {
    var e := Entry(Task(s.nextId, FlushDatabase(force)), if force then now else now + MinFlushInterval);
    OldQueue(s.queue, s.nextId);
    CountInsert(s.queue, e, IsLiveFlush(Some(s.nextId)));
    InsertSorted(s.queue, e);
    InsertMembers(s.queue, e);
  }

  /** `execTask`: the queued tasks keep their order and exactly one new task,
      with the next identity, joins them; the marker stays. */
  lemma EnqueueAddsOne(s: State, work: Work, release: Time)
    requires Valid(s)
    ensures var r := Enqueue(s, work, release);
      && Select(r.queue, OlderThan(s.nextId)) == s.queue
      && Select(r.queue, FromId(s.nextId)) == [Entry(Task(s.nextId, work), release)]
      && r.nextId == s.nextId + 1
      && r.lastFlushTask == s.lastFlushTask
  {
    var e := Entry(Task(s.nextId, work), release);
    OldQueue(s.queue, s.nextId);
    SelectInsertDropped(s.queue, e, OlderThan(s.nextId));
    SelectInsertKept(s.queue, e, FromId(s.nextId));
  }

  /** A new flush task takes the marker from every flush already queued: it
      joins the queue as the one newest task, and it is then the only queued
      flush that may sync without being forced, or there is none when it is
      itself forced. */
  lemma NewFlushTakesMarker(s: State, now: Time, force: bool)
    requires Valid(s)
    ensures var r := NewFlushTask(s, now, force);
      && r.lastFlushTask == Some(s.nextId)
      && Select(r.queue, OlderThan(s.nextId)) == s.queue
      && Select(r.queue, FromId(s.nextId))
         == [Entry(Task(s.nextId, FlushDatabase(force)), if force then now else now + MinFlushInterval)]
      && Count(r.queue, IsLiveFlush(r.lastFlushTask)) == (if force then 0 else 1)
  {
    var e := Entry(Task(s.nextId, FlushDatabase(force)), if force then now else now + MinFlushInterval);
    OldQueue(s.queue, s.nextId);
    SelectInsertDropped(s.queue, e, OlderThan(s.nextId));
    SelectInsertKept(s.queue, e, FromId(s.nextId));
    CountInsert(s.queue, e, IsLiveFlush(Some(s.nextId)));
  }

  /** Every request keeps the service invariant. */
  lemma SubmitKeepsValid(s: State, now: Time, req: Request)
    requires Valid(s)
    ensures Valid(Submit(s, now, req))
  {
    match req
    case Create => EnqueueKeepsValid(s, OpenDatabase, now);
    case Destroy => EnqueueKeepsValid(s, CloseDatabase, now);
    case Reopen => EnqueueKeepsValid(s, ReopenDatabase, now);
    case FlushNow => NewFlushKeepsValid(s, now, true);
    case Update(op) =>
      if !Dropped(op) {
        EnqueueKeepsValid(s, StoreWrite(op), now);
        if FlushesAfter(op) {
          NewFlushKeepsValid(Enqueue(s, StoreWrite(op), now), now, false);
        }
      }
    case Query(op, h) => EnqueueKeepsValid(s, StoreRead(op, h), now);
    case SyncCallback(h) => EnqueueKeepsValid(s, Sync(h), now);
  }

  lemma UpdateInserts(s: State, now: Time, op: WriteOp)
    ensures Submit(s, now, Update(op)).queue == InsertAll(s.queue, Planned(Update(op), s.nextId, now))
  {
    var n := s.nextId;
    var p := Planned(Update(op), n, now);
    var r := Submit(s, now, Update(op));
    if Dropped(op) {
      assert p == [] && r == s;
    } else {
      var e := Entry(Task(n, StoreWrite(op)), now);
      var w := Enqueue(s, StoreWrite(op), now);
      assert w.queue == Insert(s.queue, e);
      if FlushesAfter(op) {
        var f := Entry(Task(n + 1, FlushDatabase(false)), now + MinFlushInterval);
        assert r == NewFlushTask(w, now, false);
        assert r.queue == Insert(w.queue, f);
        assert p == [e, f];
        InsertTwo(s.queue, e, f);
      } else {
        assert r == w && p == [e];
        InsertOne(s.queue, e);
      }
    }
  }

  /** The queue after a request is the old queue with the planned entries
      inserted one after another. */
  lemma SubmitInserts(s: State, now: Time, req: Request)
    ensures Submit(s, now, req).queue == InsertAll(s.queue, Planned(req, s.nextId, now))
  {
    var n := s.nextId;
    match req
    case Update(op) => UpdateInserts(s, now, op);
    case Create => InsertOne(s.queue, Entry(Task(n, OpenDatabase), now));
    case Destroy => InsertOne(s.queue, Entry(Task(n, CloseDatabase), now));
    case Reopen => InsertOne(s.queue, Entry(Task(n, ReopenDatabase), now));
    case FlushNow => InsertOne(s.queue, Entry(Task(n, FlushDatabase(true)), now));
    case Query(op, h) => InsertOne(s.queue, Entry(Task(n, StoreRead(op, h)), now));
    case SyncCallback(h) => InsertOne(s.queue, Entry(Task(n, Sync(h)), now));
  }

  /** The planned entries are in release order and carry the identities
      `n`, `n + 1`, ... in turn. */
  lemma PlannedShape(req: Request, n: TaskId, now: Time)
    ensures var p := Planned(req, n, now);
      && |p| <= 2
      && Sorted(p)
      && (forall i :: 0 <= i < |p| ==> p[i].item.id == n + i)
      && (forall i :: 0 <= i < |p| ==> now <= p[i].release)
      && (|p| > 0 ==> p[0].release == now)
      && (|p| == 0 <==> req.Update? && Dropped(req.write))
      && (|p| == 2 <==> req.Update? && !Dropped(req.write) && FlushesAfter(req.write))
      && (|p| == 2 ==> p[1].item.work == FlushDatabase(false) && p[1].release == now + MinFlushInterval)
  {
  }

  /** Identities, marker: what a request does to the bookkeeping. */
  lemma SubmitCounts(s: State, now: Time, req: Request)
    ensures var r := Submit(s, now, req);
      && r.nextId == s.nextId + |Planned(req, s.nextId, now)|
      && r.lastFlushTask == PlannedMarker(req, s.nextId, s.lastFlushTask)
  {
  }

  /** For any identity `m` up to the next one, the tasks below `m` keep their
      order and the planned tasks join those from `m` on. */
  lemma SubmitSelectsFrom(s: State, now: Time, req: Request, m: TaskId)
    requires Sorted(s.queue)
    requires m <= s.nextId
    ensures var r := Submit(s, now, req);
      && Sorted(r.queue)
      && Select(r.queue, OlderThan(m)) == Select(s.queue, OlderThan(m))
      && Select(r.queue, FromId(m)) == InsertAll(Select(s.queue, FromId(m)), Planned(req, s.nextId, now))
  {
    var p := Planned(req, s.nextId, now);
    SubmitInserts(s, now, req);
    PlannedShape(req, s.nextId, now);
    SelectInsertAllKept(s.queue, p, FromId(m));
    SelectInsertAllDropped(s.queue, p, OlderThan(m));
  }

  /** Each request leaves the tasks already queued in their order and adds
      exactly the planned tasks, in the planned order; only a flush request
      moves the marker, and it moves it to the new flush task. */
  lemma SubmitEnqueues(s: State, now: Time, req: Request)
    requires Valid(s)
    ensures var r := Submit(s, now, req);
      && Select(r.queue, OlderThan(s.nextId)) == s.queue
      && Select(r.queue, FromId(s.nextId)) == Planned(req, s.nextId, now)
      && r.nextId == s.nextId + |Planned(req, s.nextId, now)|
      && r.lastFlushTask == PlannedMarker(req, s.nextId, s.lastFlushTask)
  {
    var p := Planned(req, s.nextId, now);
    OldQueue(s.queue, s.nextId);
    SubmitSelectsFrom(s, now, req, s.nextId);
    PlannedShape(req, s.nextId, now);
    InsertAllBehind([], p);
    assert [] + p == p;
    SubmitCounts(s, now, req);
  }
}
