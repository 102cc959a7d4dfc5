/**
 Flush coalescing. Only the flush task that is still `lastFlushTask` may sync
 without being forced, so however many writes ask for a flush, pending
 scheduled flushes amount to at most one sync; a forced flush always syncs.
 */
module Coalescing {
  import opened Optional
  import opened TaskQueue
  import opened Service
  import opened FlushPolicy
  import opened Tasks
  import opened Worker
  import opened Requests
  import opened Runs

  /** Queued forced flushes: each syncs once when it runs. */
  function Forced(q: Queue): nat
  {
    Count(q, IsForcedFlush)
  }

  /** Queued non-forced flushes that are still the marker: only these may
      sync without being forced. */
  function Live(s: State): nat
  {
    Count(s.queue, IsLiveFlush(s.lastFlushTask))
  }

  predicate IsFlushTask(t: Task)
  {
    t.work.FlushDatabase?
  }

  /** Every flush task queued is released no earlier than `t`. */
  ghost predicate FlushesFrom(q: Queue, t: Time)
  {
    forall x :: x in q && IsFlushTask(x.item) ==> t <= x.release
  }

  predicate ForcesFlush(ev: Event)
  {
    ev.Call? && ev.req == FlushNow
  }

  /** Events inside [t0, t0 + MinFlushInterval) none of which forces a flush. */
  ghost predicate Quiet(evs: seq<Event>, t0: Time)
  {
    forall i :: 0 <= i < |evs| ==>
      t0 <= TimeOf(evs[i]) < t0 + MinFlushInterval && !ForcesFlush(evs[i])
  }

  lemma RunFlush(s: State, t: Task, env: Env)
    requires t.work.FlushDatabase?
    ensures RunTask(s, t, env) == FlushWork(s.(trace := s.trace + [Began(t.id)]), t.id, t.work.force, env.now)
  {
  }

  /** A scheduled flush that is no longer the marker does nothing when the
      worker reaches it, beyond starting. */
  lemma SupersededFlushIsNoop(s: State, env: Env)
    requires |s.queue| > 0 && s.queue[0].release <= env.now
    requires s.queue[0].item.work == FlushDatabase(false)
    requires s.lastFlushTask != Some(s.queue[0].item.id)
    ensures var r := Apply(s, Tick(env));
      && r.main == s.main && r.cover == s.cover
      && r.lastFlushTime == s.lastFlushTime
      && r.trace == s.trace + [Began(s.queue[0].item.id)]
  {
    var h := s.queue[0].item;
    var s' := s.(queue := s.queue[1..]);
    assert Apply(s, Tick(env)) == RunTask(s', h, env);
    RunFlush(s', h, env);
  }

  /** A worker turn never raises syncs done plus syncs still possible, and it
      syncs at least once for every forced flush it takes off the queue. */
  lemma StepFlushBudget(s: State, env: Env)
    ensures var r := Apply(s, Tick(env));
      && r.main.flushCount + Forced(r.queue) + Live(r) <= s.main.flushCount + Forced(s.queue) + Live(s)
      && r.cover.flushCount + Forced(r.queue) + Live(r) <= s.cover.flushCount + Forced(s.queue) + Live(s)
      && s.main.flushCount + Forced(s.queue) <= r.main.flushCount + Forced(r.queue)
      && s.cover.flushCount + Forced(s.queue) <= r.cover.flushCount + Forced(r.queue)
  {
    if Step(s, env).Some? {
      var h := s.queue[0].item;
      var s' := s.(queue := s.queue[1..]);
      assert Apply(s, Tick(env)) == RunTask(s', h, env);
      if h.work.FlushDatabase? {
        RunFlush(s', h, env);
      }
    }
  }

  /** The same over any number of worker turns. */
  lemma {:induction false} DrainFlushBudget(s: State, evs: seq<Event>)
    requires OnlyTicks(evs)
    ensures var r := Exec(s, evs);
      && r.main.flushCount + Forced(r.queue) + Live(r) <= s.main.flushCount + Forced(s.queue) + Live(s)
      && r.cover.flushCount + Forced(r.queue) + Live(r) <= s.cover.flushCount + Forced(s.queue) + Live(s)
      && s.main.flushCount + Forced(s.queue) <= r.main.flushCount + Forced(r.queue)
      && s.cover.flushCount + Forced(s.queue) <= r.cover.flushCount + Forced(r.queue)
    decreases |evs|
  {
    if |evs| > 0 {
      OnlyTicksTail(evs);
      StepFlushBudget(s, evs[0].env);
      DrainFlushBudget(Apply(s, evs[0]), evs[1..]);
    }
  }

  /** Left to the worker, a valid service syncs each store at most once more
      than the forced flushes it has queued, however many scheduled flushes
      are pending. */
  lemma DrainSyncsAtMostOnceMore(s: State, evs: seq<Event>)
    requires Valid(s)
    requires OnlyTicks(evs)
    ensures var r := Exec(s, evs);
      && r.main.flushCount <= s.main.flushCount + Forced(s.queue) + 1
      && r.cover.flushCount <= s.cover.flushCount + Forced(s.queue) + 1
  {
    DrainFlushBudget(s, evs);
  }

  /** The binder's `flush` makes the new forced task the marker, so every
      scheduled flush already queued becomes a no-op: while only the worker
      runs after it, only forced flushes sync. */
  lemma ForceFlushSupersedes(s: State, now: Time, evs: seq<Event>)
    requires Valid(s)
    requires OnlyTicks(evs)
    ensures var r := Submit(s, now, FlushNow);
      && Live(r) == 0
      && Forced(r.queue) == Forced(s.queue) + 1
      && Exec(r, evs).main.flushCount <= r.main.flushCount + Forced(r.queue)
      && Exec(r, evs).cover.flushCount <= r.cover.flushCount + Forced(r.queue)
  {
    var n := s.nextId;
    var e := Entry(Task(n, FlushDatabase(true)), now);
    var r := Submit(s, now, FlushNow);
    assert r.queue == Insert(s.queue, e) && r.lastFlushTask == Some(n);
    OldQueue(s.queue, n);
    CountInsert(s.queue, e, IsLiveFlush(Some(n)));
    CountInsert(s.queue, e, IsForcedFlush);
    DrainFlushBudget(r, evs);
  }

  /** A request adds a forced flush exactly when it is the binder's `flush`. */
  lemma SubmitForced(s: State, now: Time, req: Request)
    ensures Forced(Submit(s, now, req).queue) == Forced(s.queue) + (if req == FlushNow then 1 else 0)
  {
    var p := Planned(req, s.nextId, now);
    SubmitInserts(s, now, req);
    CountInsertAll(s.queue, p, IsForcedFlush);
    PlannedShape(req, s.nextId, now);
    if |p| == 2 {
      assert p[1..][1..] == [];
    } else if |p| == 1 {
      assert p[1..] == [];
    }
  }

  /** A request other than the binder's `flush` plans its flush, if any,
      MinFlushInterval after the request. */
  lemma PlannedFlushesLate(req: Request, n: TaskId, now: Time)
    requires req != FlushNow
    ensures FlushesFrom(Planned(req, n, now), now + MinFlushInterval)
  {
  }

  /** Any flush a request other than the binder's `flush` schedules is released
      MinFlushInterval after the request. */
  lemma SubmitFlushesFrom(s: State, now: Time, req: Request, t: Time)
    requires req != FlushNow
    requires FlushesFrom(s.queue, t)
    requires t <= now + MinFlushInterval
    ensures FlushesFrom(Submit(s, now, req).queue, t)
  {
    var p := Planned(req, s.nextId, now);
    PlannedFlushesLate(req, s.nextId, now);
    InsertAllFrom(s.queue, p, IsFlushTask, t);
    SubmitInserts(s, now, req);
  }

  /** A write that schedules a flush after its own task. */
  predicate SchedulesFlush(req: Request)
  {
    req.Update? && !Dropped(req.write) && FlushesAfter(req.write)
  }

  ghost predicate HasFlushingWrite(evs: seq<Event>)
  {
    exists i :: 0 <= i < |evs| && evs[i].Call? && SchedulesFlush(evs[i].req)
  }

  /** Enqueueing a task that is not a flush leaves every marker's count of
      live flushes as it was. */
  lemma EnqueueKeepsLive(s: State, work: Work, release: Time, marker: Option<TaskId>)
    requires !work.FlushDatabase?
    ensures Count(Enqueue(s, work, release).queue, IsLiveFlush(marker)) == Count(s.queue, IsLiveFlush(marker))
  {
    CountInsert(s.queue, Entry(Task(s.nextId, work), release), IsLiveFlush(marker));
  }

  /** A request other than the binder's `flush` leaves exactly one live
      flush, its own, when it schedules a flush, and otherwise leaves the live
      flushes alone. */
  lemma SubmitLive(s: State, now: Time, req: Request)
    requires Valid(s)
    requires req != FlushNow
    ensures Live(Submit(s, now, req)) == (if SchedulesFlush(req) then 1 else Live(s))
  {
    var m := s.lastFlushTask;
    match req {
      case Create => EnqueueKeepsLive(s, OpenDatabase, now, m);
      case Destroy => EnqueueKeepsLive(s, CloseDatabase, now, m);
      case Reopen => EnqueueKeepsLive(s, ReopenDatabase, now, m);
      case Query(op, h) => EnqueueKeepsLive(s, StoreRead(op, h), now, m);
      case SyncCallback(h) => EnqueueKeepsLive(s, Sync(h), now, m);
      case Update(op) =>
        if !Dropped(op) {
          EnqueueKeepsLive(s, StoreWrite(op), now, m);
          if FlushesAfter(op) {
            var w := Enqueue(s, StoreWrite(op), now);
            EnqueueKeepsValid(s, StoreWrite(op), now);
            OldQueue(w.queue, w.nextId);
            var f := Entry(Task(w.nextId, FlushDatabase(false)), now + MinFlushInterval);
            CountInsert(w.queue, f, IsLiveFlush(Some(w.nextId)));
          }
        }
    }
  }

  /** One event inside a quiet interval: nothing syncs, no forced flush
      appears, every flush stays released after the interval, the time of the
      last sync stays, and the live flush is kept or, by a flushing write,
      replaced by the write's own. */
  lemma QuietStep(s: State, ev: Event, t0: Time)
    requires Forced(s.queue) == 0
    requires FlushesFrom(s.queue, t0 + MinFlushInterval)
    requires t0 <= TimeOf(ev) < t0 + MinFlushInterval && !ForcesFlush(ev)
    ensures var r := Apply(s, ev);
      && Forced(r.queue) == 0
      && FlushesFrom(r.queue, t0 + MinFlushInterval)
      && r.main.flushCount == s.main.flushCount
      && r.cover.flushCount == s.cover.flushCount
      && r.lastFlushTime == s.lastFlushTime
    ensures Valid(s) ==> Live(Apply(s, ev)) == (if ev.Call? && SchedulesFlush(ev.req) then 1 else Live(s))
  {
    match ev {
      case Call(now, req) =>
        SubmitForced(s, now, req);
        SubmitFlushesFrom(s, now, req, t0 + MinFlushInterval);
        if Valid(s) {
          SubmitLive(s, now, req);
        }
      case Tick(env) =>
        if Step(s, env).Some? {
          var q := s.queue;
          var h := q[0].item;
          assert q[0] in q;
          assert !IsFlushTask(h);
          assert Apply(s, ev) == RunTask(s.(queue := q[1..]), h, env);
          assert forall x :: x in q[1..] ==> x in q;
        }
    }
  }

  lemma QuietTail(evs: seq<Event>, t0: Time)
    requires |evs| > 0 && Quiet(evs, t0)
    ensures Quiet(evs[1..], t0)
  {
    forall i | 0 <= i < |evs[1..]|
      ensures t0 <= TimeOf(evs[1..][i]) < t0 + MinFlushInterval && !ForcesFlush(evs[1..][i])
    {
      assert evs[1..][i] == evs[i + 1];
    }
  }

  /** Through requests and worker turns inside one interval shorter than
      MinFlushInterval, with no forced flush, nothing syncs: every scheduled
      flush is released only after the interval. */
  lemma {:induction false} QuietWindow(s: State, evs: seq<Event>, t0: Time)
    requires Forced(s.queue) == 0
    requires FlushesFrom(s.queue, t0 + MinFlushInterval)
    requires Quiet(evs, t0)
    ensures var r := Exec(s, evs);
      && Forced(r.queue) == 0
      && FlushesFrom(r.queue, t0 + MinFlushInterval)
      && r.main.flushCount == s.main.flushCount
      && r.cover.flushCount == s.cover.flushCount
      && r.lastFlushTime == s.lastFlushTime
    decreases |evs|
  {
    if |evs| > 0 {
      assert t0 <= TimeOf(evs[0]) < t0 + MinFlushInterval && !ForcesFlush(evs[0]);
      QuietStep(s, evs[0], t0);
      QuietTail(evs, t0);
      QuietWindow(Apply(s, evs[0]), evs[1..], t0);
    }
  }

  /** Inside a quiet interval a live flush stays live, and once a write has
      scheduled a flush there is a live one when the interval ends. */
  lemma {:induction false} QuietWindowArms(s: State, evs: seq<Event>, t0: Time)
    requires Valid(s)
    requires Forced(s.queue) == 0
    requires FlushesFrom(s.queue, t0 + MinFlushInterval)
    requires Quiet(evs, t0)
    ensures Live(Exec(s, evs)) >= Live(s)
    ensures HasFlushingWrite(evs) ==> Live(Exec(s, evs)) == 1
    decreases |evs|
  {
    if |evs| > 0 {
      var s1 := Apply(s, evs[0]);
      assert t0 <= TimeOf(evs[0]) < t0 + MinFlushInterval && !ForcesFlush(evs[0]);
      QuietStep(s, evs[0], t0);
      ApplyKeepsValid(s, evs[0]);
      QuietTail(evs, t0);
      QuietWindowArms(s1, evs[1..], t0);
      ExecKeepsValid(s1, evs[1..]);
      if HasFlushingWrite(evs) && !(evs[0].Call? && SchedulesFlush(evs[0].req)) {
        var i :| 0 <= i < |evs| && evs[i].Call? && SchedulesFlush(evs[i].req);
        assert evs[1..][i - 1] == evs[i];
      }
    }
  }

  /** A worker turn never lowers the sync counts. */
  lemma StepNeverUnsyncs(s: State, env: Env)
    ensures var r := Apply(s, Tick(env));
      && s.main.flushCount <= r.main.flushCount
      && s.cover.flushCount <= r.cover.flushCount
  {
    if Step(s, env).Some? {
      var h := s.queue[0].item;
      var s' := s.(queue := s.queue[1..]);
      assert Apply(s, Tick(env)) == RunTask(s', h, env);
      if h.work.FlushDatabase? {
        RunFlush(s', h, env);
      }
    }
  }

  lemma {:induction false} DrainNeverUnsyncs(s: State, evs: seq<Event>)
    requires OnlyTicks(evs)
    ensures s.main.flushCount <= Exec(s, evs).main.flushCount
    ensures s.cover.flushCount <= Exec(s, evs).cover.flushCount
    decreases |evs|
  {
    if |evs| > 0 {
      OnlyTicksTail(evs);
      StepNeverUnsyncs(s, evs[0].env);
      DrainNeverUnsyncs(Apply(s, evs[0]), evs[1..]);
    }
  }

  /** The worker reaching the live flush more than MinFlushInterval after the
      last sync syncs both stores. */
  lemma LiveFlushSyncs(s: State, env: Env)
    requires |s.queue| > 0 && s.queue[0].release <= env.now
    requires IsLiveFlush(s.lastFlushTask)(s.queue[0].item)
    requires env.now > s.lastFlushTime + MinFlushInterval
    ensures var r := Apply(s, Tick(env));
      && r.main.flushCount == s.main.flushCount + 1
      && r.cover.flushCount == s.cover.flushCount + 1
      && r.lastFlushTime == env.now
  {
    var h := s.queue[0].item;
    var s' := s.(queue := s.queue[1..]);
    assert Apply(s, Tick(env)) == RunTask(s', h, env);
    RunFlush(s', h, env);
  }

  /** A worker turn that does not take the live flush keeps it live and keeps
      the time of the last sync. */
  lemma StepKeepsLive(s: State, env: Env)
    requires Live(s) == 1
    requires |s.queue| > 0 && s.queue[0].release <= env.now ==> !IsLiveFlush(s.lastFlushTask)(s.queue[0].item)
    ensures var r := Apply(s, Tick(env));
      && Live(r) == 1
      && r.lastFlushTime == s.lastFlushTime
  {
    if Step(s, env).Some? {
      var h := s.queue[0].item;
      var s' := s.(queue := s.queue[1..]);
      assert Apply(s, Tick(env)) == RunTask(s', h, env);
      if h.work.FlushDatabase? {
        RunFlush(s', h, env);
      }
    }
  }

  /** One worker turn more than MinFlushInterval after the last sync: the live
      flush stays live, or it has just synced both stores. */
  lemma StepTowardLiveFlush(s: State, env: Env)
    requires Valid(s)
    requires Live(s) == 1
    requires s.lastFlushTime + MinFlushInterval < env.now
    ensures var r := Apply(s, Tick(env));
      && Valid(r)
      && (|| (Live(r) == 1 && r.lastFlushTime == s.lastFlushTime)
          || (s.main.flushCount < r.main.flushCount && s.cover.flushCount < r.cover.flushCount))
  {
    StepKeepsValid(s, env);
    if Step(s, env).Some? && IsLiveFlush(s.lastFlushTask)(s.queue[0].item) {
      LiveFlushSyncs(s, env);
    } else {
      StepKeepsLive(s, env);
    }
  }

  /** While the worker turns all come more than MinFlushInterval after the
      last sync, the live flush either is still queued or has synced both
      stores. */
  lemma {:induction false} DrainReachesLiveFlush(s: State, evs: seq<Event>)
    requires Valid(s)
    requires OnlyTicks(evs)
    requires Live(s) == 1
    requires forall i :: 0 <= i < |evs| ==> s.lastFlushTime + MinFlushInterval < TimeOf(evs[i])
    ensures var r := Exec(s, evs);
      || Live(r) == 1
      || (&& s.main.flushCount < r.main.flushCount
          && s.cover.flushCount < r.cover.flushCount)
    decreases |evs|
  {
    if |evs| > 0 {
      var s1 := Apply(s, evs[0]);
      assert s.lastFlushTime + MinFlushInterval < TimeOf(evs[0]);
      StepTowardLiveFlush(s, evs[0].env);
      OnlyTicksTail(evs);
      if s.main.flushCount < s1.main.flushCount && s.cover.flushCount < s1.cover.flushCount {
        DrainNeverUnsyncs(s1, evs[1..]);
      } else {
        assert forall i :: 0 <= i < |evs[1..]| ==> evs[1..][i] == evs[i + 1];
        DrainReachesLiveFlush(s1, evs[1..]);
      }
    }
  }

  /** The interval is strict: a flushing write made at the very time of the
      last sync, its task and then its flush taken by the worker as soon as
      each is released, syncs nothing, since the flush runs exactly
      MinFlushInterval after that sync. */
  lemma FlushAtBoundarySkipped(s: State, op: WriteOp, e1: Env, e2: Env)
    requires s.queue == []
    requires !Dropped(op) && FlushesAfter(op)
    requires e1.now == s.lastFlushTime && e2.now == s.lastFlushTime + MinFlushInterval
    ensures var r := Exec(s, [Call(s.lastFlushTime, Update(op)), Tick(e1), Tick(e2)]);
      && r.queue == []
      && r.main.flushCount == s.main.flushCount
      && r.cover.flushCount == s.cover.flushCount
      && r.lastFlushTime == s.lastFlushTime
  {
    var x := s.lastFlushTime;
    ExecThree(s, Call(x, Update(op)), Tick(e1), Tick(e2));
    WriteOnEmptyQueue(s, x, op);
    BoundaryTicks(Submit(s, x, Update(op)), e1, e2);
  }

  /** A flushing write stamped no later than the last sync, for instance one
      made while that sync was running, whose flush the worker runs as soon
      as it is due: the flush comes due within MinFlushInterval of the sync
      and syncs nothing, so the write stays unsynced. */
  lemma StaleWriteFlushSkipped(s: State, w: Time, op: WriteOp, e1: Env, e2: Env)
    requires s.queue == []
    requires !Dropped(op) && FlushesAfter(op)
    requires w <= e1.now
    requires w + MinFlushInterval <= e2.now <= s.lastFlushTime + MinFlushInterval
    ensures var r := Exec(s, [Call(w, Update(op)), Tick(e1), Tick(e2)]);
      && r.queue == []
      && r.main.flushCount == s.main.flushCount
      && r.cover.flushCount == s.cover.flushCount
      && r.lastFlushTime == s.lastFlushTime
  {
    ExecThree(s, Call(w, Update(op)), Tick(e1), Tick(e2));
    WriteOnEmptyQueue(s, w, op);
    BoundaryTicks(Submit(s, w, Update(op)), e1, e2);
  }

  /** The worker taking a non-flush task, then the live flush no more than
      MinFlushInterval after the last sync: neither syncs. */
  lemma BoundaryTicks(s: State, e1: Env, e2: Env)
    requires |s.queue| == 2
    requires !s.queue[0].item.work.FlushDatabase? && s.queue[0].release <= e1.now
    requires s.queue[1].item.work == FlushDatabase(false) && s.lastFlushTask == Some(s.queue[1].item.id)
    requires s.queue[1].release <= e2.now <= s.lastFlushTime + MinFlushInterval
    ensures var r := Apply(Apply(s, Tick(e1)), Tick(e2));
      && r.queue == []
      && r.main.flushCount == s.main.flushCount
      && r.cover.flushCount == s.cover.flushCount
      && r.lastFlushTime == s.lastFlushTime
  {
    TickRunsHead(s, e1);
    var s2 := Apply(s, Tick(e1));
    TickRunsHead(s2, e2);
    RunFlush(s2.(queue := []), s.queue[1].item, e2);
  }

  lemma ExecThree(s: State, a: Event, b: Event, c: Event)
    ensures Exec(s, [a, b, c]) == Apply(Apply(Apply(s, a), b), c)
  {
    var s1 := Apply(s, a);
    var s2 := Apply(s1, b);
    assert [a, b, c][0] == a && [a, b, c][1..] == [b, c];
    assert Exec(s, [a, b, c]) == Exec(s1, [b, c]);
    assert [b, c][0] == b && [b, c][1..] == [c];
    assert Exec(s1, [b, c]) == Exec(s2, [c]);
    assert [c][0] == c && [c][1..] == [];
    assert Exec(s2, [c]) == Exec(Apply(s2, c), []);
  }

  /** A flushing write on an empty queue queues its task, then its flush. */
  lemma WriteOnEmptyQueue(s: State, now: Time, op: WriteOp)
    requires s.queue == []
    requires !Dropped(op) && FlushesAfter(op)
    ensures var r := Submit(s, now, Update(op));
      && r.queue == [Entry(Task(s.nextId, StoreWrite(op)), now), Entry(Task(s.nextId + 1, FlushDatabase(false)), now + MinFlushInterval)]
      && r.lastFlushTask == Some(s.nextId + 1)
      && r.lastFlushTime == s.lastFlushTime
  {
    var n := s.nextId;
    var ew := Entry(Task(n, StoreWrite(op)), now);
    var ef := Entry(Task(n + 1, FlushDatabase(false)), now + MinFlushInterval);
    var w := Enqueue(s, StoreWrite(op), now);
    assert w.queue == [ew];
    var r := NewFlushTask(w, now, false);
    assert Submit(s, now, Update(op)) == r;
    assert r.queue == Insert([ew], ef) == [ew] + Insert([], ef);
  }

  /** A worker turn that finds its head released runs it. */
  lemma TickRunsHead(s: State, env: Env)
    requires |s.queue| > 0 && s.queue[0].release <= env.now
    ensures Apply(s, Tick(env)) == RunTask(s.(queue := s.queue[1..]), s.queue[0].item, env)
  {
  }

  /** A burst of writes, reads and lifecycle requests inside one
      MinFlushInterval, starting with no flush queued, followed by the worker
      draining the queue: each store is synced at most once, however many of
      the writes asked for a flush. */
  lemma BurstCoalesces(s: State, burst: seq<Event>, drain: seq<Event>, t0: Time)
    requires Valid(s)
    requires forall x :: x in s.queue ==> !IsFlushTask(x.item)
    requires Quiet(burst, t0)
    requires OnlyTicks(drain)
    ensures var r := Exec(Exec(s, burst), drain);
      && r.main.flushCount <= s.main.flushCount + 1
      && r.cover.flushCount <= s.cover.flushCount + 1
  {
    SelectAllOrNone(s.queue, IsForcedFlush);
    var m := Exec(s, burst);
    QuietWindow(s, burst, t0);
    ExecKeepsValid(s, burst);
    DrainFlushBudget(m, drain);
  }

  /** The matching lower bound: if the burst holds a write that schedules a
      flush, and the worker drains the whole queue more than MinFlushInterval
      after the last sync, each store is synced exactly once. */
  lemma BurstSyncsExactlyOnce(s: State, burst: seq<Event>, drain: seq<Event>, t0: Time)
    requires Valid(s)
    requires forall x :: x in s.queue ==> !IsFlushTask(x.item)
    requires Quiet(burst, t0)
    requires HasFlushingWrite(burst)
    requires OnlyTicks(drain)
    requires forall i :: 0 <= i < |drain| ==> s.lastFlushTime + MinFlushInterval < TimeOf(drain[i])
    requires |Exec(Exec(s, burst), drain).queue| == 0
    ensures var r := Exec(Exec(s, burst), drain);
      && r.main.flushCount == s.main.flushCount + 1
      && r.cover.flushCount == s.cover.flushCount + 1
  {
    SelectAllOrNone(s.queue, IsForcedFlush);
    var m := Exec(s, burst);
    QuietWindow(s, burst, t0);
    QuietWindowArms(s, burst, t0);
    ExecKeepsValid(s, burst);
    DrainReachesLiveFlush(m, drain);
    BurstCoalesces(s, burst, drain, t0);
  }
}
