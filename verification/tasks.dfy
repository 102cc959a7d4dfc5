/**
 Running one task: the body of each task kind, applied to the service state.
 */
module Tasks {
  import opened Stores
  import opened Service
  import opened Lifecycle
  import opened FlushPolicy

  /** The store calls of a write task, made in order; each is recorded with
      whether its store was open at the time. Stores themselves are opaque. */
  function Touch(s: State, dbs: seq<Db>, call: Call): (r: State)
    ensures Extends(s.trace, r.trace)
    ensures |r.trace| == |s.trace| + |dbs|
    ensures forall i :: 0 <= i < |dbs| ==> r.trace[|s.trace| + i] == Accessed(dbs[i], call, IsOpen(s, dbs[i]))
    ensures r.(trace := s.trace) == s
    decreases |dbs|
  {
    if |dbs| == 0 then s
    else
      var s' := s.(trace := s.trace + [Accessed(dbs[0], call, IsOpen(s, dbs[0]))]);
      var r := Touch(s', dbs[1..], call);
      r
  }

  /** The worker runs task `t`: it records that `t` began, then runs its body.
      A body never enqueues a task or creates a flush task; a read or sync
      task hands its outcome to the caller's handler as its very last step,
      a sync task touches no store, and only flush tasks sync stores. */
  function RunTask(s: State, t: Task, env: Env): (r: State)
    ensures r.queue == s.queue && r.nextId == s.nextId && r.lastFlushTask == s.lastFlushTask
    ensures |s.trace| < |r.trace| && r.trace[|s.trace|] == Began(t.id)
    ensures Extends(s.trace + [Began(t.id)], r.trace)
    ensures !t.work.FlushDatabase? ==> r.main.flushCount == s.main.flushCount && r.cover.flushCount == s.cover.flushCount
    ensures !t.work.FlushDatabase? ==> r.lastFlushTime == s.lastFlushTime
    ensures s.main.open == s.cover.open ==> r.main.open == r.cover.open
  {
    var s0 := s.(trace := s.trace + [Began(t.id)]);
    match t.work
    case OpenDatabase => OpenStores(s0, env).state
    case CloseDatabase => CloseStores(s0)
    case ReopenDatabase => ReopenStores(s0, env)
    case FlushDatabase(force) => FlushWork(s0, t.id, force, env.now)
    case StoreWrite(op) => Touch(s0, WriteTargets(op), WriteCall(op))
    case StoreRead(op, h) =>
      var a := Touch(s0, [ReadSource(op)], ReadCall(op));
      a.(trace := a.trace + [Delivered(h, t.id)])
    case Sync(h) => s0.(trace := s0.trace + [Delivered(h, t.id)])
  }

  /** A write task makes its store calls, in order, on the stores its method
      names, each seeing whether that store was open; it opens or closes
      nothing and delivers nothing. */
  lemma WriteRunsOnTargets(s: State, t: Task, env: Env)
    requires t.work.StoreWrite?
    ensures var r := RunTask(s, t, env);
      var dbs := WriteTargets(t.work.write);
      && r.trace[..|s.trace| + 1] == s.trace + [Began(t.id)]
      && |r.trace| == |s.trace| + 1 + |dbs|
      && (forall i :: 0 <= i < |dbs| ==>
            r.trace[|s.trace| + 1 + i] == Accessed(dbs[i], WriteCall(t.work.write), IsOpen(s, dbs[i])))
      && r.main == s.main && r.cover == s.cover
  {
    var s0 := s.(trace := s.trace + [Began(t.id)]);
    assert forall db :: IsOpen(s0, db) == IsOpen(s, db);
  }

  /** A read task calls its one store and then, as its very last step, hands
      the outcome to the caller's handler; it changes no store. */
  lemma ReadDeliversLast(s: State, t: Task, env: Env)
    requires t.work.StoreRead?
    ensures var r := RunTask(s, t, env);
      var db := ReadSource(t.work.read);
      && r.trace == s.trace + [Began(t.id), Accessed(db, ReadCall(t.work.read), IsOpen(s, db)), Delivered(t.work.handler, t.id)]
      && r.main == s.main && r.cover == s.cover
  {
    var s0 := s.(trace := s.trace + [Began(t.id)]);
    var a := Touch(s0, [ReadSource(t.work.read)], ReadCall(t.work.read));
    assert a.trace == s0.trace + [a.trace[|s0.trace|]];
  }

  /** A sync task touches no store: it only hands the callback to the
      caller's handler. */
  lemma SyncOnlyDelivers(s: State, t: Task, env: Env)
    requires t.work.Sync?
    ensures var r := RunTask(s, t, env);
      && r.trace == s.trace + [Began(t.id), Delivered(t.work.handler, t.id)]
      && r.main == s.main && r.cover == s.cover
  {
  }
}
