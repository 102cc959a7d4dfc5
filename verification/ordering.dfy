/**
 Ordering guarantees of the serial queue: where an immediate request lands,
 that a later request's tasks follow an earlier immediate request's task, and
 that a task sees what the tasks before it did.
 */
module Ordering {
  import opened Optional
  import opened Stores
  import opened TaskQueue
  import opened Service
  import opened Lifecycle
  import opened Tasks
  import opened Worker
  import opened Requests
  import opened Runs

  /** A request that enqueues one task released at once puts it behind every
      task already released by `now` and ahead of every task released later;
      nothing else in the queue moves. A `sync` callback therefore runs after
      all tasks already due. */
  lemma ImmediatePlacement(s: State, now: Time, req: Request)
    requires Valid(s)
    requires |Planned(req, s.nextId, now)| == 1
    ensures var r := Submit(s, now, req);
      var p := Slot(s.queue, now);
      && r.queue == s.queue[..p] + Planned(req, s.nextId, now) + s.queue[p..]
      && (forall i :: 0 <= i < p ==> s.queue[i].release <= now)
      && (forall i :: p <= i < |s.queue| ==> now < s.queue[i].release)
  {
    var p := Planned(req, s.nextId, now);
    var e := p[0];
    assert p == [e];
    PlannedShape(req, s.nextId, now);
    SubmitInserts(s, now, req);
    InsertOne(s.queue, e);
    InsertSplits(s.queue, e);
  }

  /** Two requests in turn, the first enqueueing one task released at once and
      the second made no earlier: among the new tasks, the first request's task
      comes first and the second request's tasks follow in their own order. A
      reopen followed by reads or writes is so bracketed: they run against the
      reopened stores. */
  lemma LaterRequestFollows(s: State, now1: Time, req1: Request, now2: Time, req2: Request)
    requires Valid(s)
    requires |Planned(req1, s.nextId, now1)| == 1
    requires now1 <= now2
    ensures var r1 := Submit(s, now1, req1);
      var r2 := Submit(r1, now2, req2);
      && Select(r2.queue, OlderThan(s.nextId)) == s.queue
      && Select(r2.queue, FromId(s.nextId)) == Planned(req1, s.nextId, now1) + Planned(req2, s.nextId + 1, now2)
  {
    var n := s.nextId;
    var r1 := Submit(s, now1, req1);
    var p1 := Planned(req1, n, now1);
    SubmitEnqueues(s, now1, req1);
    SubmitSelectsFrom(s, now1, req1, n);
    PlannedShape(req1, n, now1);
    Follows(r1, n, p1, now2, req2);
  }

  /** The second half: a request made no earlier than every task identified
      from `n` on is released lines its tasks up behind them. */
  lemma Follows(r1: State, n: TaskId, p1: Queue, now2: Time, req2: Request)
    requires Sorted(r1.queue) && r1.nextId == n + 1
    requires Select(r1.queue, FromId(n)) == p1
    requires |p1| == 1 && p1[0].release <= now2
    ensures var r2 := Submit(r1, now2, req2);
      && Select(r2.queue, OlderThan(n)) == Select(r1.queue, OlderThan(n))
      && Select(r2.queue, FromId(n)) == p1 + Planned(req2, n + 1, now2)
  {
    var p2 := Planned(req2, n + 1, now2);
    SubmitSelectsFrom(r1, now2, req2, n);
    PlannedShape(req2, n + 1, now2);
    InsertAllBehind(p1, p2);
  }

  /** Tasks run in turn see each other's effects: a read run after a reopen
      reaches its store open exactly when the reopen's open succeeded. */
  lemma ReadAfterReopen(s: State, a: TaskId, b: TaskId, op: ReadOp, h: HandlerId, e1: Env, e2: Env)
    ensures var r := RunTask(RunTask(s, Task(a, ReopenDatabase), e1), Task(b, StoreRead(op, h)), e2);
      r.trace[|r.trace| - 2..]
      == [Accessed(ReadSource(op), ReadCall(op), e1.mainOpens && e1.coverOpens), Delivered(h, b)]
  {
    var m := RunTask(s, Task(a, ReopenDatabase), e1);
    assert m == ReopenStores(s.(trace := s.trace + [Began(a)]), e1);
    ReadDeliversLast(m, Task(b, StoreRead(op, h)), e2);
  }

  /** A reopen is one worker turn: the whole close and then the whole open
      happen inside it, with no other task starting in between, and both
      stores end open exactly when both opens succeeded. */
  lemma ReopenRunsAsOneTask(s: State, env: Env)
    requires |s.queue| > 0 && s.queue[0].release <= env.now
    requires s.queue[0].item.work == ReopenDatabase
    ensures var r := Apply(s, Tick(env));
      var ok := env.mainOpens && env.coverOpens;
      && r.queue == s.queue[1..]
      && r.trace == s.trace + [Began(s.queue[0].item.id)]
           + [CachesCleared(MainDb), CachesCleared(CoverDb), Closed(MainDb), Closed(CoverDb)]
           + [Opened(MainDb, env.dir, env.mainOpens), Opened(CoverDb, env.dir, env.coverOpens)]
           + (if ok then [] else [Closed(MainDb), Closed(CoverDb)])
      && r.main.open == ok && r.cover.open == ok
  {
    var h := s.queue[0].item;
    var s' := s.(queue := s.queue[1..]);
    assert Apply(s, Tick(env)) == RunTask(s', h, env);
    assert RunTask(s', h, env) == ReopenStores(s'.(trace := s'.trace + [Began(h.id)]), env);
  }
}
