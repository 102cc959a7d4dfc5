/**
 Interleaved runs. A request whose one task is released at once is taken off
 the queue by the worker before any task of a later request made no earlier,
 whatever other requests and worker turns come in between: the queue keeps
 equal release times in arrival order and the worker only ever takes its head.
 */
module Interleaving {
  import opened TaskQueue
  import opened Service
  import opened Requests
  import opened Runs

  /** Every task that has started was given an identity below `nextId`. */
  ghost predicate BeganBelow(s: State)
  {
    forall k :: 0 <= k < |BeganIds(s.trace)| ==> BeganIds(s.trace)[k] < s.nextId
  }

  /** In `q`, each task with an identity in [lo, hi) has the task `a` ahead of
      it, unless `a` has already started. */
  ghost predicate QueuedBehind(q: Queue, a: TaskId, lo: TaskId, hi: TaskId, started: bool)
  {
    forall k :: 0 <= k < |q| && lo <= q[k].item.id < hi ==>
      started || exists k' :: 0 <= k' < k && q[k'].item.id == a
  }

  /** In the started identities `ids`, each one in [lo, hi) comes after an `a`. */
  ghost predicate StartedBehind(ids: seq<TaskId>, a: TaskId, lo: TaskId, hi: TaskId)
  {
    forall m :: 0 <= m < |ids| && lo <= ids[m] < hi ==> exists p :: 0 <= p < m && ids[p] == a
  }

  /** Between the two requests: the first one's entry `ea` is queued or its
      task has started. */
  ghost predicate Pending(s: State, ea: Entry<Task>)
  {
    && Valid(s)
    && BeganBelow(s)
    && ea.item.id < s.nextId
    && (ea in s.queue || ea.item.id in BeganIds(s.trace))
  }

  /** After the second request, whose tasks have the identities [lo, hi):
      each of them is behind `a` in the queue or has started after `a`. */
  ghost predicate Ordered(s: State, a: TaskId, lo: TaskId, hi: TaskId)
  {
    && Valid(s)
    && BeganBelow(s)
    && a < lo <= hi <= s.nextId
    && QueuedBehind(s.queue, a, lo, hi, a in BeganIds(s.trace))
    && StartedBehind(BeganIds(s.trace), a, lo, hi)
  }

  lemma {:induction false} ExecAppend(s: State, x: seq<Event>, y: seq<Event>)
    ensures Exec(s, x + y) == Exec(Exec(s, x), y)
    decreases |x|
  {
    if |x| > 0 {
      assert (x + y)[0] == x[0] && (x + y)[1..] == x[1..] + y;
      ExecAppend(Apply(s, x[0]), x[1..], y);
    } else {
      assert x + y == y;
    }
  }

  /** A run split at its `i`-th event. */
  lemma ExecSplitAt(s: State, evs: seq<Event>, i: nat)
    requires i < |evs|
    ensures Exec(s, evs) == Exec(Apply(Exec(s, evs[..i]), evs[i]), evs[i + 1..])
  {
    var rest := [evs[i]] + evs[i + 1..];
    assert evs == evs[..i] + rest;
    ExecAppend(s, evs[..i], rest);
    assert rest[0] == evs[i] && rest[1..] == evs[i + 1..];
  }

  lemma ApplyKeepsBeganBelow(s: State, ev: Event)
    requires Valid(s) && BeganBelow(s)
    ensures Valid(Apply(s, ev)) && BeganBelow(Apply(s, ev))
  {
    ApplyKeepsValid(s, ev);
    if ev.Tick? {
      TickFacts(s, ev.env);
      if |s.queue| > 0 {
        assert s.queue[0] in s.queue;
      }
    }
  }

  lemma {:induction false} ExecKeepsBeganBelow(s: State, evs: seq<Event>)
    requires Valid(s) && BeganBelow(s)
    ensures Valid(Exec(s, evs)) && BeganBelow(Exec(s, evs))
    decreases |evs|
  {
    if |evs| > 0 {
      ApplyKeepsBeganBelow(s, evs[0]);
      ExecKeepsBeganBelow(Apply(s, evs[0]), evs[1..]);
    }
  }

  /** Where the entries of `q` go when `e` is spliced in at `p`. */
  lemma SpliceIndex(q: Queue, e: Entry<Task>, p: nat, k: nat)
    requires p <= |q| && k < |q|
    ensures var r := q[..p] + [e] + q[p..];
      && (k < p ==> r[k] == q[k])
      && (p <= k ==> r[k + 1] == q[k])
  {
  }

  /** Inserting an entry keeps the tasks in [lo, hi) behind `ea`'s task, if
      the entry is not that task and, when it is in [lo, hi), lands behind
      `ea`. */
  lemma InsertKeepsBehind(q: Queue, e: Entry<Task>, ea: Entry<Task>, lo: TaskId, hi: TaskId, started: bool)
    requires Sorted(q)
    requires QueuedBehind(q, ea.item.id, lo, hi, started)
    requires e.item.id != ea.item.id
    requires lo <= e.item.id < hi && !started ==> ea in q && ea.release <= e.release
    ensures QueuedBehind(Insert(q, e), ea.item.id, lo, hi, started)
  {
    var a := ea.item.id;
    var p := Slot(q, e.release);
    InsertSplits(q, e);
    var r := q[..p] + [e] + q[p..];
    assert |r| == |q| + 1 && r[p] == e;
    forall k | 0 <= k < |r| && lo <= r[k].item.id < hi
      ensures started || exists k' :: 0 <= k' < k && r[k'].item.id == a
    {
      if !started {
        if k < p {
          SpliceIndex(q, e, p, k);
          var k' :| 0 <= k' < k && q[k'].item.id == a;
          SpliceIndex(q, e, p, k');
        } else if k == p {
          var j :| 0 <= j < |q| && q[j] == ea;
          assert j < p;
          SpliceIndex(q, e, p, j);
        } else {
          SpliceIndex(q, e, p, k - 1);
          var k' :| 0 <= k' < k - 1 && q[k'].item.id == a;
          SpliceIndex(q, e, p, k');
        }
      }
    }
  }

  lemma {:induction false} InsertAllKeepsBehind(q: Queue, es: seq<Entry<Task>>, ea: Entry<Task>, lo: TaskId, hi: TaskId, started: bool)
    requires Sorted(q)
    requires QueuedBehind(q, ea.item.id, lo, hi, started)
    requires forall i :: 0 <= i < |es| ==> es[i].item.id != ea.item.id
    requires forall i :: 0 <= i < |es| && lo <= es[i].item.id < hi && !started ==> ea in q && ea.release <= es[i].release
    ensures QueuedBehind(InsertAll(q, es), ea.item.id, lo, hi, started)
    decreases |es|
  {
    if |es| > 0 {
      InsertKeepsBehind(q, es[0], ea, lo, hi, started);
      InsertSorted(q, es[0]);
      InsertAllKeeps(q, [es[0]]);
      InsertOne(q, es[0]);
      assert forall i :: 0 <= i < |es[1..]| ==> es[1..][i] == es[i + 1];
      InsertAllKeepsBehind(Insert(q, es[0]), es[1..], ea, lo, hi, started);
    }
  }

  /** The worker taking the head keeps both facts. */
  lemma TailKeepsBehind(q: Queue, ids: seq<TaskId>, a: TaskId, lo: TaskId, hi: TaskId)
    requires |q| > 0
    requires QueuedBehind(q, a, lo, hi, a in ids)
    requires StartedBehind(ids, a, lo, hi)
    ensures var ids' := ids + [q[0].item.id];
      && QueuedBehind(q[1..], a, lo, hi, a in ids')
      && StartedBehind(ids', a, lo, hi)
  {
    var ids' := ids + [q[0].item.id];
    forall m | 0 <= m < |ids'| && lo <= ids'[m] < hi
      ensures exists p :: 0 <= p < m && ids'[p] == a
    {
      if m < |ids| {
        assert ids'[m] == ids[m];
        var p :| 0 <= p < m && ids[p] == a;
        assert ids'[p] == ids[p];
      } else {
        assert a in ids;
        var p :| 0 <= p < |ids| && ids[p] == a;
        assert ids'[p] == ids[p];
      }
    }
    forall k | 0 <= k < |q[1..]| && lo <= q[1..][k].item.id < hi
      ensures (a in ids') || exists k' :: 0 <= k' < k && q[1..][k'].item.id == a
    {
      assert q[1..][k] == q[k + 1];
      if a !in ids {
        var k' :| 0 <= k' < k + 1 && q[k'].item.id == a;
        if k' == 0 {
          assert ids'[|ids|] == a;
        } else {
          assert q[1..][k' - 1] == q[k'];
        }
      } else {
        var p :| 0 <= p < |ids| && ids[p] == a;
        assert ids'[p] == a;
      }
    }
  }

  lemma ApplyKeepsPending(s: State, ea: Entry<Task>, ev: Event)
    requires Pending(s, ea)
    ensures Pending(Apply(s, ev), ea)
  {
    ApplyKeepsBeganBelow(s, ev);
    match ev {
      case Call(now, req) =>
        SubmitInserts(s, now, req);
        InsertAllKeeps(s.queue, Planned(req, s.nextId, now));
      case Tick(env) =>
        TickFacts(s, env);
        var q := s.queue;
        if Apply(s, ev) != s && ea in q {
          var ids := BeganIds(s.trace) + [q[0].item.id];
          if ea == q[0] {
            assert ids[|ids| - 1] == ea.item.id;
          } else {
            assert q == [q[0]] + q[1..];
          }
        }
    }
  }

  lemma {:induction false} ExecKeepsPending(s: State, ea: Entry<Task>, evs: seq<Event>)
    requires Pending(s, ea)
    ensures Pending(Exec(s, evs), ea)
    decreases |evs|
  {
    if |evs| > 0 {
      ApplyKeepsPending(s, ea, evs[0]);
      ExecKeepsPending(Apply(s, evs[0]), ea, evs[1..]);
    }
  }

  /** The first request: its first entry is queued under the identity it was
      given, released at the time of the request. */
  lemma FirstRequest(s: State, now: Time, req: Request)
    requires Valid(s) && BeganBelow(s)
    requires |Planned(req, s.nextId, now)| >= 1
    ensures var ea := Planned(req, s.nextId, now)[0];
      && ea.item.id == s.nextId
      && ea.release == now
      && Pending(Submit(s, now, req), ea)
  {
    var ea := Planned(req, s.nextId, now)[0];
    PlannedShape(req, s.nextId, now);
    SubmitInserts(s, now, req);
    SubmitCounts(s, now, req);
    InsertAllHas(s.queue, Planned(req, s.nextId, now));
    ApplyKeepsBeganBelow(s, Call(now, req));
  }

  /** Before any task from `nextId` on exists, nothing is out of order. */
  lemma NothingYet(s: State, a: TaskId, hi: TaskId, started: bool)
    requires Valid(s) && BeganBelow(s)
    ensures QueuedBehind(s.queue, a, s.nextId, hi, started)
    ensures StartedBehind(BeganIds(s.trace), a, s.nextId, hi)
  {
    assert forall k :: 0 <= k < |s.queue| ==> s.queue[k] in s.queue;
  }

  /** The tasks a request plans from identity `n` on are new and released no
      earlier than the request. */
  lemma PlannedAfter(req: Request, n: TaskId, now: Time, ea: Entry<Task>)
    requires ea.item.id < n && ea.release <= now
    ensures var p := Planned(req, n, now);
      forall i :: 0 <= i < |p| ==> p[i].item.id != ea.item.id && ea.release <= p[i].release
  {
    PlannedShape(req, n, now);
  }

  /** The second request, made no earlier than the first one's entry is
      released: all its tasks are queued behind that entry. */
  lemma SecondRequest(s: State, ea: Entry<Task>, now: Time, req: Request)
    requires Pending(s, ea)
    requires ea.release <= now
    ensures Ordered(Submit(s, now, req), ea.item.id, s.nextId, s.nextId + |Planned(req, s.nextId, now)|)
  {
    var n := s.nextId;
    var p := Planned(req, n, now);
    var hi := n + |p|;
    var started := ea.item.id in BeganIds(s.trace);
    NothingYet(s, ea.item.id, hi, started);
    PlannedAfter(req, n, now, ea);
    InsertAllKeepsBehind(s.queue, p, ea, n, hi, started);
    SubmitInserts(s, now, req);
    SubmitCounts(s, now, req);
    ApplyKeepsBeganBelow(s, Call(now, req));
  }

  lemma ApplyKeepsOrdered(s: State, a: TaskId, lo: TaskId, hi: TaskId, ev: Event)
    requires Ordered(s, a, lo, hi)
    ensures Ordered(Apply(s, ev), a, lo, hi)
  {
    ApplyKeepsBeganBelow(s, ev);
    match ev {
      case Call(now, req) =>
        PlannedShape(req, s.nextId, now);
        SubmitInserts(s, now, req);
        // no new task is in [lo, hi), so any entry for `a` will do
        var ea := Entry(Task(a, Sync(0)), 0);
        InsertAllKeepsBehind(s.queue, Planned(req, s.nextId, now), ea, lo, hi, a in BeganIds(s.trace));
      case Tick(env) =>
        TickFacts(s, env);
        if Apply(s, ev) != s {
          TailKeepsBehind(s.queue, BeganIds(s.trace), a, lo, hi);
        }
    }
  }

  lemma {:induction false} ExecKeepsOrdered(s: State, a: TaskId, lo: TaskId, hi: TaskId, evs: seq<Event>)
    requires Ordered(s, a, lo, hi)
    ensures Ordered(Exec(s, evs), a, lo, hi)
    decreases |evs|
  {
    if |evs| > 0 {
      ApplyKeepsOrdered(s, a, lo, hi, evs[0]);
      ExecKeepsOrdered(Apply(s, evs[0]), a, lo, hi, evs[1..]);
    }
  }

  /** In any run, a request `evs[i]` that enqueues anything, a flushing write
      included, has its first task (identity `a`, released at once) start
      before every task of a later request `evs[j]` made no earlier
      (identities [lo, hi)): each of those that has started comes after `a`
      among the started tasks, whatever else the clients ask and however the
      worker turns fall in between. */
  lemma ImmediateRequestStartsFirst(s: State, evs: seq<Event>, i: nat, j: nat)
    requires Valid(s) && BeganBelow(s)
    requires i < j < |evs|
    requires evs[i].Call? && evs[j].Call? && evs[i].now <= evs[j].now
    requires |Planned(evs[i].req, Exec(s, evs[..i]).nextId, evs[i].now)| >= 1
    ensures var a := Exec(s, evs[..i]).nextId;
      var lo := Exec(s, evs[..j]).nextId;
      var hi := lo + |Planned(evs[j].req, lo, evs[j].now)|;
      var ids := BeganIds(Exec(s, evs).trace);
      forall m :: 0 <= m < |ids| && lo <= ids[m] < hi ==> exists p :: 0 <= p < m && ids[p] == a
  {
    var si := Exec(s, evs[..i]);
    ExecKeepsBeganBelow(s, evs[..i]);
    FirstRequest(si, evs[i].now, evs[i].req);
    var ea := Planned(evs[i].req, si.nextId, evs[i].now)[0];
    var si1 := Apply(si, evs[i]);
    ExecKeepsPending(si1, ea, evs[i + 1..j]);
    var sj := Exec(si1, evs[i + 1..j]);
    ExecSplitAt(s, evs[..j], i);
    assert evs[..j][..i] == evs[..i] && evs[..j][i] == evs[i] && evs[..j][i + 1..] == evs[i + 1..j];
    SecondRequest(sj, ea, evs[j].now, evs[j].req);
    var lo := sj.nextId;
    var hi := lo + |Planned(evs[j].req, lo, evs[j].now)|;
    ExecKeepsOrdered(Apply(sj, evs[j]), ea.item.id, lo, hi, evs[j + 1..]);
    ExecSplitAt(s, evs, j);
  }
}
