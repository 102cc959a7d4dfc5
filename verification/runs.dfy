/**
 Runs of the service: requests made by its clients interleaved with turns of
 the worker. Any such run from the initial state keeps the invariant, and the
 worker alone drains the queue front to back.
 */
module Runs {
  import opened Optional
  import opened TaskQueue
  import opened Service
  import opened Worker
  import opened Requests

  /** Something that happens to the service: a client request at time `now`,
      or a turn of the worker in the environment `env`. */
  datatype Event =
    | Call(now: Time, req: Request)
    | Tick(env: Env)

  function TimeOf(ev: Event): Time
  {
    match ev
    case Call(now, _) => now
    case Tick(env) => env.now
  }

  function Apply(s: State, ev: Event): State
  {
    match ev
    case Call(now, req) => Submit(s, now, req)
    case Tick(env) =>
      match Step(s, env)
      case None => s
      case Some(r) => r
  }

  /** The state after the events `evs`, first to last. */
  function Exec(s: State, evs: seq<Event>): State
    decreases |evs|
  {
    if |evs| == 0 then s else Exec(Apply(s, evs[0]), evs[1..])
  }

  ghost predicate OnlyTicks(evs: seq<Event>)
  {
    forall i :: 0 <= i < |evs| ==> evs[i].Tick?
  }

  /** The identities of the queued tasks, front to back. */
  function Ids(q: Queue): (ids: seq<TaskId>)
    ensures |ids| == |q|
  {
    seq(|q|, i requires 0 <= i < |q| => q[i].item.id)
  }

  lemma InitialValid()
    ensures Valid(Initial)
  {
  }

  /** A worker turn keeps the invariant: the queue loses its head, the marker
      stays, and every task keeps the two stores open or closed together. */
  lemma StepKeepsValid(s: State, env: Env)
    requires Valid(s)
    ensures Valid(Apply(s, Tick(env)))
  {
    var r := Step(s, env);
    if r.Some? {
      var q := s.queue;
      assert q == [q[0]] + q[1..];
      assert forall x :: x in q[1..] ==> x in q;
      assert Count(q[1..], IsLiveFlush(s.lastFlushTask)) <= Count(q, IsLiveFlush(s.lastFlushTask));
    }
  }

  lemma ApplyKeepsValid(s: State, ev: Event)
    requires Valid(s)
    ensures Valid(Apply(s, ev))
  {
    match ev
    case Call(now, req) => SubmitKeepsValid(s, now, req);
    case Tick(env) => StepKeepsValid(s, env);
  }

  lemma {:induction false} ExecKeepsValid(s: State, evs: seq<Event>)
    requires Valid(s)
    ensures Valid(Exec(s, evs))
    decreases |evs|
  {
    if |evs| > 0 {
      ApplyKeepsValid(s, evs[0]);
      ExecKeepsValid(Apply(s, evs[0]), evs[1..]);
    }
  }

  /** Whatever the clients ask and whenever the worker runs, the main and the
      cover store are never one open and the other closed between tasks. */
  lemma NeverHalfOpen(evs: seq<Event>)
    ensures Exec(Initial, evs).main.open == Exec(Initial, evs).cover.open
  {
    InitialValid();
    ExecKeepsValid(Initial, evs);
  }

  /** What one worker turn does to the queue and to the record of started
      tasks: nothing, or the head task starts and leaves the queue. */
  lemma TickFacts(s: State, env: Env)
    ensures var r := Apply(s, Tick(env));
      r.nextId == s.nextId && r.lastFlushTask == s.lastFlushTask
    ensures var r := Apply(s, Tick(env));
      || r == s
      || (&& |s.queue| > 0
          && r.queue == s.queue[1..]
          && BeganIds(r.trace) == BeganIds(s.trace) + [s.queue[0].item.id])
  {
  }

  lemma OnlyTicksTail(evs: seq<Event>)
    requires |evs| > 0 && OnlyTicks(evs)
    ensures evs[0].Tick? && OnlyTicks(evs[1..])
  {
    assert evs[0].Tick?;
    forall i | 0 <= i < |evs[1..]| ensures evs[1..][i].Tick? {
      assert evs[1..][i] == evs[i + 1];
    }
  }

  /** The queue and the started tasks after a drain, relative to `s`. */
  ghost predicate DrainedFrom(s: State, r: State)
  {
    && |r.queue| <= |s.queue|
    && r.queue == s.queue[|s.queue| - |r.queue|..]
    && BeganIds(r.trace) == BeganIds(s.trace) + Ids(s.queue[..|s.queue| - |r.queue|])
  }

  /** A drain after a turn that ran the head is a drain from before it. */
  lemma DrainedAfterHead(s: State, s1: State, r: State)
    requires |s.queue| > 0
    requires s1.queue == s.queue[1..]
    requires BeganIds(s1.trace) == BeganIds(s.trace) + [s.queue[0].item.id]
    requires DrainedFrom(s1, r)
    ensures DrainedFrom(s, r)
  {
    var q := s.queue;
    var k1 := |s1.queue| - |r.queue|;
    assert r.queue == q[1 + k1..];
    assert Ids(q[..1 + k1]) == [q[0].item.id] + Ids(s1.queue[..k1]);
  }

  /** Worker turns with no requests in between run some prefix of the queue,
      strictly in queue order, one task after another: the tasks that began
      are exactly that prefix, and what remains queued is the rest. */
  lemma {:induction false} DrainRunsInOrder(s: State, evs: seq<Event>)
    requires OnlyTicks(evs)
    ensures DrainedFrom(s, Exec(s, evs))
    decreases |evs|
  {
    if |evs| == 0 {
      assert Ids(s.queue[..0]) == [];
      assert s.queue[0..] == s.queue;
    } else {
      OnlyTicksTail(evs);
      var s1 := Apply(s, evs[0]);
      DrainRunsInOrder(s1, evs[1..]);
      TickFacts(s, evs[0].env);
      if s1 != s {
        DrainedAfterHead(s, s1, Exec(s1, evs[1..]));
      }
    }
  }
}
