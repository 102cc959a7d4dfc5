/**
 The single worker: it takes the head of the queue once the head's release
 time has come and runs it to completion before looking at the queue again.
 */
module Worker {
  import opened Optional
  import opened TaskQueue
  import opened Service
  import opened Tasks

  /** One turn of the worker at time `env.now`. It does nothing when the queue
      is empty or its head is not yet released; otherwise exactly the head
      task runs, and it is gone from the queue afterwards. */
  function Step(s: State, env: Env): (r: Option<State>)
    ensures r.None? <==> |s.queue| == 0 || env.now < s.queue[0].release
    ensures r.Some? ==> r.value.queue == s.queue[1..]
    ensures r.Some? ==> BeganIds(r.value.trace) == BeganIds(s.trace) + [s.queue[0].item.id]
    ensures r.Some? ==> r.value.nextId == s.nextId && r.value.lastFlushTask == s.lastFlushTask
  {
    if |s.queue| == 0 || env.now < s.queue[0].release then None
    else
      var head := s.queue[0].item;
      var s' := s.(queue := s.queue[1..]);
      var r := RunTask(s', head, env);
      ExtendsKeepsBeganIds(s'.trace + [Began(head.id)], r.trace);
      BeganIdsAppend(s.trace, [Began(head.id)]);
      Some(r)
  }
}
