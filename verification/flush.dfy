/**
 The flush coordinator's execution-time rule: FlushDatabaseTask.work().
 */
module FlushPolicy {
  import opened Optional
  import opened Stores
  import opened Service

  /** The body of flush task `self` (forced or not) run at time `now`. A forced
      task always syncs both stores and leaves `lastFlushTime` alone. A
      non-forced one syncs only while it is still `lastFlushTask` and strictly
      more than MinFlushInterval has elapsed; then `lastFlushTime` becomes
      `now`, and otherwise nothing changes at all. */
  function FlushWork(s: State, self: TaskId, force: bool, now: Time): (r: State)
    ensures force ==> r.lastFlushTime == s.lastFlushTime
    ensures force ==> r.main.flushCount == s.main.flushCount + 1 && r.cover.flushCount == s.cover.flushCount + 1
    ensures force ==> r.trace == s.trace + [Flushed(MainDb), Flushed(CoverDb)]
    ensures !force && s.lastFlushTask == Some(self) && now > s.lastFlushTime + MinFlushInterval ==>
      && r.lastFlushTime == now
      && r.main.flushCount == s.main.flushCount + 1 && r.cover.flushCount == s.cover.flushCount + 1
      && r.trace == s.trace + [Flushed(MainDb), Flushed(CoverDb)]
    ensures !force && (s.lastFlushTask != Some(self) || now <= s.lastFlushTime + MinFlushInterval) ==> r == s
    ensures r.main.open == s.main.open && r.cover.open == s.cover.open
    ensures r.main.clearCount == s.main.clearCount && r.cover.clearCount == s.cover.clearCount
    ensures r.queue == s.queue && r.nextId == s.nextId && r.lastFlushTask == s.lastFlushTask
  {
    var elapsed: int := now - s.lastFlushTime;
    if force || (s.lastFlushTask == Some(self) && elapsed > MinFlushInterval) then
      var synced := s.(main := FlushStore(s.main), cover := FlushStore(s.cover),
                       trace := s.trace + [Flushed(MainDb), Flushed(CoverDb)]);
      if !force then synced.(lastFlushTime := now) else synced
    else
      s
  }
}
