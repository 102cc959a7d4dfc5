/**
 The lifecycle task bodies: open both stores (OpenDatabaseTask), clear caches
 then close both (CloseDatabaseTask), and close-then-open inside one task
 (ReOpenDatabaseTask, whose private open/close are copies of the other two).
 */
module Lifecycle {
  import opened Stores
  import opened Service

  /** `clearCaches()`: the main store's caches, then the cover store's. */
  function ClearCaches(s: State): (r: State)
    ensures r.main.clearCount == s.main.clearCount + 1 && r.cover.clearCount == s.cover.clearCount + 1
    ensures r.main.open == s.main.open && r.cover.open == s.cover.open
    ensures r.main.flushCount == s.main.flushCount && r.cover.flushCount == s.cover.flushCount
    ensures r.trace == s.trace + [CachesCleared(MainDb), CachesCleared(CoverDb)]
    ensures r.(main := s.main, cover := s.cover, trace := s.trace) == s
  {
    s.(main := ClearStoreCaches(s.main),
       cover := ClearStoreCaches(s.cover),
       trace := s.trace + [CachesCleared(MainDb), CachesCleared(CoverDb)])
  }

  /** Close the main store, then the cover store. */
  function CloseBoth(s: State): State
  {
    s.(main := CloseStore(s.main),
       cover := CloseStore(s.cover),
       trace := s.trace + [Closed(MainDb), Closed(CoverDb)])
  }

  /** Outcome of `open()`: the new state and the boolean it returns. */
  datatype OpenOutcome = OpenOutcome(state: State, ok: bool)

  /** `open()`: both stores are always asked to open (the cover store too when
      the main store has already failed); on any failure both are closed. */
  function OpenStores(s: State, env: Env): (r: OpenOutcome)
    ensures r.ok <==> env.mainOpens && env.coverOpens
    ensures r.state.main.open == r.ok && r.state.cover.open == r.ok
    ensures r.state.trace
         == s.trace + [Opened(MainDb, env.dir, env.mainOpens), Opened(CoverDb, env.dir, env.coverOpens)]
            + (if r.ok then [] else [Closed(MainDb), Closed(CoverDb)])
    ensures r.state.main.flushCount == s.main.flushCount && r.state.cover.flushCount == s.cover.flushCount
    ensures r.state.main.clearCount == s.main.clearCount && r.state.cover.clearCount == s.cover.clearCount
    ensures r.state.(main := s.main, cover := s.cover, trace := s.trace) == s
  {
    var dir := env.dir;
    var m := s.(main := OpenStore(s.main, env.mainOpens),
                trace := s.trace + [Opened(MainDb, dir, env.mainOpens)]);
    var res := env.mainOpens;
    var c := m.(cover := OpenStore(m.cover, env.coverOpens),
                trace := m.trace + [Opened(CoverDb, dir, env.coverOpens)]);
    var res' := env.coverOpens && res;
    if !res' then OpenOutcome(CloseBoth(c), res') else OpenOutcome(c, res')
  }

  /** `close()`: clear both stores' caches, then close the main store and the
      cover store. No flush happens. */
  function CloseStores(s: State): (r: State)
    ensures !r.main.open && !r.cover.open
    ensures r.trace
         == s.trace + [CachesCleared(MainDb), CachesCleared(CoverDb), Closed(MainDb), Closed(CoverDb)]
    ensures r.main.flushCount == s.main.flushCount && r.cover.flushCount == s.cover.flushCount
    ensures r.main.clearCount == s.main.clearCount + 1 && r.cover.clearCount == s.cover.clearCount + 1
    ensures r.(main := s.main, cover := s.cover, trace := s.trace) == s
  {
    CloseBoth(ClearCaches(s))
  }

  /** ReOpenDatabaseTask.work(): the whole close, then the whole open. The
      result's open flags depend only on this open's outcome. */
  function ReopenStores(s: State, env: Env): (r: State)
    ensures r.main.open == (env.mainOpens && env.coverOpens) == r.cover.open
    ensures r.trace
         == s.trace + [CachesCleared(MainDb), CachesCleared(CoverDb), Closed(MainDb), Closed(CoverDb)]
            + [Opened(MainDb, env.dir, env.mainOpens), Opened(CoverDb, env.dir, env.coverOpens)]
            + (if env.mainOpens && env.coverOpens then [] else [Closed(MainDb), Closed(CoverDb)])
    ensures r.main.flushCount == s.main.flushCount && r.cover.flushCount == s.cover.flushCount
    ensures r.(main := s.main, cover := s.cover, trace := s.trace) == s
  {
    OpenStores(CloseStores(s), env).state
  }
}
