/**
 State of the database service (CRDBService): the two store handles, the
 flush marker and timestamp, the worker queue, and a trace of everything the
 task bodies did to the stores and to callers, in order.
 */
module Service {
  import opened Optional
  import opened Stores
  import opened TaskQueue

  type TaskId = nat
  /** The caller's Handler, reduced to an identity. */
  type HandlerId = nat
  /** Milliseconds on the service clock. */
  type Time = nat
  /** The database directory, an opaque input. */
  type Dir = string

  /** MIN_FLUSH_INTERVAL: both the delay of a scheduled flush and the minimum
      time between two scheduled syncs, in milliseconds. */
  const MinFlushInterval: nat := 30000

  /** The public write requests. Cover data is the only payload the service
      itself inspects (a null cover is dropped), so it is the only one kept. */
  datatype WriteOp =
    | SaveOPDSCatalog
    | SaveSearchHistory
    | UpdateOPDSCatalogLastUsage
    | RemoveOPDSCatalog
    | SetPathCorrector
    | SaveBookCoverpage(data: Option<seq<bv8>>)
    | DeleteCoverpage
    | SaveFileInfos
    | SaveBookInfo
    | DeleteBook
    | DeleteBookmark
    | DeleteRecentPosition
    | CreateFavoriteFolder
    | UpdateFavoriteFolder
    | DeleteFavoriteFolder

  /** The public read requests; each hands its result to a caller's handler. */
  datatype ReadOp =
    | LoadOPDSCatalogs
    | LoadSearchHistory
    | LoadBookCoverpage
    | LoadGenresList
    | LoadAuthorsList
    | LoadSeriesList
    | LoadTitleList
    | FindGenresBooks
    | FindAuthorBooks
    | FindSeriesBooks
    | FindBooksByRating
    | FindBooksByState
    | LoadRecentBooks
    | FindByPatterns
    | FindByFingerprints
    | LoadBookInfo
    | LoadFileInfos
    | LoadFavoriteFolders

  /** The stores a write task calls, in the order it calls them. */
  function WriteTargets(op: WriteOp): seq<Db>
  {
    match op
    case SaveBookCoverpage(_) => [CoverDb]
    case DeleteCoverpage => [CoverDb]
    case DeleteBook => [MainDb, CoverDb]
    case _ => [MainDb]
  }

  /** The store a read task queries. */
  function ReadSource(op: ReadOp): Db
  {
    if op == LoadBookCoverpage then CoverDb else MainDb
  }

  /** What a queued task does when the worker runs it. */
  datatype Work =
    | OpenDatabase
    | CloseDatabase
    | ReopenDatabase
    | FlushDatabase(force: bool)
    | StoreWrite(write: WriteOp)
    | StoreRead(read: ReadOp, handler: HandlerId)
    | Sync(handler: HandlerId)

  /** A task; `id` is its object identity, which the flush marker compares. */
  datatype Task = Task(id: TaskId, work: Work)

  type Queue = seq<Entry<Task>>

  /** A domain call made on a store from inside a task body. */
  datatype Call = WriteCall(write: WriteOp) | ReadCall(read: ReadOp)

  /** One observable step of a task body. */
  datatype Effect =
    | Began(task: TaskId)
    | Opened(db: Db, dir: Dir, ok: bool)
    | Closed(db: Db)
    | Flushed(db: Db)
    | CachesCleared(db: Db)
    | Accessed(db: Db, call: Call, wasOpen: bool)
    | Delivered(handler: HandlerId, task: TaskId)

  /** What the surroundings supply when the worker runs one task: the clock,
      the database directory, and whether each store's `open` succeeds. */
  datatype Env = Env(now: Time, dir: Dir, mainOpens: bool, coverOpens: bool)

  /** The service: stores, `lastFlushTask`, `lastFlushTime`, the identity the
      next task will get, the queue, and the trace of effects so far. */
  datatype State = State(
    main: Store,
    cover: Store,
    lastFlushTask: Option<TaskId>,
    lastFlushTime: Time,
    nextId: TaskId,
    queue: Queue,
    trace: seq<Effect>)

  /** A freshly constructed service: both stores unopened, no flush task yet,
      `lastFlushTime` at Java's default of 0, nothing queued. */
  const Initial: State := State(Unopened, Unopened, None, 0, 0, [], [])

  /** Whether the given store is open. */
  function IsOpen(s: State, db: Db): bool
  {
    match db
    case MainDb => s.main.open
    case CoverDb => s.cover.open
  }

  predicate IsForcedFlush(t: Task)
  {
    t.work == FlushDatabase(true)
  }

  /** A non-forced flush task that is still the marker, i.e. may still sync. */
  function IsLiveFlush(marker: Option<TaskId>): Task -> bool
  {
    (t: Task) => t.work == FlushDatabase(false) && marker == Some(t.id)
  }

  /** Tasks created before the identity `n` was handed out. */
  function OlderThan(n: TaskId): Task -> bool
  {
    (t: Task) => t.id < n
  }

  /** Tasks created from the identity `n` on. */
  function FromId(n: TaskId): Task -> bool
  {
    (t: Task) => n <= t.id
  }

  /** The invariant every reachable state keeps: the queue is in release
      order, identities are fresh, at most one queued non-forced flush can
      still sync, and the two stores are open or closed together. */
  ghost predicate Valid(s: State)
  {
    && Sorted(s.queue)
    && (forall x :: x in s.queue ==> x.item.id < s.nextId)
    && (s.lastFlushTask.Some? ==> s.lastFlushTask.value < s.nextId)
    && Count(s.queue, IsLiveFlush(s.lastFlushTask)) <= 1
    && s.main.open == s.cover.open
  }

  /** The identities of the tasks that started, in the order they started. */
  function BeganIds(trace: seq<Effect>): seq<TaskId>
    decreases |trace|
  {
    if |trace| == 0 then []
    else (if trace[0].Began? then [trace[0].task] else []) + BeganIds(trace[1..])
  }

  /** `t1` is `t0` followed by effects of the same task (no task starts in between). */
  ghost predicate Extends(t0: seq<Effect>, t1: seq<Effect>)
  {
    && |t0| <= |t1|
    && t1[..|t0|] == t0
    && forall i :: |t0| <= i < |t1| ==> !t1[i].Began?
  }

  lemma {:induction false} BeganIdsAppend(a: seq<Effect>, b: seq<Effect>)
    ensures BeganIds(a + b) == BeganIds(a) + BeganIds(b)
    decreases |a|
  {
    if |a| == 0 {
      assert a + b == b;
    } else {
      var head: seq<TaskId> := if a[0].Began? then [a[0].task] else [];
      assert (a + b)[0] == a[0] && (a + b)[1..] == a[1..] + b;
      assert BeganIds(a + b) == head + BeganIds(a[1..] + b);
      BeganIdsAppend(a[1..], b);
      assert BeganIds(a) == head + BeganIds(a[1..]);
    }
  }

  lemma {:induction false} NoBeganIds(t: seq<Effect>)
    requires forall i :: 0 <= i < |t| ==> !t[i].Began?
    ensures BeganIds(t) == []
    decreases |t|
  {
    if |t| > 0 {
      NoBeganIds(t[1..]);
    }
  }

  /** Effects appended inside one task start no other task. */
  lemma ExtendsKeepsBeganIds(t0: seq<Effect>, t1: seq<Effect>)
    requires Extends(t0, t1)
    ensures BeganIds(t1) == BeganIds(t0)
  {
    var rest := t1[|t0|..];
    assert t1 == t0 + rest;
    forall i | 0 <= i < |rest| ensures !rest[i].Began? {
      assert rest[i] == t1[|t0| + i];
    }
    NoBeganIds(rest);
    BeganIdsAppend(t0, rest);
  }
}
