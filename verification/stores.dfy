/**
 The two storage back ends as the database service sees them: opaque handles
 that can be opened, closed, flushed and have their caches cleared. Queries,
 schema and cover blobs are not modelled; reads and writes are recorded as
 events by the service instead.
 */
module Stores {

  /** Which store: the main metadata database (MainDB) or the cover-image database (CoverDB). */
  datatype Db = MainDb | CoverDb

  /** Abstract handle of one store: whether it is open, and how many durability
      syncs and cache clears it has performed so far. */
  datatype Store = Store(open: bool, flushCount: nat, clearCount: nat)

  /** A store that has never been opened. */
  const Unopened: Store := Store(false, 0, 0)

  /** `open(dir)`: whether it succeeds is decided by the environment and passed in. */
  function OpenStore(st: Store, ok: bool): Store
  {
    st.(open := ok)
  }

  /** `close()`. */
  function CloseStore(st: Store): Store
  {
    st.(open := false)
  }

  /** `flush()`: one durability sync. */
  function FlushStore(st: Store): Store
  {
    st.(flushCount := st.flushCount + 1)
  }

  /** `clearCaches()`. */
  function ClearStoreCaches(st: Store): Store
  {
    st.(clearCount := st.clearCount + 1)
  }
}
