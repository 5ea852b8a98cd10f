/** What a flush does, as seen from outside: the observable steps of the two
    flush orchestrators, and the outcomes the three domain stores report. */
module Events {
  import opened Wrappers

  /** The three domain stores: per-device traffic, per-connection flows, DNS. */
  datatype Domain = Traffic | Connection | Dns

  /** One observable step of a flush. `Flush(d)` is a call to `d::flush()`,
      `PersistAll` a call to `persist_all()`, `SyncBarrier` the filesystem
      sync (`storage::sync_barrier()` or the `sync` command). */
  datatype Event = StopCapture | Flush(domain: Domain) | PersistAll | SyncBarrier

  /** What each store's `flush()` returns during one call; the stores'
      internals are not part of this model. */
  datatype StoreOutcomes = StoreOutcomes(traffic: Result<(), string>,
                                         connection: Result<(), string>,
                                         dns: Result<(), string>)
  {
    function Of(d: Domain): Result<(), string> {
      match d
      case Traffic => traffic
      case Connection => connection
      case Dns => dns
    }
  }
}
