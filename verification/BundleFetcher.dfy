/** `BundleFetcher`: the poller as an object over the shared store. */
module BundleFetchers {
  import opened Basics
  import opened Engines
  import opened StoreSpec
  import opened PolicyStores
  import opened BoundedBody
  import opened BundlePolling
  import Readiness

  class BundleFetcher {
    const store: PolicyStore
    const settings: Settings
    var etag: Option<string>
    var lastModified: Option<string>
    var archiveSha256: Option<string>

    ghost function Remembered(): Memory
      reads this
    {
      Memory(Validators(etag, lastModified), archiveSha256)
    }

    constructor (store: PolicyStore, settings: Settings)
      ensures this.store == store && this.settings == settings && Remembered() == FRESH
    {
      this.store, this.settings := store, settings;
      etag, lastModified, archiveSha256 := None, None, None;
    }

    /** The configuration `spawn` does before the first poll. */
    method Start()
      modifies store
      ensures store.State() == ConfigureSource(old(store.State()), Bundle, settings.url, settings.every)
    {
      store.ConfigureRemoteSource(Bundle, settings.url, settings.every);
    }

    /** The origin answers a request carrying the remembered validators. */
    method CheckAndUpdate(origin: Validators -> Reply, now: nat) returns (v: Outcome)
      modifies this, store
      ensures (Remembered(), store.State(), v) ==
              Poll(store.lib, settings, old(Remembered()), old(store.State()), old(store.mode),
                   origin(old(Remembered()).validators), now)
    {
      var reply := origin(Validators(etag, lastModified));
      match reply
      case Unreachable => return Fail(InvalidBundle("fetch"));
      case NotModified => return Pass;
      case Refused(_) => return Fail(InvalidBundle("status"));
      case Body(contentLength, validators, chunks) =>
        var body := ReadBounded(settings.limit, contentLength, chunks);
        if body.Err? {
          return Fail(ReadError(body.error));
        }
        var sha := HexEncode(store.lib.sha256(body.value));
        if archiveSha256 == Some(sha) {
          etag, lastModified := validators.etag, validators.lastModified;
          return Pass;
        }
        v := Install(body.value, now);
        if v.Fail? {
          return;
        }
        etag, lastModified, archiveSha256 := validators.etag, validators.lastModified, Some(sha);
    }

    /** Prepare outside the write lock, then apply and mark inside it. */
    method Install(bytes: Bytes, now: nat) returns (v: Outcome)
      modifies store
      ensures var prepared := PrepareArchive(store.lib, settings, bytes, old(store.mode), now);
              (store.State(), v) ==
              if prepared.Err? then (old(store.State()), Fail(prepared.error))
              else Readiness.ThenMark(ApplyPrepared(old(store.State()), prepared.value), Bundle)
    {
      var prepared := PrepareArchive(store.lib, settings, bytes, store.mode, now);
      if prepared.Err? {
        return Fail(prepared.error);
      }
      v := store.ApplyPreparedBundle(prepared.value);
      if v.Pass? {
        store.MarkRemoteSourceLoaded(Bundle);
      }
    }
  }
}
