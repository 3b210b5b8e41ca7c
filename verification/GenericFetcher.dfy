/** `GenericFetcher` with one of the three store adapters. */
module GenericFetchers {
  import opened Basics
  import opened Engines
  import opened StoreSpec
  import opened PolicyStores
  import opened BundlePolling
  import opened GenericPolling

  class GenericFetcher {
    const store: PolicyStore
    const kind: SourceKind
    var etag: Option<string>
    var lastModified: Option<string>
    var hash: Option<Digest>

    ghost function Remembered(): Memory
      reads this
    {
      Memory(Validators(etag, lastModified), hash)
    }

    constructor (store: PolicyStore, kind: SourceKind)
      ensures this.store == store && this.kind == kind && Remembered() == FRESH
    {
      this.store, this.kind := store, kind;
      etag, lastModified, hash := None, None, None;
    }

    method ApplySuccessfulResponse(body: Text, now: nat) returns (v: Outcome)
      requires !kind.Bundle?
      modifies store
      ensures (store.State(), v) == Apply(store.lib, old(store.State()), kind, body, now)
    {
      if kind.Policies? {
        v := store.SetDsl(body, None, None, now);
      } else if kind.Labels? {
        v := store.SetLabels(body, None, None, now);
      } else {
        v := store.SetSchema(body, None, None, now);
      }
      if v.Pass? {
        store.MarkRemoteSourceLoaded(kind);
      }
    }

    method CheckAndUpdate(head: Validators -> HeadReply, get: GetReply, now: nat) returns (v: Outcome)
      requires !kind.Bundle?
      modifies this, store
      ensures (Remembered(), store.State(), v) ==
              PollText(store.lib, kind, old(Remembered()), old(store.State()), head(old(Remembered()).validators), get,
                       now)
    {
      var answer := head(Validators(etag, lastModified));
      if answer.HeadUnreachable? {
        return Fail(EvaluationError("fetch"));
      }
      if answer.HeadNotModified? {
        return Pass;
      }
      if answer.HeadOk? {
        etag, lastModified := answer.validators.etag, answer.validators.lastModified;
      }
      if !get.GetText? {
        return Fail(EvaluationError("fetch"));
      }
      var newHash := store.lib.digest(get.text);
      if hash == Some(newHash) {
        return Pass;
      }
      v := ApplySuccessfulResponse(get.text, now);
      if v.Pass? {
        hash := Some(newHash);
      }
    }
  }
}
