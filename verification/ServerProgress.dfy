/** Requests that nobody interrupts: the interleaved steps, run in a row, do what the operations do in one go. */
module ServerProgress {
  import opened Basics
  import opened Engines
  import opened StoreSpec
  import opened Server
  import Batch
  import Coherence
  import ListKeys
  import Lru
  import LruRecency
  import Readiness

  // ----- Listings ---------------------------------------------------------------------------

  /** Some steps of a listing in a row, with no other step in between. */
  function Steps(lib: Libraries, s: Store, t: Task, n: nat): (Store, Task)
    requires t.ListTask?
    ensures Steps(lib, s, t, n).1.ListTask?
    decreases n
  {
    if n == 0 then (s, t)
    else
      var (caches, phase) := Advance(lib, s, t);
      Steps(lib, s.(caches := caches), t.(phase := phase), n - 1)
  }

  /** Three steps in a row answer, and leave the caches, exactly as a listing in one go does. */
  lemma UninterruptedListing(lib: Libraries, s: Store, form: ListForm, key: ListKey, started: nat)
    ensures var (s', t') := Steps(lib, s, ListTask(form, key, Looking, started), 3);
            && s' == List(lib, s, form, key).0
            && t' == ListTask(form, key, Answered(List(lib, s, form, key).1), started)
  {
    var t0 := ListTask(form, key, Looking, started);
    var (c1, p1) := Advance(lib, s, t0);
    var s1, t1 := s.(caches := c1), t0.(phase := p1);
    var (c2, p2) := Advance(lib, s1, t1);
    var s2, t2 := s1.(caches := c2), t1.(phase := p2);
    var (c3, p3) := Advance(lib, s2, t2);
    assert Steps(lib, s, t0, 3) == Steps(lib, s1, t1, 2) == Steps(lib, s2, t2, 1)
        == (s2.(caches := c3), t2.(phase := p3));
  }

  function ContinueSteps(lib: Libraries, sys: System, id: nat, n: nat): System
    decreases n
  {
    if n == 0 then sys else ContinueSteps(lib, ContinueList(lib, sys, id), id, n - 1)
  }

  lemma {:induction false} ContinuingIsStepping(lib: Libraries, sys: System, id: nat, n: nat)
    requires id in sys.tasks && sys.tasks[id].ListTask?
    ensures var y := ContinueSteps(lib, sys, id, n);
            && id in y.tasks && (y.store, y.tasks[id]) == Steps(lib, sys.store, sys.tasks[id], n)
            && y.responses == sys.responses
    decreases n
  {
    if n > 0 {
      ContinuingIsStepping(lib, ContinueList(lib, sys, id), id, n - 1);
    }
  }

  /** Starting, stepping three times and finishing answers a listing under an id that is free. */
  lemma ListingIsAnswered(lib: Libraries, sys: System, id: nat, form: ListForm, key: ListKey)
    requires id !in sys.tasks
    ensures var y := EndList(ContinueSteps(lib, BeginList(sys, id, form, key), id, 3), id);
            && y.store == List(lib, sys.store, form, key).0
            && |y.responses| == |sys.responses| + 1
            && var r := y.responses[|sys.responses|];
               r.ListResponse? && r.form == form && r.key == key && r.result == List(lib, sys.store, form, key).1
  {
    ContinuingIsStepping(lib, BeginList(sys, id, form, key), id, 3);
    UninterruptedListing(lib, sys.store, form, key, |sys.past|);
  }

  /** However a listing was interrupted: with its cache poisoned, either critical section answers with that error and
      leaves the store as it is; otherwise the second one answers the computed listing, which its key then finds. */
  lemma CriticalSections(lib: Libraries, sys: System, id: nat)
    requires id in sys.tasks && sys.tasks[id].ListTask?
    requires sys.tasks[id].phase.Looking? || sys.tasks[id].phase.Inserting?
    ensures var t := sys.tasks[id];
            var y := EndList(ContinueList(lib, sys, id), id);
            && (sys.store.caches.Poisoned(t.form) ==>
                  && y.store == sys.store && |y.responses| == |sys.responses| + 1
                  && y.responses[|sys.responses|].ListResponse?
                  && y.responses[|sys.responses|].result == Err(ListPoliciesError("poisoned")))
            && (!sys.store.caches.Poisoned(t.form) && t.phase.Inserting? ==>
                  && Lru.Lookup(y.store.caches.Of(t.form), t.key) == Some(t.phase.value)
                  && |y.responses| == |sys.responses| + 1
                  && y.responses[|sys.responses|].ListResponse?
                  && y.responses[|sys.responses|].result == Ok(t.phase.value))
  {}

  /** A call served with an answer leaves that answer in the cache for its key. */
  lemma ServedListingKept(lib: Libraries, s: Store, form: ListForm, key: ListKey)
    requires List(lib, s, form, key).1.Ok?
    ensures var caches := Readiness.Serve(lib, s, Readiness.Answer(form, key)).0.caches;
            caches.Of(form) != [] && caches.Of(form)[0] == (key, List(lib, s, form, key).1.value)
  {
    LruRecency.ListingUsesCache(lib, s, form, if form.RawForm? then JsonForm else RawForm, key);
  }

  // ----- Batches ----------------------------------------------------------------------------

  /** The batch under this id is being evaluated over this snapshot, and has come this far. */
  predicate Evaluating(sys: System, id: nat, snapshot: Batch.Snapshot, requests: seq<Batch.AuthRequest>, done: nat) {
    && id in sys.tasks && sys.tasks[id].AuthorizeTask? && sys.tasks[id].snapshot == snapshot
    && sys.tasks[id].requests == requests && |sys.tasks[id].results| == done
  }

  function EvaluateSteps(lib: Libraries, limits: Batch.Limits, sys: System, id: nat, n: nat): System {
    if n == 0 then sys else ContinueBatch(lib, limits, EvaluateSteps(lib, limits, sys, id, n - 1), id)
  }

  lemma {:induction false} EvaluationProgresses(lib: Libraries, limits: Batch.Limits, sys: System, id: nat,
                                                snapshot: Batch.Snapshot, requests: seq<Batch.AuthRequest>, n: nat)
    requires Evaluating(sys, id, snapshot, requests, 0) && n <= |requests|
    ensures var y := EvaluateSteps(lib, limits, sys, id, n);
            Evaluating(y, id, snapshot, requests, n) && y.responses == sys.responses && y.store == sys.store
  {
    if n > 0 {
      EvaluationProgresses(lib, limits, sys, id, snapshot, requests, n - 1);
    }
  }

  /** A batch is taken exactly if it is within the limit; then one step per request and a last one answer it, and the
      store is not touched. */
  lemma BatchIsAnswered(lib: Libraries, limits: Batch.Limits, sys: System, id: nat, requests: seq<Batch.AuthRequest>)
    requires id !in sys.tasks
    ensures id in BeginBatch(lib, limits, sys, id, requests).tasks <==> |requests| <= limits.maxBatchSize
    ensures |requests| <= limits.maxBatchSize ==>
              var begun := BeginBatch(lib, limits, sys, id, requests);
              var y := EndBatch(EvaluateSteps(lib, limits, begun, id, |requests|), id);
              && y.store == sys.store && |y.responses| == |sys.responses| + 1
              && var r := y.responses[|sys.responses|];
                 r.BatchResponse? && r.requests == requests && |r.results| == |requests|
                 && r.version == lib.version(sys.store.active.engine)
  {
    if |requests| <= limits.maxBatchSize {
      var begun := BeginBatch(lib, limits, sys, id, requests);
      EvaluationProgresses(lib, limits, begun, id, Batch.TakeSnapshot(lib, sys.store), requests, |requests|);
    }
  }

  // ----- Uploads ----------------------------------------------------------------------------

  /** An uninterrupted upload with the right token is answered and installed exactly if its bundle can be prepared under
      the store's mode and applied. */
  lemma UploadIsAnswered(lib: Libraries, sys: System, id: nat, header: Option<string>,
                         b: ValidatedBundle, layout: Layout, now: nat)
    requires id !in sys.tasks && WriteLockFree(sys) && Readiness.CarriesToken(sys.store, header)
    ensures var prepared := Prepare(lib, b, None, None, sys.store.mode, layout, now);
            var y := EndUpload(ContinueUpload(lib, BeginUpload(sys, id, header), id, b, layout, now), id);
            && y.tasks == sys.tasks
            && (prepared.Err? ==> y.store == sys.store && y.responses == sys.responses)
            && (prepared.Ok? ==>
                  && y.store == ApplyPrepared(sys.store, prepared.value).0
                  && (ApplyPrepared(sys.store, prepared.value).1.Fail? ==> y.responses == sys.responses)
                  && (ApplyPrepared(sys.store, prepared.value).1.Pass? ==>
                        && |y.responses| == |sys.responses| + 1
                        && y.responses[|sys.responses|].UploadResponse?
                        && y.responses[|sys.responses|].metadata == MetadataOf(y.store)))
  {
    var begun := BeginUpload(sys, id, header);
    assert begun.tasks - {id} == sys.tasks;
    var prepared := Prepare(lib, b, None, None, sys.store.mode, layout, now);
    var y := ContinueUpload(lib, begun, id, b, layout, now);
    if prepared.Ok? {
      assert y.tasks - {id} == sys.tasks;
    }
  }

  /** Without the token an upload does not even start. */
  lemma UploadWithoutToken(sys: System, id: nat, header: Option<string>)
    requires !Readiness.CarriesToken(sys.store, header)
    ensures BeginUpload(sys, id, header) == Idle(sys)
  {}

  /** An update while nobody lists is the store's own step. */
  lemma WriteIsStep(lib: Libraries, sys: System, e: Event)
    requires WriteLockFree(sys) && !e.AnswerList? && !e.Poison?
    ensures WriteStep(lib, sys, e).store == Step(lib, sys.store, e).0
  {}
}
