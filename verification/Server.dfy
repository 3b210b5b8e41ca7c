/**
 * Requests as interleaved steps on the shared store.
 *
 * A listing holds the store's read lock from start to answer, but takes its cache mutex
 * twice, and other listings run between the two.  An authorization holds the read lock only
 * while it takes its snapshot, then evaluates item by item.  A bundle upload reads the store,
 * prepares outside any lock and applies under the write lock.  Every other update is one
 * step under the write lock.  A step that is not enabled leaves everything as it is.
 */
module Server {
  import opened Basics
  import opened Engines
  import opened StoreSpec
  import opened Coherence
  import opened ListingCaches
  import opened Batch
  import opened Readiness
  import Lru
  import ListKeys

  datatype Phase =
    | Looking
    | Computing
    | Inserting(value: Listing)
    | Answered(result: Result<Listing, ServiceError>)

  datatype Task =
    | ListTask(form: ListForm, key: ListKey, phase: Phase, started: nat)
    | AuthorizeTask(snapshot: Snapshot, started: nat, requests: seq<AuthRequest>, results: seq<IndexedResult<Decision>>)
    | UploadTask(header: Option<string>, mode: SchemaMode, prepared: Option<PreparedBundle>, started: nat)

  /** `PoliciesMetadata`: what an upload answers with. */
  datatype PoliciesMetadata = PoliciesMetadata(
    allowUpload: bool, mode: SchemaMode,
    policies: Metadata, labels: Metadata, schema: Metadata, bundle: Option<BundleMetadata>)

  /** What was answered, with the positions in the history at which the request started and finished; `at` is the
      store the answer is about. */
  datatype Response =
    | ListResponse(form: ListForm, key: ListKey, result: Result<Listing, ServiceError>, started: nat, at: nat,
                   finished: nat)
    | BatchResponse(version: string, requests: seq<AuthRequest>, results: seq<IndexedResult<Decision>>, started: nat,
                    at: nat, finished: nat)
    | UploadResponse(header: Option<string>, metadata: PoliciesMetadata, started: nat, at: nat, finished: nat)

  /** `past` records the store after every step, the current one last. */
  datatype System = System(store: Store, tasks: map<nat, Task>, past: seq<Store>, responses: seq<Response>)

  datatype Action =
    | StartList(id: nat, form: ListForm, user: string, groups: seq<string>, namespaces: seq<string>)
    | AdvanceList(id: nat)
    | FinishList(id: nat)
    | StartAuthorize(id: nat, requests: seq<AuthRequest>)
    | EvaluateNext(id: nat)
    | FinishAuthorize(id: nat)
    | StartUpload(id: nat, header: Option<string>)
    | PrepareUpload(id: nat, b: ValidatedBundle, layout: Layout, now: nat)
    | ApplyUpload(id: nat)
    | Write(e: Event)
    | Panic(form: ListForm)

  function MetadataOf(s: Store): PoliciesMetadata {
    PoliciesMetadata(s.allowUpload, s.mode, s.active.policies, s.active.labels, s.active.schema, s.active.bundle)
  }

  /** `PreparedBundle::metadata`, built outside the lock and completed under it. */
  function PreparedMetadata(p: PreparedBundle, allowUpload: bool, mode: SchemaMode): PoliciesMetadata {
    PoliciesMetadata(allowUpload, mode, p.policies, p.labels, p.schema, p.bundle)
  }

  /** No listing holds the read lock. */
  predicate WriteLockFree(sys: System) {
    forall id | id in sys.tasks :: !sys.tasks[id].ListTask?
  }

  function Advance(lib: Libraries, s: Store, t: Task): (Caches, Phase)
    requires t.ListTask?
  {
    var poisoned := Answered(Err(ListPoliciesError("poisoned")));
    match t.phase
    case Looking =>
      if s.caches.Poisoned(t.form) then (s.caches, poisoned)
      else
        var hit := Lru.Lookup(s.caches.Of(t.form), t.key);
        (s.caches.With(t.form, Lru.Touch(s.caches.Of(t.form), t.key)),
         if hit.Some? then Answered(Ok(hit.value)) else Computing)
    case Computing =>
      var computed := lib.list(t.form, s.active.engine, t.key);
      (s.caches, if computed.Ok? then Inserting(computed.value) else Answered(computed))
    case Inserting(value) =>
      if s.caches.Poisoned(t.form) then (s.caches, poisoned)
      else (s.caches.With(t.form, Lru.Put(s.caches.Of(t.form), t.key, value, CACHE_LIMIT)), Answered(Ok(value)))
    case Answered(_) => (s.caches, t.phase)
  }

  function Become(sys: System, store: Store, tasks: map<nat, Task>, responses: seq<Response>): System {
    System(store, tasks, sys.past + [store], sys.responses + responses)
  }

  /** A step that is not enabled leaves everything as it is. */
  function Idle(sys: System): System {
    Become(sys, sys.store, sys.tasks, [])
  }

  function ListAnswer(t: Task, n: nat): Response
    requires t.ListTask? && t.phase.Answered?
  {
    ListResponse(t.form, t.key, t.phase.result, t.started, n, n)
  }

  function BatchAnswer(t: Task, n: nat): Response
    requires t.AuthorizeTask?
  {
    BatchResponse(t.snapshot.version, t.requests, t.results, t.started, t.started, n)
  }

  function BeginList(sys: System, id: nat, form: ListForm, key: ListKey): System {
    if id in sys.tasks then Idle(sys)
    else Become(sys, sys.store, sys.tasks[id := ListTask(form, key, Looking, |sys.past|)], [])
  }

  function ContinueList(lib: Libraries, sys: System, id: nat): System {
    if id !in sys.tasks || !sys.tasks[id].ListTask? then Idle(sys)
    else
      var (caches, phase) := Advance(lib, sys.store, sys.tasks[id]);
      Become(sys, sys.store.(caches := caches), sys.tasks[id := sys.tasks[id].(phase := phase)], [])
  }

  function EndList(sys: System, id: nat): System {
    if id !in sys.tasks || !sys.tasks[id].ListTask? || !sys.tasks[id].phase.Answered? then Idle(sys)
    else
      var t := sys.tasks[id];
      Become(sys, sys.store, sys.tasks - {id}, [ListAnswer(t, |sys.past|)])
  }

  function BeginBatch(lib: Libraries, limits: Limits, sys: System, id: nat, requests: seq<AuthRequest>): System {
    if id in sys.tasks || |requests| > limits.maxBatchSize then Idle(sys)
    else
      var t := AuthorizeTask(TakeSnapshot(lib, sys.store), |sys.past|, requests, []);
      Become(sys, sys.store, sys.tasks[id := t], [])
  }

  function ContinueBatch(lib: Libraries, limits: Limits, sys: System, id: nat): System {
    if id !in sys.tasks || !sys.tasks[id].AuthorizeTask? || |sys.tasks[id].results| >= |sys.tasks[id].requests|
    then Idle(sys)
    else
      var t := sys.tasks[id];
      var i := |t.results|;
      var result := EvalOne(lib, t.snapshot, limits, i, t.requests[i], Whole);
      Become(sys, sys.store, sys.tasks[id := t.(results := t.results + [result])], [])
  }

  function EndBatch(sys: System, id: nat): System {
    if id !in sys.tasks || !sys.tasks[id].AuthorizeTask? || |sys.tasks[id].results| != |sys.tasks[id].requests|
    then Idle(sys)
    else
      var t := sys.tasks[id];
      Become(sys, sys.store, sys.tasks - {id}, [BatchAnswer(t, |sys.past|)])
  }

  function BeginUpload(sys: System, id: nat, header: Option<string>): System {
    if id in sys.tasks || UploadVerdict(sys.store, header).Fail? then Idle(sys)
    else Become(sys, sys.store, sys.tasks[id := UploadTask(header, sys.store.mode, None, |sys.past|)], [])
  }

  function ContinueUpload(lib: Libraries, sys: System, id: nat, b: ValidatedBundle, layout: Layout, now: nat): System {
    if id !in sys.tasks || !sys.tasks[id].UploadTask? then Idle(sys)
    else
      match Prepare(lib, b, None, None, sys.tasks[id].mode, layout, now)
      case Ok(prepared) => Become(sys, sys.store, sys.tasks[id := sys.tasks[id].(prepared := Some(prepared))], [])
      case Err(_) => Become(sys, sys.store, sys.tasks - {id}, [])
  }

  /** Under the write lock: the token is checked again, and only an applied bundle is answered. */
  function EndUpload(sys: System, id: nat): System {
    if id !in sys.tasks || !sys.tasks[id].UploadTask? || sys.tasks[id].prepared.None? || !WriteLockFree(sys)
    then Idle(sys)
    else
      var t := sys.tasks[id];
      var (applied, outcome) := ApplyPrepared(sys.store, t.prepared.value);
      if UploadVerdict(sys.store, t.header).Fail? then Become(sys, sys.store, sys.tasks - {id}, [])
      else if outcome.Fail? then Become(sys, applied, sys.tasks - {id}, [])
      else Become(sys, applied, sys.tasks - {id}, [UploadAnswer(sys, t)])
  }

  function UploadAnswer(sys: System, t: Task): Response
    requires t.UploadTask? && t.prepared.Some?
  {
    UploadResponse(t.header, PreparedMetadata(t.prepared.value, sys.store.allowUpload, sys.store.mode), t.started,
                   |sys.past|, |sys.past|)
  }

  function WriteStep(lib: Libraries, sys: System, e: Event): System {
    if !WriteLockFree(sys) || e.AnswerList? || e.Poison? then Idle(sys)
    else Become(sys, Step(lib, sys.store, e).0, sys.tasks, [])
  }

  function PanicStep(lib: Libraries, sys: System, form: ListForm): System {
    Become(sys, Step(lib, sys.store, Poison(form)).0, sys.tasks, [])
  }

  function Act(lib: Libraries, limits: Limits, sys: System, a: Action): System {
    match a
    case StartList(id, form, user, groups, namespaces) =>
      BeginList(sys, id, form, ListKeys.NewKey(user, groups, namespaces))
    case AdvanceList(id) => ContinueList(lib, sys, id)
    case FinishList(id) => EndList(sys, id)
    case StartAuthorize(id, requests) => BeginBatch(lib, limits, sys, id, requests)
    case EvaluateNext(id) => ContinueBatch(lib, limits, sys, id)
    case FinishAuthorize(id) => EndBatch(sys, id)
    case StartUpload(id, header) => BeginUpload(sys, id, header)
    case PrepareUpload(id, b, layout, now) => ContinueUpload(lib, sys, id, b, layout, now)
    case ApplyUpload(id) => EndUpload(sys, id)
    case Write(e) => WriteStep(lib, sys, e)
    case Panic(form) => PanicStep(lib, sys, form)
  }

  /** The view of a decision used here keeps all of it. */
  const Whole := (d: Decision) => d

  function Start(s: Store): System {
    System(s, map[], [s], [])
  }

  function ActAll(lib: Libraries, limits: Limits, sys: System, actions: seq<Action>): System {
    if actions == [] then sys
    else Act(lib, limits, ActAll(lib, limits, sys, actions[..|actions| - 1]), actions[|actions| - 1])
  }

  // ----- Invariant --------------------------------------------------------------------------

  ghost predicate SoundAction(lib: Libraries, a: Action) {
    && (a.Write? ==> SoundEvent(lib, a.e))
    && (a.PrepareUpload? ==> SoundBundle(lib, a.b))
  }

  /** The answer is the engine's own listing, error or not, unless the cache mutex of its form is poisoned and it says
      so; with the raw mutex poisoned, JSON answers carry no such claim. */
  ghost predicate RightListing(lib: Libraries, s: Store, form: ListForm, key: ListKey,
                               result: Result<Listing, ServiceError>)
  {
    match result
    case Ok(_) => form.RawForm? || !s.caches.rawPoisoned ==> result == lib.list(form, s.active.engine, key)
    case Err(_) => s.caches.Poisoned(form) || result == lib.list(form, s.active.engine, key)
  }

  ghost predicate TaskSound(lib: Libraries, limits: Limits, sys: System, t: Task) {
    && t.started < |sys.past|
    && match t
       case ListTask(form, key, phase, _) =>
         (match phase
          case Inserting(value) => lib.list(form, sys.store.active.engine, key) == Ok(value)
          case Answered(result) => RightListing(lib, sys.store, form, key, result)
          case _ => true)
       case AuthorizeTask(snapshot, started, requests, results) =>
         && snapshot == TakeSnapshot(lib, sys.past[started])
         && |results| <= |requests| <= limits.maxBatchSize
         && forall i | 0 <= i < |results| :: results[i] == EvalOne(lib, snapshot, limits, i, requests[i], Whole)
       case UploadTask(header, mode, prepared, _) =>
         prepared.Some? ==>
           && Coherent(lib, prepared.value)
           && (prepared.value.schema.content != "" ==> prepared.value.status == SchemaBacked)
  }

  /** A response is right about one store the system went through between its start and its finish. */
  ghost predicate Justified(lib: Libraries, limits: Limits, sys: System, r: Response) {
    && r.started <= r.at <= r.finished < |sys.past|
    && match r
       case ListResponse(form, key, result, _, at, _) => RightListing(lib, sys.past[at], form, key, result)
       case BatchResponse(version, requests, results, _, at, _) =>
         && |requests| <= limits.maxBatchSize
         && version == lib.version(sys.past[at].active.engine)
         && BatchOf(lib, TakeSnapshot(lib, sys.past[at]), limits, requests, Whole, results)
       case UploadResponse(header, metadata, started, at, _) =>
         && started < at && UploadVerdict(sys.past[at - 1], header).Pass?
         && metadata == MetadataOf(sys.past[at])
         && (sys.past[at].mode.Strict? ==>
               sys.past[at].active.schema.content != "" && sys.past[at].active.status == SchemaBacked)
  }

  ghost predicate SystemSound(lib: Libraries, limits: Limits, sys: System) {
    && sys.past != [] && sys.past[|sys.past| - 1] == sys.store
    && Coherent(lib, sys.store.active) && CachesSound(lib, sys.store.active.engine, sys.store.caches)
    && (forall id | id in sys.tasks :: TaskSound(lib, limits, sys, sys.tasks[id]))
    && (forall r | r in sys.responses :: Justified(lib, limits, sys, r))
  }

  // ----- Preservation -----------------------------------------------------------------------

  /** A mutex stays poisoned once it is. */
  predicate Later(s: Store, s': Store) {
    (s.caches.rawPoisoned ==> s'.caches.rawPoisoned) && (s.caches.jsonPoisoned ==> s'.caches.jsonPoisoned)
  }

  lemma TaskFrame(lib: Libraries, limits: Limits, sys: System, sys': System, t: Task)
    requires TaskSound(lib, limits, sys, t)
    requires sys.past <= sys'.past && Later(sys.store, sys'.store)
    requires t.ListTask? ==> sys.store.active.engine == sys'.store.active.engine
    ensures TaskSound(lib, limits, sys', t)
  {}

  lemma ResponseFrame(lib: Libraries, limits: Limits, sys: System, sys': System, r: Response)
    requires Justified(lib, limits, sys, r)
    requires sys.past <= sys'.past
    ensures Justified(lib, limits, sys', r)
  {}

  lemma BecomeSound(lib: Libraries, limits: Limits, sys: System, store: Store, tasks: map<nat, Task>,
                    responses: seq<Response>)
    requires SystemSound(lib, limits, sys)
    requires Coherent(lib, store.active) && CachesSound(lib, store.active.engine, store.caches)
    requires Later(sys.store, store)
    requires store.active.engine == sys.store.active.engine || WriteLockFree(sys)
    requires forall id | id in tasks ::
      || (id in sys.tasks && tasks[id] == sys.tasks[id])
      || TaskSound(lib, limits, Become(sys, store, tasks, responses), tasks[id])
    requires forall r | r in responses :: Justified(lib, limits, Become(sys, store, tasks, responses), r)
    ensures SystemSound(lib, limits, Become(sys, store, tasks, responses))
  {
    var sys' := Become(sys, store, tasks, responses);
    forall id | id in tasks ensures TaskSound(lib, limits, sys', tasks[id]) {
      if id in sys.tasks && tasks[id] == sys.tasks[id] {
        TaskFrame(lib, limits, sys, sys', tasks[id]);
      }
    }
    forall r | r in sys'.responses ensures Justified(lib, limits, sys', r) {
      if r in sys.responses {
        ResponseFrame(lib, limits, sys, sys', r);
      }
    }
  }

  /** Each critical section of a listing keeps the caches sound. */
  lemma AdvanceCachesSound(lib: Libraries, limits: Limits, sys: System, t: Task)
    requires SystemSound(lib, limits, sys) && t.ListTask? && TaskSound(lib, limits, sys, t)
    ensures var caches := Advance(lib, sys.store, t).0;
            CachesSound(lib, sys.store.active.engine, caches) && Later(sys.store, sys.store.(caches := caches))
  {
    TouchSound(lib, sys.store.active.engine, sys.store.caches, t.form, t.key);
    if t.phase.Inserting? {
      PutSound(lib, sys.store.active.engine, sys.store.caches, t.form, t.key, t.phase.value);
    }
  }

  /** And what the listing carries on with, to the gap or to the answer, is right for the engine it runs on. */
  lemma AdvanceTaskSound(lib: Libraries, limits: Limits, sys: System, t: Task, sys': System)
    requires SystemSound(lib, limits, sys) && t.ListTask? && TaskSound(lib, limits, sys, t)
    requires sys'.store == sys.store.(caches := Advance(lib, sys.store, t).0) && |sys.past| <= |sys'.past|
    ensures TaskSound(lib, limits, sys', t.(phase := Advance(lib, sys.store, t).1))
  {
    Lru.LookupFinds(sys.store.caches.Of(t.form), t.key);
  }

  lemma IdleSound(lib: Libraries, limits: Limits, sys: System)
    requires SystemSound(lib, limits, sys)
    ensures SystemSound(lib, limits, Idle(sys))
  {}

  lemma BeginListSound(lib: Libraries, limits: Limits, sys: System, id: nat, form: ListForm, key: ListKey)
    requires SystemSound(lib, limits, sys)
    ensures SystemSound(lib, limits, BeginList(sys, id, form, key))
  {
    if id in sys.tasks {
      IdleSound(lib, limits, sys);
    } else {
      BecomeSound(lib, limits, sys, sys.store, sys.tasks[id := ListTask(form, key, Looking, |sys.past|)], []);
    }
  }

  lemma ContinueListSound(lib: Libraries, limits: Limits, sys: System, id: nat)
    requires SystemSound(lib, limits, sys)
    ensures SystemSound(lib, limits, ContinueList(lib, sys, id))
  {
    if id !in sys.tasks || !sys.tasks[id].ListTask? {
      IdleSound(lib, limits, sys);
    } else {
      AdvanceCachesSound(lib, limits, sys, sys.tasks[id]);
      var (caches, phase) := Advance(lib, sys.store, sys.tasks[id]);
      var tasks := sys.tasks[id := sys.tasks[id].(phase := phase)];
      AdvanceTaskSound(lib, limits, sys, sys.tasks[id], Become(sys, sys.store.(caches := caches), tasks, []));
      BecomeSound(lib, limits, sys, sys.store.(caches := caches), tasks, []);
    }
  }

  lemma EndListSound(lib: Libraries, limits: Limits, sys: System, id: nat)
    requires SystemSound(lib, limits, sys)
    ensures SystemSound(lib, limits, EndList(sys, id))
  {
    if id !in sys.tasks || !sys.tasks[id].ListTask? || !sys.tasks[id].phase.Answered? {
      IdleSound(lib, limits, sys);
    } else {
      var t := sys.tasks[id];
      assert TaskSound(lib, limits, sys, t);
      BecomeSound(lib, limits, sys, sys.store, sys.tasks - {id}, [ListAnswer(t, |sys.past|)]);
    }
  }

  lemma BeginBatchSound(lib: Libraries, limits: Limits, sys: System, id: nat, requests: seq<AuthRequest>)
    requires SystemSound(lib, limits, sys)
    ensures SystemSound(lib, limits, BeginBatch(lib, limits, sys, id, requests))
  {
    if id in sys.tasks || |requests| > limits.maxBatchSize {
      IdleSound(lib, limits, sys);
    } else {
      BecomeSound(lib, limits, sys, sys.store,
                  sys.tasks[id := AuthorizeTask(TakeSnapshot(lib, sys.store), |sys.past|, requests, [])], []);
    }
  }

  lemma ContinueBatchSound(lib: Libraries, limits: Limits, sys: System, id: nat)
    requires SystemSound(lib, limits, sys)
    ensures SystemSound(lib, limits, ContinueBatch(lib, limits, sys, id))
  {
    if id !in sys.tasks || !sys.tasks[id].AuthorizeTask? || |sys.tasks[id].results| >= |sys.tasks[id].requests| {
      IdleSound(lib, limits, sys);
    } else {
      var t := sys.tasks[id];
      assert TaskSound(lib, limits, sys, t);
      var i := |t.results|;
      var t' := t.(results := t.results + [EvalOne(lib, t.snapshot, limits, i, t.requests[i], Whole)]);
      BecomeSound(lib, limits, sys, sys.store, sys.tasks[id := t'], []);
    }
  }

  lemma EndBatchSound(lib: Libraries, limits: Limits, sys: System, id: nat)
    requires SystemSound(lib, limits, sys)
    ensures SystemSound(lib, limits, EndBatch(sys, id))
  {
    if id !in sys.tasks || !sys.tasks[id].AuthorizeTask? || |sys.tasks[id].results| != |sys.tasks[id].requests| {
      IdleSound(lib, limits, sys);
    } else {
      var t := sys.tasks[id];
      assert TaskSound(lib, limits, sys, t);
      BecomeSound(lib, limits, sys, sys.store, sys.tasks - {id}, [BatchAnswer(t, |sys.past|)]);
    }
  }

  lemma PreparedSound(lib: Libraries, b: ValidatedBundle, mode: SchemaMode, layout: Layout, now: nat)
    requires SoundBundle(lib, b) && Prepare(lib, b, None, None, mode, layout, now).Ok?
    ensures var p := Prepare(lib, b, None, None, mode, layout, now).value;
            Coherent(lib, p) && (p.schema.content != "" ==> p.status == SchemaBacked)
  {}

  lemma BeginUploadSound(lib: Libraries, limits: Limits, sys: System, id: nat, header: Option<string>)
    requires SystemSound(lib, limits, sys)
    ensures SystemSound(lib, limits, BeginUpload(sys, id, header))
  {
    if id in sys.tasks || UploadVerdict(sys.store, header).Fail? {
      IdleSound(lib, limits, sys);
    } else {
      BecomeSound(lib, limits, sys, sys.store, sys.tasks[id := UploadTask(header, sys.store.mode, None, |sys.past|)],
                  []);
    }
  }

  lemma ContinueUploadSound(lib: Libraries, limits: Limits, sys: System, id: nat, b: ValidatedBundle, layout: Layout,
                            now: nat)
    requires SystemSound(lib, limits, sys) && SoundBundle(lib, b)
    ensures SystemSound(lib, limits, ContinueUpload(lib, sys, id, b, layout, now))
  {
    if id !in sys.tasks || !sys.tasks[id].UploadTask? {
      IdleSound(lib, limits, sys);
    } else {
      var prepared := Prepare(lib, b, None, None, sys.tasks[id].mode, layout, now);
      if prepared.Ok? {
        PreparedSound(lib, b, sys.tasks[id].mode, layout, now);
        BecomeSound(lib, limits, sys, sys.store, sys.tasks[id := sys.tasks[id].(prepared := Some(prepared.value))], []);
      } else {
        BecomeSound(lib, limits, sys, sys.store, sys.tasks - {id}, []);
      }
    }
  }

  /** Installing what was prepared keeps the invariants of the content, whatever the store held before. */
  lemma ApplySound(lib: Libraries, limits: Limits, sys: System, t: Task)
    requires SystemSound(lib, limits, sys) && TaskSound(lib, limits, sys, t) && t.UploadTask? && t.prepared.Some?
    ensures var applied := ApplyPrepared(sys.store, t.prepared.value).0;
            && Coherent(lib, applied.active) && CachesSound(lib, applied.active.engine, applied.caches)
            && Later(sys.store, applied)
  {}

  /** The answer describes exactly the store that the installation produced. */
  lemma UploadAnswerRight(lib: Libraries, limits: Limits, sys: System, t: Task, sys': System)
    requires sys.past != [] && sys.past[|sys.past| - 1] == sys.store
    requires TaskSound(lib, limits, sys, t) && t.UploadTask? && t.prepared.Some?
    requires UploadVerdict(sys.store, t.header).Pass?
    requires ApplyPrepared(sys.store, t.prepared.value).1.Pass?
    requires sys'.past == sys.past + [ApplyPrepared(sys.store, t.prepared.value).0]
    ensures Justified(lib, limits, sys', UploadAnswer(sys, t))
  {}

  lemma InstalledUploadSound(lib: Libraries, limits: Limits, sys: System, id: nat)
    requires SystemSound(lib, limits, sys) && id in sys.tasks && sys.tasks[id].UploadTask?
    requires sys.tasks[id].prepared.Some? && WriteLockFree(sys)
    requires UploadVerdict(sys.store, sys.tasks[id].header).Pass?
    ensures SystemSound(lib, limits, EndUpload(sys, id))
  {
    var t := sys.tasks[id];
    assert TaskSound(lib, limits, sys, t);
    ApplySound(lib, limits, sys, t);
    var (applied, outcome) := ApplyPrepared(sys.store, t.prepared.value);
    if outcome.Fail? {
      BecomeSound(lib, limits, sys, applied, sys.tasks - {id}, []);
    } else {
      UploadAnswerRight(lib, limits, sys, t, Become(sys, applied, sys.tasks - {id}, [UploadAnswer(sys, t)]));
      BecomeSound(lib, limits, sys, applied, sys.tasks - {id}, [UploadAnswer(sys, t)]);
    }
  }

  lemma EndUploadSound(lib: Libraries, limits: Limits, sys: System, id: nat)
    requires SystemSound(lib, limits, sys)
    ensures SystemSound(lib, limits, EndUpload(sys, id))
  {
    if id !in sys.tasks || !sys.tasks[id].UploadTask? || sys.tasks[id].prepared.None? || !WriteLockFree(sys) {
      IdleSound(lib, limits, sys);
    } else if UploadVerdict(sys.store, sys.tasks[id].header).Fail? {
      BecomeSound(lib, limits, sys, sys.store, sys.tasks - {id}, []);
    } else {
      InstalledUploadSound(lib, limits, sys, id);
    }
  }

  lemma StepSystemSound(lib: Libraries, limits: Limits, sys: System, e: Event)
    requires EmptyTextIsNoDocument(lib) && ListsByPolicyText(lib)
    requires SystemSound(lib, limits, sys) && SoundEvent(lib, e) && (WriteLockFree(sys) || e.Poison?)
    ensures SystemSound(lib, limits, Become(sys, Step(lib, sys.store, e).0, sys.tasks, []))
  {
    StepCoherent(lib, sys.store, e);
    StepCachesSound(lib, sys.store, e);
    PoisonOnlyGrows(lib, sys.store, e);
    BecomeSound(lib, limits, sys, Step(lib, sys.store, e).0, sys.tasks, []);
  }

  lemma WriteStepSound(lib: Libraries, limits: Limits, sys: System, e: Event)
    requires EmptyTextIsNoDocument(lib) && ListsByPolicyText(lib)
    requires SystemSound(lib, limits, sys) && SoundEvent(lib, e)
    ensures SystemSound(lib, limits, WriteStep(lib, sys, e))
  {
    if !WriteLockFree(sys) || e.AnswerList? || e.Poison? {
      IdleSound(lib, limits, sys);
    } else {
      StepSystemSound(lib, limits, sys, e);
    }
  }

  lemma PoisonOnlyGrows(lib: Libraries, s: Store, e: Event)
    ensures Later(s, Step(lib, s, e).0)
  {}

  lemma ListingActSound(lib: Libraries, limits: Limits, sys: System, a: Action)
    requires SystemSound(lib, limits, sys) && (a.StartList? || a.AdvanceList? || a.FinishList?)
    ensures SystemSound(lib, limits, Act(lib, limits, sys, a))
  {
    match a
    case StartList(id, form, user, groups, namespaces) =>
      BeginListSound(lib, limits, sys, id, form, ListKeys.NewKey(user, groups, namespaces));
    case AdvanceList(id) => ContinueListSound(lib, limits, sys, id);
    case FinishList(id) => EndListSound(lib, limits, sys, id);
  }

  lemma BatchActSound(lib: Libraries, limits: Limits, sys: System, a: Action)
    requires SystemSound(lib, limits, sys) && (a.StartAuthorize? || a.EvaluateNext? || a.FinishAuthorize?)
    ensures SystemSound(lib, limits, Act(lib, limits, sys, a))
  {
    match a
    case StartAuthorize(id, requests) => BeginBatchSound(lib, limits, sys, id, requests);
    case EvaluateNext(id) => ContinueBatchSound(lib, limits, sys, id);
    case FinishAuthorize(id) => EndBatchSound(lib, limits, sys, id);
  }

  lemma ActSound(lib: Libraries, limits: Limits, sys: System, a: Action)
    requires EmptyTextIsNoDocument(lib) && ListsByPolicyText(lib)
    requires SystemSound(lib, limits, sys) && SoundAction(lib, a)
    ensures SystemSound(lib, limits, Act(lib, limits, sys, a))
  {
    if a.StartList? || a.AdvanceList? || a.FinishList? {
      ListingActSound(lib, limits, sys, a);
    } else if a.StartAuthorize? || a.EvaluateNext? || a.FinishAuthorize? {
      BatchActSound(lib, limits, sys, a);
    } else {
      match a
      case StartUpload(id, header) => BeginUploadSound(lib, limits, sys, id, header);
      case PrepareUpload(id, b, layout, now) => ContinueUploadSound(lib, limits, sys, id, b, layout, now);
      case ApplyUpload(id) => EndUploadSound(lib, limits, sys, id);
      case Write(e) => WriteStepSound(lib, limits, sys, e);
      case Panic(form) => StepSystemSound(lib, limits, sys, Poison(form));
    }
  }

  /** In every interleaving of listings, batches, uploads, updates and panics, from a fresh store in either
      mode: each listing answered the engine's listing at its normalised key, each batch is a function of one
      store and carries that store's version, and each upload response describes the store it produced. */
  lemma {:induction false} EveryResponseJustified(lib: Libraries, limits: Limits, s: Store, actions: seq<Action>)
    requires EmptyTextIsNoDocument(lib) && ListsByPolicyText(lib)
    requires s == EMPTY_STORE.(mode := s.mode, allowUpload := s.allowUpload, uploadToken := s.uploadToken)
    requires forall a | a in actions :: SoundAction(lib, a)
    ensures SystemSound(lib, limits, ActAll(lib, limits, Start(s), actions))
  {
    if actions != [] {
      var n := |actions| - 1;
      var sys, a := ActAll(lib, limits, Start(s), actions[..n]), actions[n];
      EveryResponseJustified(lib, limits, s, actions[..n]);
      assert a in actions;
      ActSound(lib, limits, sys, a);
    }
  }

  /** However many updates ran while a batch was being evaluated, every item is right for one single store: its engine
      decides, its mode and schema rule the context checks, and its version is the one reported and carried. */
  lemma {:induction false} BatchIsolated(lib: Libraries, limits: Limits, s: Store, actions: seq<Action>, r: Response,
                                         i: nat)
    requires EmptyTextIsNoDocument(lib) && ListsByPolicyText(lib) && DecisionsCarryVersion(lib)
    requires s == EMPTY_STORE.(mode := s.mode, allowUpload := s.allowUpload, uploadToken := s.uploadToken)
    requires forall a | a in actions :: SoundAction(lib, a)
    requires r in ActAll(lib, limits, Start(s), actions).responses && r.BatchResponse? && i < |r.requests|
    ensures var past := ActAll(lib, limits, Start(s), actions).past;
            && r.at < |past| && |r.results| == |r.requests|
            && r.version == lib.version(past[r.at].active.engine)
            && r.results[i].index == i && r.results[i].id == r.requests[i].id
            && RightResult(lib, past[r.at].active.engine,
                           past[r.at].mode.Strict?, past[r.at].active.schema.content != "",
                           limits, r.requests[i], Whole, r.results[i].result)
            && (r.results[i].result.Success? ==> r.results[i].result.data.version == r.version)
  {
    EveryResponseJustified(lib, limits, s, actions);
    var sys := ActAll(lib, limits, Start(s), actions);
    assert Justified(lib, limits, sys, r);
    ItemsAnswerRequests(lib, TakeSnapshot(lib, sys.past[r.at]), limits, r.requests, Whole, r.results, i);
    ItemsCarryVersion(lib, sys.past[r.at], limits, r.requests, Whole, (d: Decision) => d.version, r.results, i);
  }
}
