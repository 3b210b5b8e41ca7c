/** What an answered upload installed: the bundle of its own preparation, under the mode it had read. */
module ServerUploads {
  import opened Basics
  import opened Engines
  import opened StoreSpec
  import opened Server
  import Acceptance
  import Batch
  import Readiness
  import ServerTrace

  /** The action prepares, for this request and mode, exactly this content. */
  predicate PreparesTo(lib: Libraries, a: Action, id: nat, mode: SchemaMode, p: PreparedBundle) {
    a.PrepareUpload? && a.id == id && Prepare(lib, a.b, None, None, mode, a.layout, a.now) == Ok(p)
  }

  /** An upload in flight keeps the mode of the store it started on; what it carries was prepared since then. */
  ghost predicate TaskPrepared(lib: Libraries, actions: seq<Action>, past: seq<Store>, id: nat, t: Task) {
    t.UploadTask? ==>
      && t.started < |past| && t.mode == past[t.started].mode
      && (t.prepared.Some? ==>
            exists k :: t.started <= k < |past| - 1 && k < |actions|
                        && PreparesTo(lib, actions[k], id, t.mode, t.prepared.value))
  }

  /** The store just before the one the answer is about had uploads on and this request's token; between the upload's
      start and its answer its bundle was prepared, under the mode of the store it started on; and the store the answer
      is about, and tells of, holds exactly what that gave. */
  ghost predicate Installed(lib: Libraries, actions: seq<Action>, past: seq<Store>, r: Response)
    requires r.UploadResponse?
  {
    && r.started < |past| && 0 < r.at < |past| && 0 < r.finished <= |actions| && actions[r.finished - 1].ApplyUpload?
    && Readiness.CarriesToken(past[r.at - 1], r.header)
    && r.metadata == MetadataOf(past[r.at])
    && exists k :: r.started <= k < r.finished - 1
                   && PreparesTo(lib, actions[k], actions[r.finished - 1].id, past[r.started].mode, past[r.at].active)
  }

  /** After `n` of the actions. */
  ghost predicate UploadsTraced(lib: Libraries, sys: System, actions: seq<Action>, n: nat) {
    && |sys.past| == n + 1 && n <= |actions| && sys.past[n] == sys.store
    && (forall id | id in sys.tasks :: TaskPrepared(lib, actions, sys.past, id, sys.tasks[id]))
    && (forall r | r in sys.responses && r.UploadResponse? :: Installed(lib, actions, sys.past, r))
  }

  lemma TaskFrame(lib: Libraries, actions: seq<Action>, past: seq<Store>, past': seq<Store>, id: nat, t: Task)
    requires TaskPrepared(lib, actions, past, id, t) && past <= past'
    ensures TaskPrepared(lib, actions, past', id, t)
  {
    if t.UploadTask? && t.prepared.Some? {
      var k :| t.started <= k < |past| - 1 && k < |actions|
               && PreparesTo(lib, actions[k], id, t.mode, t.prepared.value);
      assert PreparesTo(lib, actions[k], id, t.mode, t.prepared.value) && k < |past'| - 1;
    }
  }

  lemma InstalledFrame(lib: Libraries, actions: seq<Action>, past: seq<Store>, past': seq<Store>, r: Response)
    requires r.UploadResponse? && Installed(lib, actions, past, r) && past <= past'
    ensures Installed(lib, actions, past', r)
  {
    assert past'[r.started] == past[r.started] && past'[r.at] == past[r.at] && past'[r.at - 1] == past[r.at - 1];
  }

  lemma BecomeTraced(lib: Libraries, sys: System, actions: seq<Action>, n: nat,
                     store: Store, tasks: map<nat, Task>, responses: seq<Response>)
    requires UploadsTraced(lib, sys, actions, n) && n < |actions|
    requires forall id | id in tasks ::
      (id in sys.tasks && tasks[id] == sys.tasks[id]) || TaskPrepared(lib, actions, sys.past + [store], id, tasks[id])
    requires forall r | r in responses && r.UploadResponse? :: Installed(lib, actions, sys.past + [store], r)
    ensures UploadsTraced(lib, Become(sys, store, tasks, responses), actions, n + 1)
  {
    var sys' := Become(sys, store, tasks, responses);
    forall id | id in tasks ensures TaskPrepared(lib, actions, sys'.past, id, tasks[id]) {
      if id in sys.tasks && tasks[id] == sys.tasks[id] {
        TaskFrame(lib, actions, sys.past, sys'.past, id, tasks[id]);
      }
    }
    forall r | r in sys'.responses && r.UploadResponse? ensures Installed(lib, actions, sys'.past, r) {
      if r in sys.responses {
        InstalledFrame(lib, actions, sys.past, sys'.past, r);
      }
    }
  }

  /** Listings, batches, updates and panics touch no upload. */
  lemma OtherActTraced(lib: Libraries, limits: Batch.Limits, sys: System, actions: seq<Action>, n: nat)
    requires UploadsTraced(lib, sys, actions, n) && n < |actions|
    requires !actions[n].StartUpload? && !actions[n].PrepareUpload? && !actions[n].ApplyUpload?
    ensures UploadsTraced(lib, Act(lib, limits, sys, actions[n]), actions, n + 1)
  {
    var sys' := Act(lib, limits, sys, actions[n]);
    var added := sys'.responses[|sys.responses|..];
    assert sys'.responses == sys.responses + added && forall r | r in added :: !r.UploadResponse?;
    assert sys' == Become(sys, sys'.store, sys'.tasks, added);
    BecomeTraced(lib, sys, actions, n, sys'.store, sys'.tasks, added);
  }

  lemma BeginTraced(lib: Libraries, sys: System, actions: seq<Action>, n: nat, id: nat, header: Option<string>)
    requires UploadsTraced(lib, sys, actions, n) && n < |actions|
    ensures UploadsTraced(lib, BeginUpload(sys, id, header), actions, n + 1)
  {
    if id in sys.tasks || Readiness.UploadVerdict(sys.store, header).Fail? {
      BecomeTraced(lib, sys, actions, n, sys.store, sys.tasks, []);
    } else {
      BecomeTraced(lib, sys, actions, n, sys.store,
                   sys.tasks[id := UploadTask(header, sys.store.mode, None, |sys.past|)], []);
    }
  }

  lemma PrepareTraced(lib: Libraries, sys: System, actions: seq<Action>, n: nat)
    requires UploadsTraced(lib, sys, actions, n) && n < |actions| && actions[n].PrepareUpload?
    ensures var a := actions[n];
            UploadsTraced(lib, ContinueUpload(lib, sys, a.id, a.b, a.layout, a.now), actions, n + 1)
  {
    var a := actions[n];
    if a.id !in sys.tasks || !sys.tasks[a.id].UploadTask? {
      BecomeTraced(lib, sys, actions, n, sys.store, sys.tasks, []);
    } else {
      var t := sys.tasks[a.id];
      var prepared := Prepare(lib, a.b, None, None, t.mode, a.layout, a.now);
      assert TaskPrepared(lib, actions, sys.past, a.id, t);
      if prepared.Ok? {
        assert PreparesTo(lib, actions[n], a.id, t.mode, prepared.value);
        BecomeTraced(lib, sys, actions, n, sys.store, sys.tasks[a.id := t.(prepared := Some(prepared.value))], []);
      } else {
        BecomeTraced(lib, sys, actions, n, sys.store, sys.tasks - {a.id}, []);
      }
    }
  }

  lemma AnswerInstalled(lib: Libraries, sys: System, actions: seq<Action>, n: nat, t: Task)
    requires n == |sys.past| - 1 < |actions| && actions[n].ApplyUpload? && sys.past[n] == sys.store
    requires t.UploadTask? && t.prepared.Some? && TaskPrepared(lib, actions, sys.past, actions[n].id, t)
    requires ApplyPrepared(sys.store, t.prepared.value).1.Pass? && Readiness.UploadVerdict(sys.store, t.header).Pass?
    ensures Installed(lib, actions, sys.past + [ApplyPrepared(sys.store, t.prepared.value).0], UploadAnswer(sys, t))
  {
    var k :| t.started <= k < n && PreparesTo(lib, actions[k], actions[n].id, t.mode, t.prepared.value);
    assert ApplyPrepared(sys.store, t.prepared.value).0.active == t.prepared.value;
  }

  lemma ApplyTraced(lib: Libraries, sys: System, actions: seq<Action>, n: nat)
    requires UploadsTraced(lib, sys, actions, n) && n < |actions| && actions[n].ApplyUpload?
    ensures UploadsTraced(lib, EndUpload(sys, actions[n].id), actions, n + 1)
  {
    var id := actions[n].id;
    if id !in sys.tasks || !sys.tasks[id].UploadTask? || sys.tasks[id].prepared.None? || !WriteLockFree(sys) {
      BecomeTraced(lib, sys, actions, n, sys.store, sys.tasks, []);
    } else {
      var t := sys.tasks[id];
      var (applied, outcome) := ApplyPrepared(sys.store, t.prepared.value);
      if Readiness.UploadVerdict(sys.store, t.header).Fail? {
        BecomeTraced(lib, sys, actions, n, sys.store, sys.tasks - {id}, []);
      } else if outcome.Fail? {
        BecomeTraced(lib, sys, actions, n, applied, sys.tasks - {id}, []);
      } else {
        AnswerInstalled(lib, sys, actions, n, t);
        BecomeTraced(lib, sys, actions, n, applied, sys.tasks - {id}, [UploadAnswer(sys, t)]);
      }
    }
  }

  lemma ActTraced(lib: Libraries, limits: Batch.Limits, sys: System, actions: seq<Action>, n: nat)
    requires UploadsTraced(lib, sys, actions, n) && n < |actions|
    ensures UploadsTraced(lib, Act(lib, limits, sys, actions[n]), actions, n + 1)
  {
    match actions[n]
    case StartUpload(id, header) => BeginTraced(lib, sys, actions, n, id, header);
    case PrepareUpload(_, _, _, _) => PrepareTraced(lib, sys, actions, n);
    case ApplyUpload(_) => ApplyTraced(lib, sys, actions, n);
    case _ => OtherActTraced(lib, limits, sys, actions, n);
  }

  lemma {:induction false} PrefixTraced(lib: Libraries, limits: Batch.Limits, s: Store, actions: seq<Action>, n: nat)
    requires n <= |actions|
    ensures UploadsTraced(lib, ActAll(lib, limits, Start(s), actions[..n]), actions, n)
  {
    if n > 0 {
      PrefixTraced(lib, limits, s, actions, n - 1);
      ActTraced(lib, limits, ActAll(lib, limits, Start(s), actions[..n - 1]), actions, n - 1);
      ServerTrace.OneMoreAction(lib, limits, Start(s), actions, n - 1);
    }
  }

  /** Every upload answered in any run was installed in the store its answer is about. */
  lemma {:induction false} AnsweredUploadInstalled(lib: Libraries, limits: Batch.Limits, s: Store,
                                                   actions: seq<Action>, r: Response)
    requires r in ActAll(lib, limits, Start(s), actions).responses && r.UploadResponse?
    ensures Installed(lib, actions, ActAll(lib, limits, Start(s), actions).past, r)
  {
    PrefixTraced(lib, limits, s, actions, |actions|);
    assert actions[..|actions|] == actions;
  }

  /** And what the uploader is told are the bundle's own texts, counts and description. */
  lemma {:induction false} AnsweredUploadDescribesBundle(lib: Libraries, limits: Batch.Limits, s: Store,
                                                         actions: seq<Action>, r: Response)
    requires r in ActAll(lib, limits, Start(s), actions).responses && r.UploadResponse?
    ensures exists k :: 0 <= k < |actions| && actions[k].PrepareUpload?
                        && Describes(r.metadata, actions[k].b, actions[k].now)
  {
    AnsweredUploadInstalled(lib, limits, s, actions, r);
    var past := ActAll(lib, limits, Start(s), actions).past;
    var k :| r.started <= k < r.finished - 1
             && PreparesTo(lib, actions[k], actions[r.finished - 1].id, past[r.started].mode, past[r.at].active);
    var a := actions[k];
    Acceptance.PreparedRecords(lib, a.b, None, None, past[r.started].mode, a.layout, a.now);
    assert Describes(r.metadata, a.b, a.now);
  }

  predicate Describes(m: PoliciesMetadata, b: ValidatedBundle, now: nat) {
    && m.policies.content == b.policies && m.policies.entries == b.policyIds
    && b.labelsJson == Ok(m.labels.content) && m.labels.entries == b.labels.rules
    && (b.schema.Some? ==> b.schema.value.json == Ok(m.schema.content) && m.schema.entries == b.schema.value.entries)
    && (b.schema.None? ==> m.schema.content == "" && m.schema.entries == 0)
    && m.bundle == Some(BundleMetadata(b.info, None, None, now))
  }
}
