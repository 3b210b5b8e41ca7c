/** Which request each response of a run answers, and when. */
module ServerTrace {
  import opened Basics
  import opened Engines
  import opened StoreSpec
  import opened Batch
  import opened Server
  import ListKeys
  import Readiness

  /** The action that made the task, with its normalised key, its requests or its token. */
  predicate StartedBy(a: Action, id: nat, t: Task) {
    match t
    case ListTask(form, key, _, _) =>
      a.StartList? && a.id == id && a.form == form && key == ListKeys.NewKey(a.user, a.groups, a.namespaces)
    case AuthorizeTask(_, _, requests, _) => a == StartAuthorize(id, requests)
    case UploadTask(header, _, _, _) => a == StartUpload(id, header)
  }

  /** The first action asked what the response answers, and the second one sent it. */
  predicate Answers(r: Response, start: Action, finish: Action) {
    match r
    case ListResponse(form, key, _, _, _, _) =>
      && start.StartList? && start.form == form && key == ListKeys.NewKey(start.user, start.groups, start.namespaces)
      && finish == FinishList(start.id)
    case BatchResponse(_, requests, _, _, _, _) =>
      start.StartAuthorize? && start.requests == requests && finish == FinishAuthorize(start.id)
    case UploadResponse(header, _, _, _, _) =>
      start.StartUpload? && start.header == header && finish == ApplyUpload(start.id)
  }

  ghost predicate TaskTraced(actions: seq<Action>, id: nat, t: Task) {
    0 < t.started <= |actions| && StartedBy(actions[t.started - 1], id, t)
  }

  ghost predicate ResponseTraced(actions: seq<Action>, r: Response) {
    0 < r.started <= r.finished <= |actions| && Answers(r, actions[r.started - 1], actions[r.finished - 1])
  }

  /** After `n` of the actions, every task and every response goes back to the request that caused it. */
  ghost predicate Traced(sys: System, actions: seq<Action>, n: nat) {
    && |sys.past| == n + 1 && n <= |actions|
    && (forall id | id in sys.tasks :: sys.tasks[id].started <= n && TaskTraced(actions, id, sys.tasks[id]))
    && (forall r | r in sys.responses :: r.finished <= n && ResponseTraced(actions, r))
  }

  /** The same request, further on. */
  predicate SameRequest(t: Task, t': Task) {
    match t
    case ListTask(form, key, _, started) => t'.ListTask? && t'.form == form && t'.key == key && t'.started == started
    case AuthorizeTask(_, started, requests, _) => t'.AuthorizeTask? && t'.requests == requests && t'.started == started
    case UploadTask(header, _, _, started) => t'.UploadTask? && t'.header == header && t'.started == started
  }

  lemma SameRequestStarted(a: Action, id: nat, t: Task, t': Task)
    requires StartedBy(a, id, t) && SameRequest(t, t')
    ensures StartedBy(a, id, t') && t'.started == t.started
  {}

  lemma SameTaskTraced(actions: seq<Action>, id: nat, t: Task, t': Task)
    requires TaskTraced(actions, id, t) && SameRequest(t, t')
    ensures TaskTraced(actions, id, t') && t'.started == t.started
  {
    SameRequestStarted(actions[t.started - 1], id, t, t');
  }

  lemma GoOnTraced(sys: System, actions: seq<Action>, n: nat, store: Store, id: nat, t: Task)
    requires Traced(sys, actions, n) && n < |actions| && id in sys.tasks && SameRequest(sys.tasks[id], t)
    ensures Traced(Become(sys, store, sys.tasks[id := t], []), actions, n + 1)
  {
    SameTaskTraced(actions, id, sys.tasks[id], t);
  }

  lemma StartTraced(sys: System, actions: seq<Action>, n: nat, id: nat, t: Task)
    requires Traced(sys, actions, n) && n < |actions| && t.started == |sys.past| && StartedBy(actions[n], id, t)
    ensures Traced(Become(sys, sys.store, sys.tasks[id := t], []), actions, n + 1)
  {
    assert TaskTraced(actions, id, t);
  }

  lemma StayTraced(sys: System, actions: seq<Action>, n: nat, store: Store)
    requires Traced(sys, actions, n) && n < |actions|
    ensures Traced(Become(sys, store, sys.tasks, []), actions, n + 1)
  {}

  lemma DropTraced(sys: System, actions: seq<Action>, n: nat, store: Store, id: nat)
    requires Traced(sys, actions, n) && n < |actions|
    ensures Traced(Become(sys, store, sys.tasks - {id}, []), actions, n + 1)
  {}

  lemma AnswerTraced(sys: System, actions: seq<Action>, n: nat, store: Store, id: nat, r: Response)
    requires Traced(sys, actions, n) && n < |actions| && r.finished == n + 1 && ResponseTraced(actions, r)
    ensures Traced(Become(sys, store, sys.tasks - {id}, [r]), actions, n + 1)
  {}

  lemma ListAnswerTraced(actions: seq<Action>, n: nat, id: nat, t: Task)
    requires n < |actions| && actions[n] == FinishList(id) && t.ListTask? && t.phase.Answered? && t.started <= n
    requires TaskTraced(actions, id, t)
    ensures ResponseTraced(actions, ListAnswer(t, n + 1))
  {}

  lemma BatchAnswerTraced(actions: seq<Action>, n: nat, id: nat, t: Task)
    requires n < |actions| && actions[n] == FinishAuthorize(id) && t.AuthorizeTask? && t.started <= n
    requires TaskTraced(actions, id, t)
    ensures ResponseTraced(actions, BatchAnswer(t, n + 1))
  {}

  lemma UploadAnswerTraced(sys: System, actions: seq<Action>, n: nat, id: nat, t: Task)
    requires n < |actions| && actions[n] == ApplyUpload(id) && t.UploadTask? && t.prepared.Some? && |sys.past| == n + 1
    requires t.started <= n && TaskTraced(actions, id, t)
    ensures ResponseTraced(actions, UploadAnswer(sys, t))
  {}

  lemma AdvanceTraced(lib: Libraries, sys: System, actions: seq<Action>, n: nat, id: nat)
    requires Traced(sys, actions, n) && n < |actions|
    ensures Traced(ContinueList(lib, sys, id), actions, n + 1)
  {
    if id !in sys.tasks || !sys.tasks[id].ListTask? {
      StayTraced(sys, actions, n, sys.store);
    } else {
      var (caches, phase) := Advance(lib, sys.store, sys.tasks[id]);
      GoOnTraced(sys, actions, n, sys.store.(caches := caches), id, sys.tasks[id].(phase := phase));
    }
  }

  lemma FinishTraced(sys: System, actions: seq<Action>, n: nat, id: nat)
    requires Traced(sys, actions, n) && n < |actions| && actions[n] == FinishList(id)
    ensures Traced(EndList(sys, id), actions, n + 1)
  {
    if id !in sys.tasks || !sys.tasks[id].ListTask? || !sys.tasks[id].phase.Answered? {
      StayTraced(sys, actions, n, sys.store);
    } else {
      ListAnswerTraced(actions, n, id, sys.tasks[id]);
      AnswerTraced(sys, actions, n, sys.store, id, ListAnswer(sys.tasks[id], n + 1));
    }
  }

  lemma EvaluateTraced(lib: Libraries, limits: Limits, sys: System, actions: seq<Action>, n: nat, id: nat)
    requires Traced(sys, actions, n) && n < |actions|
    ensures Traced(ContinueBatch(lib, limits, sys, id), actions, n + 1)
  {
    if id !in sys.tasks || !sys.tasks[id].AuthorizeTask? || |sys.tasks[id].results| >= |sys.tasks[id].requests| {
      StayTraced(sys, actions, n, sys.store);
    } else {
      var t := sys.tasks[id];
      var i := |t.results|;
      GoOnTraced(sys, actions, n, sys.store, id,
                 t.(results := t.results + [EvalOne(lib, t.snapshot, limits, i, t.requests[i], Whole)]));
    }
  }

  lemma FinishBatchTraced(sys: System, actions: seq<Action>, n: nat, id: nat)
    requires Traced(sys, actions, n) && n < |actions| && actions[n] == FinishAuthorize(id)
    ensures Traced(EndBatch(sys, id), actions, n + 1)
  {
    if id !in sys.tasks || !sys.tasks[id].AuthorizeTask? || |sys.tasks[id].results| != |sys.tasks[id].requests| {
      StayTraced(sys, actions, n, sys.store);
    } else {
      BatchAnswerTraced(actions, n, id, sys.tasks[id]);
      AnswerTraced(sys, actions, n, sys.store, id, BatchAnswer(sys.tasks[id], n + 1));
    }
  }

  lemma PrepareTraced(lib: Libraries, sys: System, actions: seq<Action>, n: nat, id: nat, b: ValidatedBundle,
                      layout: Layout, now: nat)
    requires Traced(sys, actions, n) && n < |actions|
    ensures Traced(ContinueUpload(lib, sys, id, b, layout, now), actions, n + 1)
  {
    if id !in sys.tasks || !sys.tasks[id].UploadTask? {
      StayTraced(sys, actions, n, sys.store);
    } else {
      var prepared := Prepare(lib, b, None, None, sys.tasks[id].mode, layout, now);
      if prepared.Ok? {
        GoOnTraced(sys, actions, n, sys.store, id, sys.tasks[id].(prepared := Some(prepared.value)));
      } else {
        DropTraced(sys, actions, n, sys.store, id);
      }
    }
  }

  lemma ApplyTraced(sys: System, actions: seq<Action>, n: nat, id: nat)
    requires Traced(sys, actions, n) && n < |actions| && actions[n] == ApplyUpload(id)
    ensures Traced(EndUpload(sys, id), actions, n + 1)
  {
    if id !in sys.tasks || !sys.tasks[id].UploadTask? || sys.tasks[id].prepared.None? || !WriteLockFree(sys) {
      StayTraced(sys, actions, n, sys.store);
    } else {
      var t := sys.tasks[id];
      var (applied, outcome) := ApplyPrepared(sys.store, t.prepared.value);
      if Readiness.UploadVerdict(sys.store, t.header).Fail? {
        DropTraced(sys, actions, n, sys.store, id);
      } else if outcome.Fail? {
        DropTraced(sys, actions, n, applied, id);
      } else {
        UploadAnswerTraced(sys, actions, n, id, t);
        AnswerTraced(sys, actions, n, applied, id, UploadAnswer(sys, t));
      }
    }
  }

  lemma BeginTraced(lib: Libraries, limits: Limits, sys: System, actions: seq<Action>, n: nat)
    requires Traced(sys, actions, n) && n < |actions|
    requires actions[n].StartList? || actions[n].StartAuthorize? || actions[n].StartUpload?
    ensures Traced(Act(lib, limits, sys, actions[n]), actions, n + 1)
  {
    StayTraced(sys, actions, n, sys.store);
    match actions[n]
    case StartList(id, form, user, groups, namespaces) =>
      StartTraced(sys, actions, n, id, ListTask(form, ListKeys.NewKey(user, groups, namespaces), Looking, |sys.past|));
    case StartAuthorize(id, requests) =>
      StartTraced(sys, actions, n, id, AuthorizeTask(TakeSnapshot(lib, sys.store), |sys.past|, requests, []));
    case StartUpload(id, header) =>
      StartTraced(sys, actions, n, id, UploadTask(header, sys.store.mode, None, |sys.past|));
  }

  lemma ActTraced(lib: Libraries, limits: Limits, sys: System, actions: seq<Action>, n: nat)
    requires Traced(sys, actions, n) && n < |actions|
    ensures Traced(Act(lib, limits, sys, actions[n]), actions, n + 1)
  {
    match actions[n]
    case AdvanceList(id) => AdvanceTraced(lib, sys, actions, n, id);
    case FinishList(id) => FinishTraced(sys, actions, n, id);
    case EvaluateNext(id) => EvaluateTraced(lib, limits, sys, actions, n, id);
    case FinishAuthorize(id) => FinishBatchTraced(sys, actions, n, id);
    case PrepareUpload(id, b, layout, now) => PrepareTraced(lib, sys, actions, n, id, b, layout, now);
    case ApplyUpload(id) => ApplyTraced(sys, actions, n, id);
    case Write(e) =>
      StayTraced(sys, actions, n, sys.store);
      StayTraced(sys, actions, n, Step(lib, sys.store, e).0);
    case Panic(form) => StayTraced(sys, actions, n, Step(lib, sys.store, Poison(form)).0);
    case _ => BeginTraced(lib, limits, sys, actions, n);
  }

  lemma OneMoreAction(lib: Libraries, limits: Limits, sys: System, actions: seq<Action>, n: nat)
    requires n < |actions|
    ensures ActAll(lib, limits, sys, actions[..n + 1])
            == Act(lib, limits, ActAll(lib, limits, sys, actions[..n]), actions[n])
  {
    assert actions[..n + 1][..n] == actions[..n];
  }

  lemma {:induction false} PrefixTraced(lib: Libraries, limits: Limits, s: Store, actions: seq<Action>, n: nat)
    requires n <= |actions|
    ensures Traced(ActAll(lib, limits, Start(s), actions[..n]), actions, n)
  {
    if n > 0 {
      PrefixTraced(lib, limits, s, actions, n - 1);
      ActTraced(lib, limits, ActAll(lib, limits, Start(s), actions[..n - 1]), actions, n - 1);
      OneMoreAction(lib, limits, Start(s), actions, n - 1);
    }
  }

  /** Every response answers a request of the run: `started` is where that request was made and `finished` where it
      was answered. */
  lemma ResponsesAnswerRequests(lib: Libraries, limits: Limits, s: Store, actions: seq<Action>, r: Response)
    requires r in ActAll(lib, limits, Start(s), actions).responses
    ensures 0 < r.started <= r.finished <= |actions|
    ensures Answers(r, actions[r.started - 1], actions[r.finished - 1])
  {
    PrefixTraced(lib, limits, s, actions, |actions|);
    assert actions[..|actions|] == actions;
    assert ResponseTraced(actions, r);
  }

  /** A listing answered in any run is the engine's own listing, of one store between its start and its finish, for the
      user, the groups and the namespaces that the request named; only a poisoned cache is reported instead. */
  lemma {:induction false} ListingAnswersRequest(lib: Libraries, limits: Limits, s: Store, actions: seq<Action>,
                                                 r: Response, key: ListKey)
    requires EmptyTextIsNoDocument(lib) && ListsByPolicyText(lib)
    requires s == EMPTY_STORE.(mode := s.mode, allowUpload := s.allowUpload, uploadToken := s.uploadToken)
    requires forall a | a in actions :: SoundAction(lib, a)
    requires r in ActAll(lib, limits, Start(s), actions).responses && r.ListResponse?
    ensures 0 < r.started <= |actions| && actions[r.started - 1].StartList?
    ensures var asked, past := actions[r.started - 1], ActAll(lib, limits, Start(s), actions).past;
            && r.started <= r.at <= r.finished && r.at < |past| && r.form == asked.form
            && (ListKeys.AsksFor(key, asked.user, asked.groups, asked.namespaces) ==>
                  match r.result
                  case Ok(_) =>
                    r.form.RawForm? || !past[r.at].caches.rawPoisoned ==>
                      r.result == lib.list(r.form, past[r.at].active.engine, key)
                  case Err(_) =>
                    past[r.at].caches.Poisoned(r.form) || r.result == lib.list(r.form, past[r.at].active.engine, key))
  {
    EveryResponseJustified(lib, limits, s, actions);
    assert Justified(lib, limits, ActAll(lib, limits, Start(s), actions), r);
    ResponsesAnswerRequests(lib, limits, s, actions, r);
    var asked := actions[r.started - 1];
    ListKeys.KeyAsksForRequest(asked.user, asked.groups, asked.namespaces, key);
  }

  // ----- The recorded history ---------------------------------------------------------------

  lemma PastGrows(lib: Libraries, limits: Limits, sys: System, a: Action)
    ensures Act(lib, limits, sys, a).past == sys.past + [Act(lib, limits, sys, a).store]
  {}

  lemma {:induction false} PastLength(lib: Libraries, limits: Limits, s: Store, actions: seq<Action>)
    ensures var sys := ActAll(lib, limits, Start(s), actions);
            |sys.past| == |actions| + 1 && sys.past[|actions|] == sys.store
  {
    if actions != [] {
      var n := |actions| - 1;
      PastLength(lib, limits, s, actions[..n]);
      PastGrows(lib, limits, ActAll(lib, limits, Start(s), actions[..n]), actions[n]);
    }
  }

  /** Position k of the history is the store after k steps. */
  lemma {:induction false} PastIsHistory(lib: Libraries, limits: Limits, s: Store, actions: seq<Action>, k: nat)
    requires k <= |actions|
    ensures var past := ActAll(lib, limits, Start(s), actions).past;
            |past| == |actions| + 1 && past[k] == ActAll(lib, limits, Start(s), actions[..k]).store
  {
    PastLength(lib, limits, s, actions);
    var n := |actions| - 1;
    if k <= n {
      PastIsHistory(lib, limits, s, actions[..n], k);
      PastGrows(lib, limits, ActAll(lib, limits, Start(s), actions[..n]), actions[n]);
      assert actions[..n][..k] == actions[..k];
    } else {
      assert actions[..k] == actions;
    }
  }
}
