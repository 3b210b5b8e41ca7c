/** The three component pollers together: from stable, compatible origins the store converges, in any order of polls. */
module PollerConvergence {
  import opened Basics
  import opened Engines
  import opened StoreSpec
  import opened Coherence
  import opened UpdateOrder
  import opened GenericPolling
  import BundlePolling

  /** The text each origin keeps. */
  datatype Origins = Origins(policies: Text, labels: Text, schema: Text) {
    function Of(kind: SourceKind): Text {
      match kind
      case Policies => policies
      case Labels => labels
      case Schema => schema
      case Bundle => ""
    }
  }

  /** One poll of one of the pollers; meanwhile others only list policies. */
  datatype Turn = Turn(kind: SourceKind, listings: seq<Event>, head: HeadReply, get: GetReply, now: nat)

  /** The origin keeps its text, so a body that arrives is that text. */
  predicate Stable(o: Origins, t: Turn) {
    !t.kind.Bundle? && (t.get.GetText? ==> t.get.text == o.Of(t.kind)) && forall e | e in t.listings :: e.AnswerList?
  }

  ghost predicate StableTurns(o: Origins, turns: seq<Turn>) {
    forall t | t in turns :: !t.kind.Bundle? && Stable(o, t)
  }

  /** The origin answers HEAD other than by 304, and GET with its text. */
  predicate Delivers(t: Turn, kind: SourceKind) {
    t.kind == kind && !t.head.HeadUnreachable? && !t.head.HeadNotModified? && t.get.GetText?
  }

  datatype Pollers = Pollers(memories: map<SourceKind, BundlePolling.Memory>, store: Store)

  function MemoryOf(memories: map<SourceKind, BundlePolling.Memory>, kind: SourceKind): BundlePolling.Memory {
    if kind in memories then memories[kind] else BundlePolling.FRESH
  }

  function Take(lib: Libraries, p: Pollers, t: Turn): Pollers
    requires !t.kind.Bundle?
  {
    var met := Run(lib, p.store, t.listings);
    var (m, s, _) := PollText(lib, t.kind, MemoryOf(p.memories, t.kind), met, t.head, t.get, t.now);
    Pollers(p.memories[t.kind := m], s)
  }

  function TakeAll(lib: Libraries, s: Store, turns: seq<Turn>): Pollers
    requires forall t | t in turns :: !t.kind.Bundle?
  {
    if turns == [] then Pollers(map[], s)
    else Take(lib, TakeAll(lib, s, turns[..|turns| - 1]), turns[|turns| - 1])
  }

  predicate Delivered(turns: seq<Turn>, kind: SourceKind) {
    exists t :: t in turns && Delivers(t, kind)
  }

  ghost predicate CompatibleOrigins(lib: Libraries, o: Origins) {
    Compatible(lib, [o.policies, ""], [o.schema], [o.labels])
  }

  /** Permissive, fed from these origins only, and with no bundle in it. */
  ghost predicate Open(lib: Libraries, o: Origins, s: Store) {
    && Coherent(lib, s.active) && Receptive(s, [o.policies, ""], [o.schema], [o.labels])
    && s.active.bundle.None? && !s.bundleUrlMode
  }

  /** What a poller remembers having applied is its origin's text, and the store holds it. */
  ghost predicate InStep(lib: Libraries, o: Origins, p: Pollers, kind: SourceKind)
    requires !kind.Bundle?
  {
    var m := MemoryOf(p.memories, kind);
    m.archiveSha.Some? ==> m.archiveSha == Some(lib.digest(o.Of(kind))) && HoldsLoaded(p.store, kind, o.Of(kind))
  }

  ghost predicate AllInStep(lib: Libraries, o: Origins, p: Pollers) {
    Open(lib, o, p.store) && forall kind: SourceKind | !kind.Bundle? :: InStep(lib, o, p, kind)
  }

  // ----- Listings change nothing here -------------------------------------------------------

  predicate SameButCaches(s: Store, s': Store) {
    s'.(caches := s.caches) == s
    && s'.caches.rawPoisoned == s.caches.rawPoisoned && s'.caches.jsonPoisoned == s.caches.jsonPoisoned
  }

  lemma {:induction false} ListingsOnlyCache(lib: Libraries, s: Store, events: seq<Event>)
    requires forall e | e in events :: e.AnswerList?
    ensures SameButCaches(s, Run(lib, s, events))
  {
    if events != [] {
      var n := |events| - 1;
      ListingsOnlyCache(lib, s, events[..n]);
      assert events[n].AnswerList?;
    }
  }

  // ----- One poll ---------------------------------------------------------------------------

  function UpdateOf(kind: SourceKind, text: Text, now: nat): Event
    requires !kind.Bundle?
  {
    match kind
    case Policies => UpdateDsl(text, None, None, now)
    case Labels => UpdateLabels(text, None, None, now)
    case Schema => UpdateSchema(text, None, None, now)
  }

  lemma ApplyIsUpdateThenMark(lib: Libraries, s: Store, kind: SourceKind, text: Text, now: nat)
    requires !kind.Bundle?
    ensures var (s', outcome) := Step(lib, s, UpdateOf(kind, text, now));
            Apply(lib, s, kind, text, now) == if outcome.Pass? then (MarkLoaded(s', kind), Pass) else (s', outcome)
  {}

  lemma MarkKeepsOpen(lib: Libraries, o: Origins, s: Store, kind: SourceKind)
    requires Open(lib, o, s)
    ensures Open(lib, o, MarkLoaded(s, kind))
  {
    StepContent(lib, s, Mark(kind));
    SameContentCoherent(lib, s.active, MarkLoaded(s, kind).active);
  }

  lemma UpdateKeepsOpen(lib: Libraries, o: Origins, s: Store, kind: SourceKind, now: nat)
    requires EmptyTextIsNoDocument(lib) && CompatibleOrigins(lib, o) && !kind.Bundle? && Open(lib, o, s)
    ensures var (s', outcome) := Step(lib, s, UpdateOf(kind, o.Of(kind), now)); outcome.Pass? && Open(lib, o, s')
  {
    var e := UpdateOf(kind, o.Of(kind), now);
    CompatibleUpdateAccepted(lib, s, e, [o.policies, ""], [o.schema], [o.labels]);
    AcceptedUpdateKeepsReceptive(lib, s, e, [o.policies, ""], [o.schema], [o.labels]);
    StepContent(lib, s, e);
    AcceptedInstalls(lib, s, e);
    StepCoherent(lib, s, e);
    UpdateKeepsMode(lib, s, e);
  }

  lemma UpdateKeepsMode(lib: Libraries, s: Store, e: Event)
    requires Update(e)
    ensures Step(lib, s, e).0.bundleUrlMode == s.bundleUrlMode
  {}

  /** The origin's text is always accepted, and stays in the store with what the other pollers applied. */
  lemma ApplyConverges(lib: Libraries, o: Origins, s: Store, kind: SourceKind, now: nat)
    requires EmptyTextIsNoDocument(lib) && CompatibleOrigins(lib, o) && !kind.Bundle? && Open(lib, o, s)
    ensures var (s', outcome) := Apply(lib, s, kind, o.Of(kind), now);
            outcome.Pass? && Open(lib, o, s') && HoldsLoaded(s', kind, o.Of(kind))
  {
    UpdateKeepsOpen(lib, o, s, kind, now);
    ApplyIsUpdateThenMark(lib, s, kind, o.Of(kind), now);
    MarkKeepsOpen(lib, o, Step(lib, s, UpdateOf(kind, o.Of(kind), now)).0, kind);
    AppliedTextInstalled(lib, s, kind, o.Of(kind), now);
  }

  lemma ApplyKeepsOthers(lib: Libraries, s: Store, kind: SourceKind, text: Text, now: nat, other: SourceKind,
                         held: Text)
    requires !kind.Bundle? && !other.Bundle? && other != kind && HoldsLoaded(s, other, held)
    ensures HoldsLoaded(Apply(lib, s, kind, text, now).0, other, held)
  {
    var e := UpdateOf(kind, text, now);
    ApplyIsUpdateThenMark(lib, s, kind, text, now);
    StepKeepsText(lib, s, e, other, held);
    StepKeepsText(lib, Step(lib, s, e).0, Mark(kind), other, held);
  }

  /** Each poll keeps every poller in step, and one that is delivered its text remembers it afterwards. */
  lemma TurnKeepsInStep(lib: Libraries, o: Origins, p: Pollers, t: Turn)
    requires EmptyTextIsNoDocument(lib) && CompatibleOrigins(lib, o) && Stable(o, t) && AllInStep(lib, o, p)
    ensures AllInStep(lib, o, Take(lib, p, t))
    ensures Delivers(t, t.kind) ==> MemoryOf(Take(lib, p, t).memories, t.kind).archiveSha.Some?
    ensures forall kind ::
      MemoryOf(p.memories, kind).archiveSha.Some? ==> MemoryOf(Take(lib, p, t).memories, kind).archiveSha.Some?
  {
    var m, met, p' := MemoryOf(p.memories, t.kind), Run(lib, p.store, t.listings), Take(lib, p, t);
    ListingsOnlyCache(lib, p.store, t.listings);
    assert Open(lib, o, met);
    assert InStep(lib, o, p, t.kind);
    if AppliesText(lib, t.kind, m, met, t.head, t.get, t.now) {
      ApplyConverges(lib, o, met, t.kind, t.now);
    } else if t.get.GetText? {
      ApplyConverges(lib, o, met, t.kind, t.now);
    }
    PollInstallsExactly(lib, t.kind, m, met, t.head, t.get, t.now);
    forall kind: SourceKind | !kind.Bundle? ensures InStep(lib, o, p', kind) {
      assert InStep(lib, o, p, kind);
      if kind != t.kind && MemoryOf(p.memories, kind).archiveSha.Some? {
        assert HoldsLoaded(met, kind, o.Of(kind));
        if AppliesText(lib, t.kind, m, met, t.head, t.get, t.now) {
          ApplyKeepsOthers(lib, met, t.kind, t.get.text, t.now, kind, o.Of(kind));
        }
      }
    }
  }

  lemma {:induction false} AllTurns(lib: Libraries, o: Origins, s: Store, turns: seq<Turn>)
    requires EmptyTextIsNoDocument(lib) && CompatibleOrigins(lib, o) && Open(lib, o, s)
    requires StableTurns(o, turns)
    ensures AllInStep(lib, o, TakeAll(lib, s, turns))
    ensures forall kind :: Delivered(turns, kind) ==> MemoryOf(TakeAll(lib, s, turns).memories, kind).archiveSha.Some?
  {
    if turns != [] {
      var n := |turns| - 1;
      AllTurns(lib, o, s, turns[..n]);
      assert Stable(o, turns[n]);
      TurnKeepsInStep(lib, o, TakeAll(lib, s, turns[..n]), turns[n]);
      forall kind | Delivered(turns, kind) ensures MemoryOf(TakeAll(lib, s, turns).memories, kind).archiveSha.Some? {
        var t :| t in turns && Delivers(t, kind);
        if t in turns[..n] {
          assert Delivered(turns[..n], kind);
        } else {
          assert t == turns[n];
        }
      }
    }
  }

  /** Compatible origins that keep their texts, permissive mode, no other writer: once each origin has delivered its
      text at least once, in any order and among any failures and 304s, the store holds the three texts, its engine,
      status and label handles are those of the three texts, and it is ready. */
  lemma PollersConverge(lib: Libraries, o: Origins, s: Store, turns: seq<Turn>)
    requires EmptyTextIsNoDocument(lib) && CompatibleOrigins(lib, o) && Open(lib, o, s)
    requires StableTurns(o, turns)
    requires Delivered(turns, Policies) && Delivered(turns, Labels) && Delivered(turns, Schema)
    ensures var s' := TakeAll(lib, s, turns).store;
            var a := s'.active;
            && a.policies.content == o.policies && a.labels.content == o.labels && a.schema.content == o.schema
            && a.engine == EngineFor(lib, o.policies, o.schema, o.labels)
            && a.status == StatusOf(lib, o.policies, Document(o.schema))
            && a.labelers == LabelersOf(lib, o.labels)
            && SourcesLoaded(s')
  {
    AllTurns(lib, o, s, turns);
    var p := TakeAll(lib, s, turns);
    assert InStep(lib, o, p, Policies) && InStep(lib, o, p, Labels) && InStep(lib, o, p, Schema);
    var e := p.store.active.engine;
    assert e.layout == Monolithic && e.(layout := Monolithic) == e;
  }

  /** A server that starts permissive and configures the three sources starts open. */
  lemma FreshStoreOpen(lib: Libraries, o: Origins, allowUpload: bool, token: Option<string>,
                       urls: Origins, everyPolicies: nat, everyLabels: nat, everySchema: nat)
    requires EmptyTextIsNoDocument(lib)
    ensures var s0 := EMPTY_STORE.(allowUpload := allowUpload, uploadToken := token);
            var s1 := ConfigureSource(s0, Policies, urls.policies, everyPolicies);
            var s2 := ConfigureSource(s1, Labels, urls.labels, everyLabels);
            Open(lib, o, ConfigureSource(s2, Schema, urls.schema, everySchema))
  {}
}
