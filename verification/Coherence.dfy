/**
 * What every reachable store keeps: engine, status and label handles are functions of the
 * three stored texts; a failed call changes nothing; strict mode is never without a schema;
 * bundle metadata never outlives the bundle's content.
 */
module Coherence {
  import opened Basics
  import opened Engines
  import opened StoreSpec

  // ----- One engine for three texts ---------------------------------------------------------

  function Document(text: Text): Option<Text> {
    if text == "" then None else Some(text)
  }

  function LabelersOf(lib: Libraries, labels: Text): seq<Labeler> {
    if labels != "" && lib.parseLabels(labels).Ok? then lib.parseLabels(labels).value.labelers else []
  }

  /** The monolithic engine of a policy text, a schema text and a label text. */
  function EngineFor(lib: Libraries, policies: Text, schema: Text, labels: Text): Engine {
    Build(lib, policies, Document(schema), LabelersOf(lib, labels), lib.digest(labels))
  }

  /** A record of some text carries that text's digest. */
  predicate Hashed(lib: Libraries, m: Metadata) {
    m.content != "" ==> m.sha256 == lib.digest(m.content)
  }

  ghost predicate Coherent(lib: Libraries, a: Active) {
    && a.engine.(layout := Monolithic) == EngineFor(lib, a.policies.content, a.schema.content, a.labels.content)
    && a.status == StatusOf(lib, a.policies.content, Document(a.schema.content))
    && a.labelers == LabelersOf(lib, a.labels.content)
    && Hashed(lib, a.policies) && Hashed(lib, a.labels) && Hashed(lib, a.schema)
    && (a.labels.content != "" ==> lib.parseLabels(a.labels.content).Ok?)
    && (a.schema.content != "" ==> lib.schemaParses(a.schema.content))
    && (a.schema.content != "" && a.labels.content != "" ==> lib.labelsFit(a.labels.content, a.schema.content).Pass?)
    && (a.engine.layout.BundleModules? ==> a.bundle.Some?)
  }

  /** The bundle of an installation event keeps what bundle validation promises. */
  ghost predicate SoundEvent(lib: Libraries, e: Event) {
    e.InstallBundle? ==> SoundBundle(lib, e.b)
  }

  ghost predicate SoundEvents(lib: Libraries, events: seq<Event>) {
    forall e | e in events :: SoundEvent(lib, e)
  }

  /** The content a successful call installs, if it installs any. */
  function Installs(lib: Libraries, s: Store, e: Event): Option<Active> {
    match e
    case UpdateDsl(text, source, refresh, now) =>
      if DslVerdict(lib, s.mode, s.active, text).Pass?
      then Some(PublishDsl(lib, s.active, text, source, refresh, now)) else None
    case UpdateSchema(text, source, refresh, now) =>
      if SchemaVerdict(lib, s.mode, s.active, text, source, refresh).Pass?
      then Some(PublishSchema(lib, s.active, text, source, refresh, now)) else None
    case UpdateLabels(text, source, refresh, now) =>
      if LabelsVerdict(lib, s.mode, s.active, text).Pass?
      then Some(PublishLabels(lib, s.active, text, lib.parseLabels(text).value, source, refresh, now)) else None
    case InstallBundle(_, _, _, _, _, _) =>
      if PreparedBy(lib, e).Ok? && ApplyPrepared(s, PreparedBy(lib, e).value).1.Pass?
      then Some(PreparedBy(lib, e).value) else None
    case _ => None
  }

  function PreparedBy(lib: Libraries, e: Event): Result<PreparedBundle, ServiceError>
    requires e.InstallBundle?
  {
    Prepare(lib, e.b, e.source, e.refresh, e.preparedUnder, e.layout, e.now)
  }

  predicate SameButOrigin(m: Metadata, m': Metadata) {
    m.(source := None, refresh := None) == m'.(source := None, refresh := None)
  }

  /** Same engine, texts, label handles, status and bundle metadata. */
  predicate SameContent(a: Active, a': Active) {
    && a.engine == a'.engine && a.status == a'.status && a.labelers == a'.labelers && a.bundle == a'.bundle
    && SameButOrigin(a.policies, a'.policies) && SameButOrigin(a.labels, a'.labels)
    && SameButOrigin(a.schema, a'.schema)
  }

  lemma OriginKeepsContent(a: Active, kind: SourceKind, source: Endpoint, refresh: nat)
    ensures SameContent(a, WithOrigin(a, kind, source, refresh))
  {}

  /** The content after a call is what the call installs, or else what it was, up to metadata origins. */
  lemma StepContent(lib: Libraries, s: Store, e: Event)
    ensures Installs(lib, s, e).Some? ==> Step(lib, s, e).0.active == Installs(lib, s, e).value
    ensures Installs(lib, s, e).None? ==> SameContent(s.active, Step(lib, s, e).0.active)
  {}

  lemma SameContentCoherent(lib: Libraries, a: Active, a': Active)
    requires Coherent(lib, a) && SameContent(a, a')
    ensures Coherent(lib, a')
  {}

  lemma PreparedCoherent(lib: Libraries, e: Event)
    requires e.InstallBundle? && SoundBundle(lib, e.b) && PreparedBy(lib, e).Ok?
    ensures Coherent(lib, PreparedBy(lib, e).value)
  {}

  lemma InstalledCoherent(lib: Libraries, s: Store, e: Event)
    requires EmptyTextIsNoDocument(lib) && Coherent(lib, s.active) && SoundEvent(lib, e)
    requires Installs(lib, s, e).Some?
    ensures Coherent(lib, Installs(lib, s, e).value)
  {
    if e.InstallBundle? { PreparedCoherent(lib, e); }
  }

  /** Every operation, accepted or not, in both modes, keeps the store coherent. */
  lemma {:induction false} StepCoherent(lib: Libraries, s: Store, e: Event)
    requires EmptyTextIsNoDocument(lib) && Coherent(lib, s.active) && SoundEvent(lib, e)
    ensures Coherent(lib, Step(lib, s, e).0.active)
  {
    StepContent(lib, s, e);
    if Installs(lib, s, e).Some? {
      InstalledCoherent(lib, s, e);
    } else {
      SameContentCoherent(lib, s.active, Step(lib, s, e).0.active);
    }
  }

  lemma {:induction false} RunCoherent(lib: Libraries, s: Store, events: seq<Event>)
    requires EmptyTextIsNoDocument(lib) && Coherent(lib, s.active) && SoundEvents(lib, events)
    ensures Coherent(lib, Run(lib, s, events).active)
  {
    if events != [] {
      var n := |events| - 1;
      RunCoherent(lib, s, events[..n]);
      StepCoherent(lib, Run(lib, s, events[..n]), events[n]);
    }
  }

  /** Every store reachable from the empty one is coherent, so its status and engine say exactly what its texts say. */
  lemma ReachableStoreCoherent(lib: Libraries, mode: SchemaMode, events: seq<Event>)
    requires EmptyTextIsNoDocument(lib) && SoundEvents(lib, events)
    ensures var a := Run(lib, EMPTY_STORE.(mode := mode), events).active;
            && Coherent(lib, a)
            && (a.status.NoSchema? <==> a.schema.content == "")
            && (a.status.SchemaBacked? <==>
                a.schema.content != "" && lib.validates(a.policies.content, a.schema.content).Pass?)
            && (a.status.SchemaBacked? <==> a.engine.schema == Some(a.schema.content))
            && (a.engine.registry.Some? <==> a.labelers != [])
            && (a.engine.registry.Some? ==> a.engine.registry.value.version == a.labels.sha256)
  {
    RunCoherent(lib, EMPTY_STORE.(mode := mode), events);
  }

  /** The record an accepted text leaves: origin and refresh are the given ones or else the old ones. */
  predicate Recorded(lib: Libraries, m: Metadata, before: Metadata, text: Text, source: Option<Endpoint>,
                     refresh: Option<nat>, entries: nat, now: nat)
  {
    && m.content == text && m.timestamp == now
    && m.source == source.Or(before.source) && m.refresh == refresh.Or(before.refresh)
    && (text == "" && m.source.None? && m.refresh.None? ==> m.sha256 == "" && m.entries == 0)
    && (text != "" || m.source.Some? || m.refresh.Some? ==> m.sha256 == lib.digest(text) && m.entries == entries)
  }

  /** An accepted update replaces the record of its own kind and leaves the other two, and the label handles
      unless the labels changed. */
  lemma AcceptedUpdateRecords(lib: Libraries, s: Store, e: Event)
    requires Step(lib, s, e).1.Pass?
    ensures var a, b := s.active, Step(lib, s, e).0.active;
            match e
            case UpdateDsl(text, source, refresh, now) =>
              && Recorded(lib, b.policies, a.policies, text, source, refresh, lib.policyEntries(text), now)
              && b.labels == a.labels && b.schema == a.schema && b.labelers == a.labelers
            case UpdateSchema(text, source, refresh, now) =>
              && (text != "" ==> lib.schemaEntries(text).Ok?)
              && (lib.schemaEntries(text).Ok? ==>
                    Recorded(lib, b.schema, a.schema, text, source, refresh, lib.schemaEntries(text).value, now))
              && b.policies == a.policies && b.labels == a.labels && b.labelers == a.labelers
            case UpdateLabels(text, source, refresh, now) =>
              && lib.parseLabels(text).Ok?
              && (text != "" ==>
                    Recorded(lib, b.labels, a.labels, text, source, refresh, lib.parseLabels(text).value.rules, now))
              && b.policies == a.policies && b.schema == a.schema
            case _ => true
  {}

  // ----- Failure atomicity ------------------------------------------------------------------

  /** With both cache mutexes sound, a call that returns an error leaves the whole store as it was. */
  lemma FailureIsAtomic(lib: Libraries, s: Store, e: Event)
    requires !s.caches.rawPoisoned && !s.caches.jsonPoisoned
    requires Step(lib, s, e).1.Fail?
    ensures Step(lib, s, e).0 == s
  {}

  /** The update passes its checks but meets a poisoned cache mutex after it has been published. */
  predicate PublishedThenPoisoned(lib: Libraries, s: Store, e: Event) {
    && (s.caches.rawPoisoned || s.caches.jsonPoisoned)
    && match e
       case UpdateDsl(text, _, _, _) => DslVerdict(lib, s.mode, s.active, text).Pass?
       case UpdateLabels(text, _, _, _) => LabelsVerdict(lib, s.mode, s.active, text).Pass?
       case _ => false
  }

  /** In general a failed call spares everything but the caches, except exactly when a policy or label
      update that passes its checks meets a poisoned mutex: that one is published although it fails. */
  lemma FailureIsAtomicExactly(lib: Libraries, s: Store, e: Event)
    requires Step(lib, s, e).1.Fail?
    requires e.UpdateDsl? ==> e.now != s.active.policies.timestamp
    requires e.UpdateLabels? ==> e.now != s.active.labels.timestamp
    ensures Step(lib, s, e).0.(caches := s.caches) == s <==> !PublishedThenPoisoned(lib, s, e)
  {}

  /** A text no engine compiles is at first taken for a schema mismatch in permissive mode, and then refused whole. */
  lemma UnparsableTextRefused(lib: Libraries, s: Store, text: Text, source: Option<Endpoint>, refresh: Option<nat>,
                              now: nat)
    requires Coherent(lib, s.active) && s.mode.Permissive? && s.active.schema.content != ""
    requires lib.validates(text, s.active.schema.content).Fail? && lib.compiles(text, None).Fail?
    ensures Step(lib, s, UpdateDsl(text, source, refresh, now)) == (s, lib.compiles(text, None))
  {}

  // ----- Strict mode ------------------------------------------------------------------------

  ghost predicate SchemaBackedPolicies(a: Active) {
    a.policies.content != "" ==>
      a.schema.content != "" && a.status == SchemaBacked && a.engine.schema == Some(a.schema.content)
  }

  /** A bundle prepared in either mode is installed under strict mode only with a schema that backs it. */
  lemma StrictInstallsSchema(lib: Libraries, s: Store, e: Event)
    requires e.InstallBundle? && SoundBundle(lib, e.b) && s.mode.Strict?
    requires Step(lib, s, e).1.Pass?
    ensures var a := Step(lib, s, e).0.active;
            a.schema.content != "" && a.status == SchemaBacked && a.engine.schema == Some(a.schema.content)
  {}

  lemma StepStrict(lib: Libraries, s: Store, e: Event)
    requires EmptyTextIsNoDocument(lib) && Coherent(lib, s.active) && SoundEvent(lib, e)
    requires s.mode.Strict? && SchemaBackedPolicies(s.active)
    ensures SchemaBackedPolicies(Step(lib, s, e).0.active)
  {
    StepContent(lib, s, e);
    if Installs(lib, s, e).Some? && e.InstallBundle? {
      StrictInstallsSchema(lib, s, e);
    }
  }

  lemma ModeOnlySet(lib: Libraries, s: Store, e: Event)
    ensures Step(lib, s, e).0.mode == if e.SetMode? then e.mode else s.mode
  {}

  /** A server started in strict mode never holds policies without a schema that backs them. */
  lemma {:induction false} StrictRun(lib: Libraries, events: seq<Event>)
    requires EmptyTextIsNoDocument(lib) && SoundEvents(lib, events)
    requires forall e | e in events :: e != SetMode(Permissive)
    ensures Run(lib, EMPTY_STORE.(mode := Strict), events).mode.Strict?
    ensures SchemaBackedPolicies(Run(lib, EMPTY_STORE.(mode := Strict), events).active)
  {
    if events != [] {
      var n := |events| - 1;
      var before := Run(lib, EMPTY_STORE.(mode := Strict), events[..n]);
      assert forall e | e in events[..n] :: e in events;
      assert events[n] in events;
      StrictRun(lib, events[..n]);
      RunCoherent(lib, EMPTY_STORE.(mode := Strict), events[..n]);
      StepStrict(lib, before, events[n]);
      ModeOnlySet(lib, before, events[n]);
    }
  }

  // ----- Bundle provenance ------------------------------------------------------------------

  lemma UpdatesDropBundle(lib: Libraries, s: Store, e: Event)
    requires Installs(lib, s, e).Some? && !e.InstallBundle?
    ensures Installs(lib, s, e).value.bundle.None?
  {}

  /** Call i of the run is a bundle installation that was accepted. */
  predicate InstalledAt(lib: Libraries, s: Store, events: seq<Event>, i: nat)
    requires i < |events|
    ensures InstalledAt(lib, s, events, i) ==> events[i].InstallBundle? && PreparedBy(lib, events[i]).Ok?
  {
    events[i].InstallBundle? && Installs(lib, Run(lib, s, events[..i]), events[i]).Some?
  }

  /** Bundle metadata is present only while engine, texts, label handles and status all come from
      one bundle whose installation the run accepted. */
  lemma {:induction false} BundleProvenance(lib: Libraries, s: Store, events: seq<Event>)
    requires s.active.bundle.None?
    ensures var a := Run(lib, s, events).active;
            a.bundle.Some? ==>
              exists i ::
                0 <= i < |events| && InstalledAt(lib, s, events, i) && SameContent(PreparedBy(lib, events[i]).value, a)
  {
    if events != [] {
      var n := |events| - 1;
      var before, e, after := Run(lib, s, events[..n]), events[n], Run(lib, s, events);
      BundleProvenance(lib, s, events[..n]);
      StepContent(lib, before, e);
      if Installs(lib, before, e).Some? {
        if e.InstallBundle? {
          assert InstalledAt(lib, s, events, n) && SameContent(PreparedBy(lib, events[n]).value, after.active);
        } else {
          UpdatesDropBundle(lib, before, e);
        }
      } else if after.active.bundle.Some? {
        var i :| 0 <= i < n && InstalledAt(lib, s, events[..n], i)
                 && SameContent(PreparedBy(lib, events[..n][i]).value, before.active);
        assert events[i] == events[..n][i] && events[..i] == events[..n][..i];
        assert InstalledAt(lib, s, events, i) && SameContent(PreparedBy(lib, events[i]).value, after.active);
      }
    }
  }
}
