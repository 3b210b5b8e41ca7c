/**
 * The policy store as a value, and what each of its operations does to that value:
 * an ordered list of the checks that may refuse it, and the state it publishes.
 */
module StoreSpec {
  import opened Basics
  import opened Engines
  import Lru

  const CACHE_LIMIT := 128

  datatype SchemaMode = Permissive | Strict

  datatype ContextStatus = NoSchema | SchemaBacked | SchemaIncompatible

  datatype Metadata = Metadata(
    timestamp: nat, sha256: Digest, source: Option<Endpoint>, refresh: Option<nat>, entries: nat, content: Text)

  datatype BundleMetadata = BundleMetadata(info: BundleInfo, source: Option<Endpoint>, refresh: Option<nat>,
                                           loadedAt: nat)

  datatype SourceKind = Policies | Labels | Schema | Bundle

  datatype RemoteSource = RemoteSource(configuration: Option<(Endpoint, nat)>, loaded: bool) {
    function Configure(source: Endpoint, refresh: nat): RemoteSource {
      RemoteSource(Some((source, refresh)), false)
    }

    predicate Ready(metadataHasSource: bool) {
      !(configuration.Some? || metadataHasSource) || loaded
    }
  }

  datatype RemoteLoads = RemoteLoads(policies: RemoteSource, labels: RemoteSource, schema: RemoteSource,
                                     bundle: RemoteSource) {
    function Of(kind: SourceKind): RemoteSource {
      match kind
      case Policies => policies
      case Labels => labels
      case Schema => schema
      case Bundle => bundle
    }

    function With(kind: SourceKind, r: RemoteSource): RemoteLoads {
      match kind
      case Policies => this.(policies := r)
      case Labels => this.(labels := r)
      case Schema => this.(schema := r)
      case Bundle => this.(bundle := r)
    }
  }

  /** Everything an update or a bundle installation replaces. */
  datatype Active = Active(
    engine: Engine, status: ContextStatus, policies: Metadata, labels: Metadata, schema: Metadata,
    labelers: seq<Labeler>, bundle: Option<BundleMetadata>)

  type Outcome = Verdict<ServiceError>

  type ListCache = Lru.Cache<ListKey, Listing>

  /** The two listing caches and their mutexes, which a panic may leave poisoned. */
  datatype Caches = Caches(raw: ListCache, json: ListCache, rawPoisoned: bool, jsonPoisoned: bool) {
    function Of(form: ListForm): ListCache {
      if form.RawForm? then raw else json
    }

    function With(form: ListForm, c: ListCache): Caches {
      if form.RawForm? then this.(raw := c) else this.(json := c)
    }

    predicate Poisoned(form: ListForm) {
      if form.RawForm? then rawPoisoned else jsonPoisoned
    }

    /** Clearing takes the raw mutex, then the JSON mutex; a poisoned one ends it with an error. */
    function Cleared(): Caches {
      Caches(if rawPoisoned then raw else [],
             if rawPoisoned || jsonPoisoned then json else [],
             rawPoisoned, jsonPoisoned)
    }

    function ClearVerdict(): Outcome {
      Check(!rawPoisoned && !jsonPoisoned, ListPoliciesError("poisoned"))
    }
  }

  datatype Store = Store(
    active: Active, caches: Caches, mode: SchemaMode, bundleUrlMode: bool, remote: RemoteLoads,
    allowUpload: bool, uploadToken: Option<string>)

  const NO_CONTENT := Metadata(0, "", None, None, 0, "")
  const NO_SOURCE := RemoteSource(None, false)
  const EMPTY_ACTIVE := Active(Engine("", None, None, Monolithic), NoSchema, NO_CONTENT, NO_CONTENT, NO_CONTENT, [],
                               None)

  /** `PolicyStore::new`. */
  const EMPTY_STORE := Store(
    EMPTY_ACTIVE, Caches([], [], false, false), Permissive, false,
    RemoteLoads(NO_SOURCE, NO_SOURCE, NO_SOURCE, NO_SOURCE), false, None)

  // ----- Metadata ---------------------------------------------------------------------------

  function Record(lib: Libraries, content: Text, source: Option<Endpoint>, refresh: Option<nat>, entries: nat,
                  now: nat): Metadata
  {
    Metadata(now, lib.digest(content), source, refresh, entries, content)
  }

  /** `Metadata::new`: content with neither text nor origin gets the empty record. */
  function NewRecord(lib: Libraries, content: Text, source: Option<Endpoint>, refresh: Option<nat>, entries: nat,
                     now: nat): Metadata
  {
    if content == "" && source.None? && refresh.None? then NO_CONTENT.(timestamp := now)
    else Record(lib, content, source, refresh, entries, now)
  }

  // ----- Building an engine -----------------------------------------------------------------

  function StoredSchema(a: Active): Option<Text> {
    if a.schema.content == "" then None else Some(a.schema.content)
  }

  /** The schema an engine is built with: the given one, if the policies validate against it. */
  function RuntimeSchema(lib: Libraries, dsl: Text, schema: Option<Text>): Option<Text> {
    if schema.Some? && lib.validates(dsl, schema.value).Pass? then schema else None
  }

  function StatusOf(lib: Libraries, dsl: Text, schema: Option<Text>): ContextStatus {
    match schema
    case None => NoSchema
    case Some(text) => if lib.validates(dsl, text).Pass? then SchemaBacked else SchemaIncompatible
  }

  function RegistryOf(labelers: seq<Labeler>, version: Digest): Option<Registry> {
    if labelers == [] then None else Some(Registry(version, labelers))
  }

  function Build(lib: Libraries, dsl: Text, schema: Option<Text>, labelers: seq<Labeler>, version: Digest): Engine {
    Engine(dsl, RuntimeSchema(lib, dsl, schema), RegistryOf(labelers, version), Monolithic)
  }

  function BuildVerdict(lib: Libraries, mode: SchemaMode, dsl: Text, schema: Option<Text>, labelers: seq<Labeler>,
                        version: Digest): Outcome
  {
    var strict := if mode.Strict? && schema.Some? then lib.validates(dsl, schema.value) else Pass;
    var registry := RegistryOf(labelers, version);
    strict
    .Then(lib.compiles(dsl, RuntimeSchema(lib, dsl, schema)))
    .Then(if registry.Some? then lib.registers(registry.value) else Pass)
  }

  // ----- Component updates ------------------------------------------------------------------

  function Rebuilt(lib: Libraries, a: Active, dsl: Text, schema: Option<Text>, labelers: seq<Labeler>,
                   version: Digest): Active
  {
    a.(engine := Build(lib, dsl, schema, labelers, version), status := StatusOf(lib, dsl, schema), bundle := None)
  }

  /** Strict mode loads policies only over a stored schema. */
  function SchemaPresentVerdict(mode: SchemaMode, a: Active): Outcome {
    Check(mode.Strict? ==> a.schema.content != "", SchemaValidationError("no schema"))
  }

  function StoredSchemaVerdict(lib: Libraries, a: Active): Outcome {
    Check(a.schema.content == "" || lib.schemaParses(a.schema.content), SchemaValidationError("schema"))
  }

  function DslVerdict(lib: Libraries, mode: SchemaMode, a: Active, dsl: Text): Outcome {
    SchemaPresentVerdict(mode, a)
    .Then(StoredSchemaVerdict(lib, a))
    .Then(BuildVerdict(lib, mode, dsl, StoredSchema(a), a.labelers, a.labels.sha256))
  }

  function PublishDsl(lib: Libraries, a: Active, dsl: Text, source: Option<Endpoint>, refresh: Option<nat>,
                      now: nat): Active
  {
    Rebuilt(lib, a, dsl, StoredSchema(a), a.labelers, a.labels.sha256)
    .(policies := NewRecord(lib, dsl, source.Or(a.policies.source), refresh.Or(a.policies.refresh),
                            lib.policyEntries(dsl), now))
  }

  /** `set_dsl`: an accepted text is published before the caches are cleared. */
  function SetDsl(lib: Libraries, s: Store, dsl: Text, source: Option<Endpoint>, refresh: Option<nat>,
                  now: nat): (Store, Outcome)
  {
    var verdict := DslVerdict(lib, s.mode, s.active, dsl);
    if verdict.Fail? then (s, verdict)
    else (s.(active := PublishDsl(lib, s.active, dsl, source, refresh, now), caches := s.caches.Cleared()),
          s.caches.ClearVerdict())
  }

  /** `Metadata::<OfSchema>::new`: unless the empty record is made, the text must parse and have a count. */
  function SchemaRecordVerdict(lib: Libraries, schema: Text, source: Option<Endpoint>, refresh: Option<nat>): Outcome {
    if schema == "" && source.None? && refresh.None? then Pass
    else
      Check(lib.schemaParses(schema), SchemaValidationError("schema"))
      .Then(match lib.schemaEntries(schema) case Ok(_) => Pass case Err(e) => Fail(e))
  }

  function SchemaEntries(lib: Libraries, schema: Text): nat {
    match lib.schemaEntries(schema) case Ok(n) => n case Err(_) => 0
  }

  /** A stored label text must still parse and fit the new schema. */
  function StoredLabelsVerdict(lib: Libraries, a: Active, schema: Text): Outcome {
    if a.labels.content == "" then Pass
    else match lib.parseLabels(a.labels.content)
         case Err(e) => Fail(e)
         case Ok(_) => lib.labelsFit(a.labels.content, schema)
  }

  function SchemaVerdict(lib: Libraries, mode: SchemaMode, a: Active, schema: Text, source: Option<Endpoint>,
                         refresh: Option<nat>): Outcome
  {
    SchemaRecordVerdict(lib, schema, source.Or(a.schema.source), refresh.Or(a.schema.refresh))
    .Then(Check(lib.schemaParses(schema), SchemaValidationError("schema")))
    .Then(StoredLabelsVerdict(lib, a, schema))
    .Then(BuildVerdict(lib, mode, a.policies.content, Some(schema), a.labelers, a.labels.sha256))
  }

  function PublishSchema(lib: Libraries, a: Active, schema: Text, source: Option<Endpoint>, refresh: Option<nat>,
                         now: nat): Active
  {
    Rebuilt(lib, a, a.policies.content, Some(schema), a.labelers, a.labels.sha256)
    .(schema := NewRecord(lib, schema, source.Or(a.schema.source), refresh.Or(a.schema.refresh),
                          SchemaEntries(lib, schema), now))
  }

  /** `set_schema`: the listing caches are left alone. */
  function SetSchema(lib: Libraries, s: Store, schema: Text, source: Option<Endpoint>, refresh: Option<nat>,
                     now: nat): (Store, Outcome)
  {
    var verdict := SchemaVerdict(lib, s.mode, s.active, schema, source, refresh);
    if verdict.Fail? then (s, verdict)
    else (s.(active := PublishSchema(lib, s.active, schema, source, refresh, now)), Pass)
  }

  function LabelsVerdict(lib: Libraries, mode: SchemaMode, a: Active, labels: Text): Outcome {
    match lib.parseLabels(labels)
    case Err(e) => Fail(e)
    case Ok(parsed) =>
      (if a.schema.content == "" then Pass else lib.labelsFit(labels, a.schema.content))
      .Then(StoredSchemaVerdict(lib, a))
      .Then(BuildVerdict(lib, mode, a.policies.content, StoredSchema(a), parsed.labelers, lib.digest(labels)))
  }

  function PublishLabels(lib: Libraries, a: Active, labels: Text, parsed: LabelSet, source: Option<Endpoint>,
                         refresh: Option<nat>, now: nat): Active
  {
    Rebuilt(lib, a, a.policies.content, StoredSchema(a), parsed.labelers, lib.digest(labels))
    .(labelers := parsed.labelers,
      labels := Record(lib, labels, source.Or(a.labels.source), refresh.Or(a.labels.refresh), parsed.rules, now))
  }

  /** `set_labels`: like `set_dsl`, published before the caches are cleared. */
  function SetLabels(lib: Libraries, s: Store, labels: Text, source: Option<Endpoint>, refresh: Option<nat>,
                     now: nat): (Store, Outcome)
  {
    var verdict := LabelsVerdict(lib, s.mode, s.active, labels);
    if verdict.Fail? then (s, verdict)
    else (s.(active := PublishLabels(lib, s.active, labels, lib.parseLabels(labels).value, source, refresh, now),
            caches := s.caches.Cleared()),
          s.caches.ClearVerdict())
  }

  // ----- Bundles ----------------------------------------------------------------------------

  /** A prepared bundle is the active content it will install. */
  type PreparedBundle = Active

  function BundleSchemaVerdict(mode: SchemaMode, schemaPresent: bool): Outcome {
    Check(mode.Strict? ==> schemaPresent, SchemaValidationError("no schema"))
  }

  /** `prepare_bundle_with_engine_mode`. */
  function Prepare(lib: Libraries, b: ValidatedBundle, source: Option<Endpoint>, refresh: Option<nat>,
                   mode: SchemaMode, layout: Layout, now: nat): (r: Result<PreparedBundle, ServiceError>)
  {
    if BundleSchemaVerdict(mode, b.schema.Some?).Fail? then Err(BundleSchemaVerdict(mode, b.schema.Some?).error)
    else match (lib.prepareEngine(b, layout), b.labelsJson, BundleSchemaJson(b))
      case (Err(e), _, _) => Err(e)
      case (_, Err(e), _) => Err(e)
      case (_, _, Err(e)) => Err(e)
      case (Ok(engine), Ok(labels), Ok(schema)) =>
        Ok(Active(
             engine,
             if b.schema.Some? then SchemaBacked else NoSchema,
             Record(lib, b.policies, source, refresh, b.policyIds, now),
             Record(lib, labels, source, refresh, b.labels.rules, now),
             Record(lib, schema, source, refresh, if b.schema.Some? then b.schema.value.entries else 0, now),
             b.labels.labelers,
             Some(BundleMetadata(b.info, source, refresh, now))))
  }

  function BundleSchemaJson(b: ValidatedBundle): Result<Text, ServiceError> {
    if b.schema.Some? then b.schema.value.json else Ok("")
  }

  /** `apply_prepared_bundle`: the caches are cleared before anything is published. */
  function ApplyPrepared(s: Store, p: PreparedBundle): (Store, Outcome) {
    var verdict := BundleSchemaVerdict(s.mode, p.schema.content != "").Then(s.caches.ClearVerdict());
    if BundleSchemaVerdict(s.mode, p.schema.content != "").Fail? then (s, verdict)
    else (s.(active := if verdict.Pass? then p else s.active, caches := s.caches.Cleared()), verdict)
  }

  // ----- Remote sources ---------------------------------------------------------------------

  function WithOrigin(a: Active, kind: SourceKind, source: Endpoint, refresh: nat): Active {
    match kind
    case Policies => a.(policies := a.policies.(source := Some(source), refresh := Some(refresh)))
    case Labels => a.(labels := a.labels.(source := Some(source), refresh := Some(refresh)))
    case Schema => a.(schema := a.schema.(source := Some(source), refresh := Some(refresh)))
    case Bundle => a
  }

  function ConfigureSource(s: Store, kind: SourceKind, source: Endpoint, refresh: nat): Store {
    s.(active := WithOrigin(s.active, kind, source, refresh),
       bundleUrlMode := s.bundleUrlMode || kind.Bundle?,
       remote := s.remote.With(kind, s.remote.Of(kind).Configure(source, refresh)))
  }

  /** A component mark also restores the configured origin in the component's metadata. */
  function MarkLoaded(s: Store, kind: SourceKind): Store {
    s.(remote := s.remote.With(kind, s.remote.Of(kind).(loaded := true)),
       active := match s.remote.Of(kind).configuration
                 case None => s.active
                 case Some((source, refresh)) => WithOrigin(s.active, kind, source, refresh))
  }

  predicate SourcesLoaded(s: Store) {
    if s.bundleUrlMode then s.remote.bundle.Ready(true)
    else
      && s.remote.policies.Ready(s.active.policies.source.Some?)
      && s.remote.labels.Ready(s.active.labels.source.Some?)
      && s.remote.schema.Ready(s.active.schema.source.Some?)
  }

  // ----- Listing ----------------------------------------------------------------------------

  /** A listing with no other reader between its two critical sections: get, and on a miss compute and put. */
  function List(lib: Libraries, s: Store, form: ListForm, key: ListKey): (Store, Result<Listing, ServiceError>) {
    if s.caches.Poisoned(form) then (s, Err(ListPoliciesError("poisoned")))
    else
      var hit := Lru.Lookup(s.caches.Of(form), key);
      var computed := lib.list(form, s.active.engine, key);
      if hit.Some? then (s.(caches := s.caches.With(form, Lru.Touch(s.caches.Of(form), key))), Ok(hit.value))
      else if computed.Err? then (s, computed)
      else (s.(caches := s.caches.With(form, Lru.Put(s.caches.Of(form), key, computed.value, CACHE_LIMIT))), computed)
  }

  // ----- Events and runs --------------------------------------------------------------------

  datatype Event =
    | UpdateDsl(text: Text, source: Option<Endpoint>, refresh: Option<nat>, now: nat)
    | UpdateSchema(text: Text, source: Option<Endpoint>, refresh: Option<nat>, now: nat)
    | UpdateLabels(text: Text, source: Option<Endpoint>, refresh: Option<nat>, now: nat)
    | InstallBundle(b: ValidatedBundle, source: Option<Endpoint>, refresh: Option<nat>,
                    preparedUnder: SchemaMode, layout: Layout, now: nat)
    | SetMode(mode: SchemaMode)
    | Configure(kind: SourceKind, endpoint: Endpoint, every: nat)
    | Mark(kind: SourceKind)
    | AnswerList(form: ListForm, key: ListKey)
    | Poison(form: ListForm)

  /** One call on the store.  A bundle may have been prepared under another mode than the current one. */
  function Step(lib: Libraries, s: Store, e: Event): (Store, Outcome) {
    match e
    case UpdateDsl(text, source, refresh, now) => SetDsl(lib, s, text, source, refresh, now)
    case UpdateSchema(text, source, refresh, now) => SetSchema(lib, s, text, source, refresh, now)
    case UpdateLabels(text, source, refresh, now) => SetLabels(lib, s, text, source, refresh, now)
    case InstallBundle(b, source, refresh, preparedUnder, layout, now) =>
      (match Prepare(lib, b, source, refresh, preparedUnder, layout, now)
       case Err(error) => (s, Fail(error))
       case Ok(prepared) => ApplyPrepared(s, prepared))
    case SetMode(mode) => (s.(mode := mode), Pass)
    case Configure(kind, endpoint, every) => (ConfigureSource(s, kind, endpoint, every), Pass)
    case Mark(kind) => (MarkLoaded(s, kind), Pass)
    case AnswerList(form, key) => (List(lib, s, form, key).0, Pass)
    case Poison(RawForm) => (s.(caches := s.caches.(rawPoisoned := true)), Pass)
    case Poison(JsonForm) => (s.(caches := s.caches.(jsonPoisoned := true)), Pass)
  }

  function Run(lib: Libraries, s: Store, events: seq<Event>): Store {
    if events == [] then s
    else Step(lib, Run(lib, s, events[..|events| - 1]), events[|events| - 1]).0
  }
}
