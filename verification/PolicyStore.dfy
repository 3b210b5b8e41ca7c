/** `PolicyStore`: the object the server shares, each method proved to do what `StoreSpec` says. */
module PolicyStores {
  import opened Basics
  import opened Engines
  import opened StoreSpec
  import Lru
  import ListKeys

  class PolicyStore {
    const lib: Libraries

    var engine: Engine
    var mode: SchemaMode
    var status: ContextStatus
    var policies: Metadata
    var labels: Metadata
    var schema: Metadata
    var bundle: Option<BundleMetadata>
    var bundleUrlMode: bool
    var labelers: seq<Labeler>
    var remote: RemoteLoads
    var rawCache: ListCache
    var jsonCache: ListCache
    var rawPoisoned: bool
    var jsonPoisoned: bool
    var allowUpload: bool
    var uploadToken: Option<string>

    /** The value of the whole object. */
    ghost function State(): Store
      reads this
    {
      Store(Content(), Caches(rawCache, jsonCache, rawPoisoned, jsonPoisoned), mode, bundleUrlMode, remote,
            allowUpload, uploadToken)
    }

    ghost function Content(): Active
      reads this
    {
      Active(engine, status, policies, labels, schema, labelers, bundle)
    }

    constructor (lib: Libraries)
      ensures this.lib == lib && State() == EMPTY_STORE
    {
      this.lib := lib;
      engine, mode, status := Engine("", None, None, Monolithic), Permissive, NoSchema;
      policies, labels, schema := NO_CONTENT, NO_CONTENT, NO_CONTENT;
      bundle, bundleUrlMode, labelers := None, false, [];
      remote := RemoteLoads(NO_SOURCE, NO_SOURCE, NO_SOURCE, NO_SOURCE);
      rawCache, jsonCache, rawPoisoned, jsonPoisoned := [], [], false, false;
      allowUpload, uploadToken := false, None;
    }

    method EnsureSchemaPresentForPolicyReload() returns (v: Outcome)
      ensures v == SchemaPresentVerdict(mode, Content())
    {
      if mode.Strict? && schema.content == "" {
        return Fail(SchemaValidationError("no schema"));
      }
      return Pass;
    }

    method CurrentSchema() returns (r: Result<Option<Text>, ServiceError>)
      ensures r == if StoredSchemaVerdict(lib, Content()).Fail? then Err(StoredSchemaVerdict(lib, Content()).error)
                   else Ok(StoredSchema(Content()))
    {
      if schema.content == "" {
        return Ok(None);
      }
      if !lib.schemaParses(schema.content) {
        return Err(SchemaValidationError("schema"));
      }
      return Ok(Some(schema.content));
    }

    /** Drops the schema in permissive mode, and fails in strict mode, when the policies do not validate. */
    method RuntimeSchemaForDsl(dsl: Text, given: Option<Text>)
      returns (r: Result<(Option<Text>, ContextStatus), ServiceError>)
      ensures r.Ok? ==> r.value == (RuntimeSchema(lib, dsl, given), StatusOf(lib, dsl, given))
      ensures r.Err? <==> mode.Strict? && given.Some? && lib.validates(dsl, given.value).Fail?
      ensures r.Err? ==> r.error == lib.validates(dsl, given.value).error
    {
      if given.None? {
        return Ok((None, NoSchema));
      }
      var verdict := lib.validates(dsl, given.value);
      if verdict.Pass? {
        return Ok((given, SchemaBacked));
      } else if mode.Permissive? {
        return Ok((None, SchemaIncompatible));
      }
      return Err(verdict.error);
    }

    method BuildEngineFromParts(dsl: Text, runtimeSchema: Option<Text>, parts: seq<Labeler>, version: Digest)
      returns (r: Result<Engine, ServiceError>)
      ensures var registry := RegistryOf(parts, version);
              var verdict :=
                lib.compiles(dsl, runtimeSchema).Then(if registry.Some? then lib.registers(registry.value) else Pass);
              r == if verdict.Fail? then Err(verdict.error) else Ok(Engine(dsl, runtimeSchema, registry, Monolithic))
    {
      var compiled := lib.compiles(dsl, runtimeSchema);
      if compiled.Fail? {
        return Err(compiled.error);
      }
      var built := Engine(dsl, runtimeSchema, None, Monolithic);
      if parts != [] {
        var registered := lib.registers(Registry(version, parts));
        if registered.Fail? {
          return Err(registered.error);
        }
        built := built.(registry := Some(Registry(version, parts)));
      }
      return Ok(built);
    }

    method RebuildEngine(dsl: Text, given: Option<Text>, parts: seq<Labeler>, version: Digest) returns (v: Outcome)
      modifies this`engine, this`status
      ensures v == BuildVerdict(lib, mode, dsl, given, parts, version)
      ensures v.Pass? ==>
        Content() == old(Content()).(engine := Build(lib, dsl, given, parts, version),
                                     status := StatusOf(lib, dsl, given))
      ensures v.Fail? ==> Content() == old(Content())
    {
      var runtime := RuntimeSchemaForDsl(dsl, given);
      if runtime.Err? {
        return Fail(runtime.error);
      }
      var built := BuildEngineFromParts(dsl, runtime.value.0, parts, version);
      if built.Err? {
        return Fail(built.error);
      }
      engine := built.value;
      status := runtime.value.1;
      return Pass;
    }

    method ClearListPoliciesCache() returns (v: Outcome)
      modifies this`rawCache, this`jsonCache
      ensures State() == old(State()).(caches := old(State()).caches.Cleared())
      ensures v == old(State()).caches.ClearVerdict()
    {
      if rawPoisoned {
        return Fail(ListPoliciesError("poisoned"));
      }
      rawCache := [];
      if jsonPoisoned {
        return Fail(ListPoliciesError("poisoned"));
      }
      jsonCache := [];
      return Pass;
    }

    /** The fallible part of `set_dsl`: all its checks, then engine and status. */
    method RebuildForDsl(dsl: Text) returns (v: Outcome)
      modifies this`engine, this`status
      ensures v == DslVerdict(lib, mode, old(Content()), dsl)
      ensures v.Fail? ==> Content() == old(Content())
      ensures v.Pass? ==>
        var was := old(Content());
        Content() == was.(engine := Build(lib, dsl, StoredSchema(was), was.labelers, was.labels.sha256),
                          status := StatusOf(lib, dsl, StoredSchema(was)))
    {
      v := EnsureSchemaPresentForPolicyReload();
      if v.Fail? {
        return;
      }
      var stored := CurrentSchema();
      if stored.Err? {
        return Fail(stored.error);
      }
      v := RebuildEngine(dsl, stored.value, labelers, labels.sha256);
    }

    /** `set_dsl` up to the clearing of the caches. */
    method InstallDsl(dsl: Text, source: Option<Endpoint>, refresh: Option<nat>, now: nat) returns (v: Outcome)
      modifies this`engine, this`status, this`policies, this`bundle
      ensures v == DslVerdict(lib, mode, old(Content()), dsl)
      ensures Content() == if v.Fail? then old(Content())
                           else PublishDsl(lib, old(Content()), dsl, source, refresh, now)
    {
      var record := NewRecord(lib, dsl, source.Or(policies.source), refresh.Or(policies.refresh),
                              lib.policyEntries(dsl), now);
      v := RebuildForDsl(dsl);
      if v.Pass? {
        policies := record;
        bundle := None;
      }
    }

    method SetDsl(dsl: Text, source: Option<Endpoint>, refresh: Option<nat>, now: nat) returns (v: Outcome)
      modifies this
      ensures State() == StoreSpec.SetDsl(lib, old(State()), dsl, source, refresh, now).0
      ensures v == StoreSpec.SetDsl(lib, old(State()), dsl, source, refresh, now).1
    {
      v := InstallDsl(dsl, source, refresh, now);
      if v.Pass? {
        v := ClearListPoliciesCache();
      }
    }

    /** The checks `set_schema` makes before it rebuilds the engine. */
    method CheckSchema(text: Text, source: Option<Endpoint>, refresh: Option<nat>) returns (v: Outcome)
      ensures v == SchemaRecordVerdict(lib, text, source, refresh)
                   .Then(Check(lib.schemaParses(text), SchemaValidationError("schema")))
                   .Then(StoredLabelsVerdict(lib, Content(), text))
    {
      v := SchemaRecordVerdict(lib, text, source, refresh);
      if v.Fail? {
        return;
      }
      if !lib.schemaParses(text) {
        return Fail(SchemaValidationError("schema"));
      }
      if labels.content != "" {
        var parsed := lib.parseLabels(labels.content);
        if parsed.Err? {
          return Fail(parsed.error);
        }
        v := lib.labelsFit(labels.content, text);
      }
    }

    /** The fallible part of `set_schema`: all its checks, then engine and status. */
    method RebuildForSchema(text: Text, source: Option<Endpoint>, refresh: Option<nat>) returns (v: Outcome)
      modifies this`engine, this`status
      ensures v == SchemaVerdict(lib, mode, old(Content()), text, source, refresh)
      ensures v.Fail? ==> Content() == old(Content())
      ensures v.Pass? ==>
        var was := old(Content());
        Content() == was.(engine := Build(lib, was.policies.content, Some(text), was.labelers, was.labels.sha256),
                          status := StatusOf(lib, was.policies.content, Some(text)))
    {
      v := CheckSchema(text, source.Or(schema.source), refresh.Or(schema.refresh));
      if v.Pass? {
        v := RebuildEngine(policies.content, Some(text), labelers, labels.sha256);
      }
    }

    method InstallSchema(text: Text, source: Option<Endpoint>, refresh: Option<nat>, now: nat) returns (v: Outcome)
      modifies this`engine, this`status, this`schema, this`bundle
      ensures v == SchemaVerdict(lib, mode, old(Content()), text, source, refresh)
      ensures Content() == if v.Fail? then old(Content())
                           else PublishSchema(lib, old(Content()), text, source, refresh, now)
    {
      var record := NewRecord(lib, text, source.Or(schema.source), refresh.Or(schema.refresh),
                              SchemaEntries(lib, text), now);
      v := RebuildForSchema(text, source, refresh);
      if v.Pass? {
        schema := record;
        bundle := None;
      }
    }

    method SetSchema(text: Text, source: Option<Endpoint>, refresh: Option<nat>, now: nat) returns (v: Outcome)
      modifies this
      ensures State() == StoreSpec.SetSchema(lib, old(State()), text, source, refresh, now).0
      ensures v == StoreSpec.SetSchema(lib, old(State()), text, source, refresh, now).1
    {
      v := InstallSchema(text, source, refresh, now);
    }

    /** The checks `set_labels` makes before it rebuilds the engine, with the schema it will build for. */
    method CheckLabels(text: Text) returns (v: Outcome, parsed: LabelSet, stored: Option<Text>)
      ensures v.Pass? ==>
        && lib.parseLabels(text) == Ok(parsed) && stored == StoredSchema(Content())
        && LabelsVerdict(lib, mode, Content(), text)
           == BuildVerdict(lib, mode, policies.content, stored, parsed.labelers, lib.digest(text))
      ensures v.Fail? ==> LabelsVerdict(lib, mode, Content(), text) == v
    {
      parsed, stored := LabelSet(0, []), None;
      var result := lib.parseLabels(text);
      if result.Err? {
        v := Fail(result.error);
        return;
      }
      parsed, v := result.value, Pass;
      if schema.content != "" {
        v := lib.labelsFit(text, schema.content);
        if v.Fail? {
          return;
        }
      }
      var current := CurrentSchema();
      if current.Err? {
        v := Fail(current.error);
        return;
      }
      stored := current.value;
    }

    /** The fallible part of `set_labels`: all its checks, then engine and status. */
    method RebuildForLabels(text: Text) returns (v: Outcome, parsed: LabelSet)
      modifies this`engine, this`status
      ensures v == LabelsVerdict(lib, mode, old(Content()), text)
      ensures v.Fail? ==> Content() == old(Content())
      ensures v.Pass? ==>
        var was := old(Content());
        && lib.parseLabels(text) == Ok(parsed)
        && Content() == was.(engine := Build(lib, was.policies.content, StoredSchema(was), parsed.labelers,
                                             lib.digest(text)),
                             status := StatusOf(lib, was.policies.content, StoredSchema(was)))
    {
      var stored;
      v, parsed, stored := CheckLabels(text);
      if v.Pass? {
        v := RebuildEngine(policies.content, stored, parsed.labelers, lib.digest(text));
      }
    }

    /** `set_labels` up to the clearing of the caches. */
    method InstallLabels(text: Text, source: Option<Endpoint>, refresh: Option<nat>, now: nat) returns (v: Outcome)
      modifies this`engine, this`status, this`labelers, this`labels, this`bundle
      ensures v == LabelsVerdict(lib, mode, old(Content()), text)
      ensures v.Pass? ==> lib.parseLabels(text).Ok?
      ensures Content() == if v.Fail? then old(Content())
                           else PublishLabels(lib, old(Content()), text, lib.parseLabels(text).value,
                                              source, refresh, now)
    {
      var parsed;
      v, parsed := RebuildForLabels(text);
      if v.Pass? {
        labels := Record(lib, text, source.Or(labels.source), refresh.Or(labels.refresh), parsed.rules, now);
        labelers := parsed.labelers;
        bundle := None;
      }
    }

    method SetLabels(text: Text, source: Option<Endpoint>, refresh: Option<nat>, now: nat) returns (v: Outcome)
      modifies this
      ensures State() == StoreSpec.SetLabels(lib, old(State()), text, source, refresh, now).0
      ensures v == StoreSpec.SetLabels(lib, old(State()), text, source, refresh, now).1
    {
      v := InstallLabels(text, source, refresh, now);
      if v.Pass? {
        v := ClearListPoliciesCache();
      }
    }

    /** Replaces all content at once. */
    method Publish(prepared: PreparedBundle)
      modifies this`engine, this`policies, this`labels, this`schema, this`labelers, this`status, this`bundle
      ensures Content() == prepared
    {
      engine := prepared.engine;
      policies := prepared.policies;
      labels := prepared.labels;
      schema := prepared.schema;
      labelers := prepared.labelers;
      status := prepared.status;
      bundle := prepared.bundle;
    }

    method ApplyPreparedBundle(prepared: PreparedBundle) returns (v: Outcome)
      modifies this
      ensures State() == ApplyPrepared(old(State()), prepared).0
      ensures v == ApplyPrepared(old(State()), prepared).1
    {
      v := BundleSchemaVerdict(mode, prepared.schema.content != "");
      if v.Fail? {
        return;
      }
      v := ClearListPoliciesCache();
      if v.Fail? {
        return;
      }
      Publish(prepared);
    }

    method SetSchemaValidationMode(m: SchemaMode)
      modifies this`mode
      ensures State() == old(State()).(mode := m)
    {
      mode := m;
    }

    method ConfigureRemoteSource(kind: SourceKind, source: Endpoint, refresh: nat)
      modifies this
      ensures State() == ConfigureSource(old(State()), kind, source, refresh)
    {
      match kind
      case Policies =>
        policies := policies.(source := Some(source), refresh := Some(refresh));
        remote := remote.(policies := remote.policies.Configure(source, refresh));
      case Labels =>
        labels := labels.(source := Some(source), refresh := Some(refresh));
        remote := remote.(labels := remote.labels.Configure(source, refresh));
      case Schema =>
        schema := schema.(source := Some(source), refresh := Some(refresh));
        remote := remote.(schema := remote.schema.Configure(source, refresh));
      case Bundle =>
        bundleUrlMode := true;
        remote := remote.(bundle := remote.bundle.Configure(source, refresh));
    }

    method MarkRemoteSourceLoaded(kind: SourceKind)
      modifies this
      ensures State() == MarkLoaded(old(State()), kind)
    {
      var configuration := remote.Of(kind).configuration;
      match kind
      case Policies =>
        remote := remote.(policies := remote.policies.(loaded := true));
        if configuration.Some? {
          policies := policies.(source := Some(configuration.value.0), refresh := Some(configuration.value.1));
        }
      case Labels =>
        remote := remote.(labels := remote.labels.(loaded := true));
        if configuration.Some? {
          labels := labels.(source := Some(configuration.value.0), refresh := Some(configuration.value.1));
        }
      case Schema =>
        remote := remote.(schema := remote.schema.(loaded := true));
        if configuration.Some? {
          schema := schema.(source := Some(configuration.value.0), refresh := Some(configuration.value.1));
        }
      case Bundle =>
        remote := remote.(bundle := remote.bundle.(loaded := true));
    }

    method ConfiguredSourcesLoaded() returns (ready: bool)
      ensures ready == SourcesLoaded(State())
    {
      if bundleUrlMode {
        return remote.bundle.Ready(true);
      }
      return
        && remote.policies.Ready(policies.source.Some?)
        && remote.labels.Ready(labels.source.Some?)
        && remote.schema.Ready(schema.source.Some?);
    }

    /** `list_policies_raw` and `list_policies_json`, which differ in form and cache only. */
    method ListPolicies(form: ListForm, user: string, groups: seq<string>, namespaces: seq<string>)
      returns (r: Result<Listing, ServiceError>)
      modifies this`rawCache, this`jsonCache
      ensures (State(), r) == List(lib, old(State()), form, ListKeys.NewKey(user, groups, namespaces))
    {
      var key := ListKeys.NewKey(user, groups, namespaces);
      if (if form.RawForm? then rawPoisoned else jsonPoisoned) {
        return Err(ListPoliciesError("poisoned"));
      }
      var cache := if form.RawForm? then rawCache else jsonCache;
      var hit := Lru.Lookup(cache, key);
      if hit.Some? {
        cache := Lru.Touch(cache, key);
        if form.RawForm? { rawCache := cache; } else { jsonCache := cache; }
        return Ok(hit.value);
      }
      r := lib.list(form, engine, key);
      if r.Err? {
        return;
      }
      cache := Lru.Put(cache, key, r.value, CACHE_LIMIT);
      if form.RawForm? { rawCache := cache; } else { jsonCache := cache; }
    }
  }
}
