/** Exactly when each call on the store is accepted, and what an accepted call leaves in terms of its inputs. */
module Acceptance {
  import opened Basics
  import opened Engines
  import opened StoreSpec
  import opened Coherence

  // ----- Component updates ------------------------------------------------------------------

  /** The runtime schema of a policy text over a stored schema, if any. */
  function BackedBy(lib: Libraries, dsl: Text, schema: Text): Option<Text> {
    if schema != "" && lib.validates(dsl, schema).Pass? then Some(schema) else None
  }

  predicate Registers(lib: Libraries, labelers: seq<Labeler>, version: Digest) {
    labelers != [] ==> lib.registers(Registry(version, labelers)).Pass?
  }

  /** A policy text is accepted exactly if strict mode has a schema, a stored schema parses and in strict mode
      validates the text, the text compiles with the schema that backs it, and the stored labels register. */
  lemma DslAcceptedExactly(lib: Libraries, mode: SchemaMode, a: Active, dsl: Text)
    ensures DslVerdict(lib, mode, a, dsl).Pass? <==>
            && (mode.Strict? ==> a.schema.content != "")
            && (a.schema.content != "" ==>
                  && lib.schemaParses(a.schema.content)
                  && (mode.Strict? ==> lib.validates(dsl, a.schema.content).Pass?))
            && lib.compiles(dsl, BackedBy(lib, dsl, a.schema.content)).Pass?
            && Registers(lib, a.labelers, a.labels.sha256)
  {}

  /** A schema is accepted exactly if it parses and, unless it is the empty default, its entries can be counted, the
      stored labels fit it, strict mode's policies validate against it, and they compile with it or without. */
  lemma SchemaAcceptedExactly(lib: Libraries, mode: SchemaMode, a: Active, schema: Text,
                              source: Option<Endpoint>, refresh: Option<nat>)
    requires EmptyTextIsNoDocument(lib)
    ensures SchemaVerdict(lib, mode, a, schema, source, refresh).Pass? <==>
            && lib.schemaParses(schema) && lib.schemaEntries(schema).Ok?
            && (a.labels.content != "" ==>
                  lib.parseLabels(a.labels.content).Ok? && lib.labelsFit(a.labels.content, schema).Pass?)
            && (mode.Strict? ==> lib.validates(a.policies.content, schema).Pass?)
            && lib.compiles(a.policies.content, BackedBy(lib, a.policies.content, schema)).Pass?
            && Registers(lib, a.labelers, a.labels.sha256)
  {}

  /** Labels are accepted exactly if they parse, fit a stored schema, which must itself parse and in strict mode
      validate the policies, and the stored policies build with them. */
  lemma LabelsAcceptedExactly(lib: Libraries, mode: SchemaMode, a: Active, labels: Text)
    ensures LabelsVerdict(lib, mode, a, labels).Pass? <==>
            && lib.parseLabels(labels).Ok?
            && (a.schema.content != "" ==>
                  && lib.labelsFit(labels, a.schema.content).Pass? && lib.schemaParses(a.schema.content)
                  && (mode.Strict? ==> lib.validates(a.policies.content, a.schema.content).Pass?))
            && lib.compiles(a.policies.content, BackedBy(lib, a.policies.content, a.schema.content)).Pass?
            && Registers(lib, lib.parseLabels(labels).value.labelers, lib.digest(labels))
  {}

  /** With sound cache mutexes an update passes exactly if its checks do. */
  lemma UpdateAcceptedExactly(lib: Libraries, s: Store, e: Event)
    requires !s.caches.rawPoisoned && !s.caches.jsonPoisoned
    ensures e.UpdateDsl? ==> (Step(lib, s, e).1.Pass? <==> DslVerdict(lib, s.mode, s.active, e.text).Pass?)
    ensures e.UpdateSchema? ==>
              (Step(lib, s, e).1.Pass? <==> SchemaVerdict(lib, s.mode, s.active, e.text, e.source, e.refresh).Pass?)
    ensures e.UpdateLabels? ==> (Step(lib, s, e).1.Pass? <==> LabelsVerdict(lib, s.mode, s.active, e.text).Pass?)
  {}

  /** Without a stored schema a text that does not compile is refused in permissive mode with the compile error, and
      any text in strict mode for want of a schema; the store stays as it is. */
  lemma WithoutSchemaRefused(lib: Libraries, s: Store, dsl: Text, source: Option<Endpoint>, refresh: Option<nat>,
                             now: nat)
    requires s.active.schema.content == ""
    ensures s.mode.Permissive? && lib.compiles(dsl, None).Fail? ==>
              Step(lib, s, UpdateDsl(dsl, source, refresh, now)) == (s, lib.compiles(dsl, None))
    ensures s.mode.Strict? ==>
              Step(lib, s, UpdateDsl(dsl, source, refresh, now)) == (s, Fail(SchemaValidationError("no schema")))
  {}

  /** Over a parsing stored schema the first failure is reported: strict validation, then compilation, then labels. */
  lemma FirstFailureReported(lib: Libraries, mode: SchemaMode, a: Active, dsl: Text)
    requires a.schema.content != "" && lib.schemaParses(a.schema.content)
    ensures var validated := lib.validates(dsl, a.schema.content);
            var compiled := lib.compiles(dsl, BackedBy(lib, dsl, a.schema.content));
            && (mode.Strict? && validated.Fail? ==> DslVerdict(lib, mode, a, dsl) == validated)
            && ((mode.Permissive? || validated.Pass?) && compiled.Fail? ==> DslVerdict(lib, mode, a, dsl) == compiled)
            && ((mode.Permissive? || validated.Pass?) && compiled.Pass? && a.labelers != [] ==>
                  DslVerdict(lib, mode, a, dsl) == lib.registers(Registry(a.labels.sha256, a.labelers)))
  {}

  /** Why a schema is refused: it does not parse, its entries cannot be counted, stored labels do not parse or fit; only
      then does the rebuilding decide. */
  lemma SchemaFirstFailure(lib: Libraries, mode: SchemaMode, a: Active, schema: Text,
                           source: Option<Endpoint>, refresh: Option<nat>)
    requires EmptyTextIsNoDocument(lib)
    ensures var verdict := SchemaVerdict(lib, mode, a, schema, source, refresh);
            if !lib.schemaParses(schema) then verdict == Fail(SchemaValidationError("schema"))
            else if lib.schemaEntries(schema).Err? then verdict == Fail(lib.schemaEntries(schema).error)
            else if a.labels.content != "" && lib.parseLabels(a.labels.content).Err? then
              verdict == Fail(lib.parseLabels(a.labels.content).error)
            else if a.labels.content != "" && lib.labelsFit(a.labels.content, schema).Fail? then
              verdict == lib.labelsFit(a.labels.content, schema)
            else if mode.Strict? && lib.validates(a.policies.content, schema).Fail? then
              verdict == lib.validates(a.policies.content, schema)
            else lib.compiles(a.policies.content, BackedBy(lib, a.policies.content, schema)).Fail? ==>
              verdict == lib.compiles(a.policies.content, BackedBy(lib, a.policies.content, schema))
  {}

  /** Why labels are refused: they do not parse, or do not fit a stored schema; only then does the rebuilding decide. */
  lemma LabelsFirstFailure(lib: Libraries, mode: SchemaMode, a: Active, labels: Text)
    ensures var verdict := LabelsVerdict(lib, mode, a, labels);
            if lib.parseLabels(labels).Err? then verdict == Fail(lib.parseLabels(labels).error)
            else if a.schema.content != "" && lib.labelsFit(labels, a.schema.content).Fail? then
              verdict == lib.labelsFit(labels, a.schema.content)
            else if a.schema.content != "" && !lib.schemaParses(a.schema.content) then
              verdict == Fail(SchemaValidationError("schema"))
            else if a.schema.content != "" && mode.Strict?
                    && lib.validates(a.policies.content, a.schema.content).Fail? then
              verdict == lib.validates(a.policies.content, a.schema.content)
            else lib.compiles(a.policies.content, BackedBy(lib, a.policies.content, a.schema.content)).Fail? ==>
              verdict == lib.compiles(a.policies.content, BackedBy(lib, a.policies.content, a.schema.content))
  {}

  // ----- Built engines ----------------------------------------------------------------------

  /** The policies compile with the engine's schema, and the label registry could be built. */
  predicate Built(lib: Libraries, a: Active) {
    && lib.compiles(a.policies.content, a.engine.schema).Pass?
    && (a.engine.registry.Some? ==> lib.registers(a.engine.registry.value).Pass?)
  }

  lemma InstalledUpdateBuilt(lib: Libraries, s: Store, e: Event)
    requires Installs(lib, s, e).Some? && !e.InstallBundle?
    ensures Built(lib, Installs(lib, s, e).value)
  {}

  /** What an accepted update publishes has compiled, and its labels have registered. */
  lemma AcceptedUpdateBuilt(lib: Libraries, s: Store, e: Event)
    requires e.UpdateDsl? || e.UpdateSchema? || e.UpdateLabels?
    requires Step(lib, s, e).1.Pass?
    ensures Built(lib, Step(lib, s, e).0.active)
  {
    StepContent(lib, s, e);
    InstalledUpdateBuilt(lib, s, e);
  }

  /** In every reachable store whose content is not a bundle's, the stored policies have compiled. */
  lemma {:induction false} ReachableStoreBuilt(lib: Libraries, mode: SchemaMode, events: seq<Event>)
    requires lib.compiles("", None).Pass?
    ensures var a := Run(lib, EMPTY_STORE.(mode := mode), events).active; a.bundle.None? ==> Built(lib, a)
  {
    if events != [] {
      var n := |events| - 1;
      var before := Run(lib, EMPTY_STORE.(mode := mode), events[..n]);
      ReachableStoreBuilt(lib, mode, events[..n]);
      StepContent(lib, before, events[n]);
      if Installs(lib, before, events[n]).Some? && !events[n].InstallBundle? {
        InstalledUpdateBuilt(lib, before, events[n]);
      }
    }
  }

  // ----- Bundles ----------------------------------------------------------------------------

  /** The record of bundle content: text, digest, count and origin. */
  predicate BundleRecord(lib: Libraries, m: Metadata, text: Text, entries: nat,
                         source: Option<Endpoint>, refresh: Option<nat>, now: nat)
  {
    && m.content == text && m.sha256 == lib.digest(text) && m.entries == entries
    && m.source == source && m.refresh == refresh && m.timestamp == now
  }

  /** A prepared bundle holds that bundle and nothing else: its three texts with their own counts and the given
      origin, its engine in the asked layout, its label handles and its description. */
  lemma PreparedRecords(lib: Libraries, b: ValidatedBundle, source: Option<Endpoint>, refresh: Option<nat>,
                        mode: SchemaMode, layout: Layout, now: nat)
    requires Prepare(lib, b, source, refresh, mode, layout, now).Ok?
    ensures var p := Prepare(lib, b, source, refresh, mode, layout, now).value;
            && BundleRecord(lib, p.policies, b.policies, b.policyIds, source, refresh, now)
            && b.labelsJson.Ok? && BundleRecord(lib, p.labels, b.labelsJson.value, b.labels.rules, source, refresh, now)
            && (b.schema.Some? ==>
                  && b.schema.value.json.Ok?
                  && BundleRecord(lib, p.schema, b.schema.value.json.value, b.schema.value.entries,
                                  source, refresh, now))
            && (b.schema.None? ==> BundleRecord(lib, p.schema, "", 0, source, refresh, now))
            && lib.prepareEngine(b, layout) == Ok(p.engine)
            && p.labelers == b.labels.labelers
            && p.status == (if b.schema.Some? then SchemaBacked else NoSchema)
            && p.bundle == Some(BundleMetadata(b.info, source, refresh, now))
  {}

  /** A bundle is prepared exactly if the mode's need for a schema is met, its engine can be prepared in the asked
      layout, and its labels and schema can be written out. */
  lemma PreparedExactly(lib: Libraries, b: ValidatedBundle, source: Option<Endpoint>, refresh: Option<nat>,
                        mode: SchemaMode, layout: Layout, now: nat)
    ensures Prepare(lib, b, source, refresh, mode, layout, now).Ok? <==>
            && (mode.Strict? ==> b.schema.Some?)
            && lib.prepareEngine(b, layout).Ok? && b.labelsJson.Ok? && (b.schema.Some? ==> b.schema.value.json.Ok?)
  {}

  /** Why a bundle cannot be prepared: strict mode finds no schema, else the engine's error, else the labels', else the
      schema's. */
  lemma PreparationFirstFailure(lib: Libraries, b: ValidatedBundle, source: Option<Endpoint>, refresh: Option<nat>,
                                mode: SchemaMode, layout: Layout, now: nat)
    ensures var result := Prepare(lib, b, source, refresh, mode, layout, now);
            if mode.Strict? && b.schema.None? then result == Err(SchemaValidationError("no schema"))
            else if lib.prepareEngine(b, layout).Err? then result == Err(lib.prepareEngine(b, layout).error)
            else if b.labelsJson.Err? then result == Err(b.labelsJson.error)
            else b.schema.Some? && b.schema.value.json.Err? ==> result == Err(b.schema.value.json.error)
  {}

  /** Content prepared elsewhere is installed exactly if strict mode finds a schema in it and both cache mutexes are
      sound; then the store holds it with empty caches, and otherwise the content it held before. */
  lemma AppliedExactly(s: Store, p: PreparedBundle)
    ensures ApplyPrepared(s, p).1.Pass? <==>
            (s.mode.Strict? ==> p.schema.content != "") && !s.caches.rawPoisoned && !s.caches.jsonPoisoned
    ensures ApplyPrepared(s, p).1.Pass? ==>
              ApplyPrepared(s, p).0 == s.(active := p, caches := Caches([], [], false, false))
    ensures ApplyPrepared(s, p).1.Fail? ==> ApplyPrepared(s, p).0.active == s.active
    ensures s.mode.Strict? && p.schema.content == "" ==>
              ApplyPrepared(s, p) == (s, Fail(SchemaValidationError("no schema")))
  {}

  /** Accepted policy and label updates empty both caches; a schema update leaves them. */
  lemma UpdatesAndCaches(lib: Libraries, s: Store, e: Event)
    requires Step(lib, s, e).1.Pass?
    ensures e.UpdateDsl? || e.UpdateLabels? ==> Step(lib, s, e).0.caches == Caches([], [], false, false)
    ensures e.UpdateSchema? ==> Step(lib, s, e).0.caches == s.caches
  {}
}
