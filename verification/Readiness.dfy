/** The calls the server makes on the store, and what readiness says about their history. */
module Readiness {
  import opened Basics
  import opened Engines
  import opened StoreSpec
  import Strings

  /** `check_upload_auth`; a header that is not text reads as the empty string. */
  function UploadVerdict(s: Store, header: Option<string>): Outcome {
    Check(s.allowUpload, UploadNotAllowed)
    .Then(Check(s.uploadToken.Some?, UploadTokenNotSet))
    .Then(Check(header.Some? && header == s.uploadToken, InvalidUploadToken))
  }

  /** A request may upload exactly if uploads are on, a token is set and the header is that token; otherwise the first
      of the three that fails is reported. */
  lemma UploadAdmittedExactly(s: Store, header: Option<string>)
    ensures UploadVerdict(s, header).Pass? <==> s.allowUpload && s.uploadToken.Some? && header == s.uploadToken
    ensures !s.allowUpload ==> UploadVerdict(s, header) == Fail(UploadNotAllowed)
    ensures s.allowUpload && s.uploadToken.None? ==> UploadVerdict(s, header) == Fail(UploadTokenNotSet)
    ensures s.allowUpload && s.uploadToken.Some? && header != s.uploadToken ==>
              UploadVerdict(s, header) == Fail(InvalidUploadToken)
  {}

  /** The checks of both component uploads; what counts as some text differs between them. */
  function ComponentUploadVerdict(s: Store, header: Option<string>, someText: bool): Outcome {
    UploadVerdict(s, header)
    .Then(Check(!s.bundleUrlMode, BundleModeConflict))
    .Then(Check(someText, InvalidTextPayload))
  }

  datatype Call =
    | StartSource(kind: SourceKind, url: Endpoint, every: nat)
    | PollPolicies(text: Text, now: nat)
    | PollLabels(text: Text, now: nat)
    | PollSchema(text: Text, now: nat)
    | PollBundle(b: ValidatedBundle, url: Endpoint, every: nat, preparedUnder: SchemaMode, layout: Layout, now: nat)
    | PollFailed
    | UploadPolicies(header: Option<string>, text: Text, now: nat)
    | UploadSchema(header: Option<string>, text: Text, now: nat)
    | UploadBundle(header: Option<string>, b: ValidatedBundle, preparedUnder: SchemaMode, layout: Layout, now: nat)
    | Answer(form: ListForm, key: ListKey)

  /** A poll marks its source loaded only after its body was applied. */
  function ThenMark(step: (Store, Outcome), kind: SourceKind): (Store, Outcome) {
    if step.1.Pass? then (MarkLoaded(step.0, kind), Pass) else step
  }

  function Serve(lib: Libraries, s: Store, c: Call): (Store, Outcome) {
    match c
    case StartSource(kind, url, every) => (ConfigureSource(s, kind, url, every), Pass)
    case PollPolicies(text, now) => ThenMark(SetDsl(lib, s, text, None, None, now), Policies)
    case PollLabels(text, now) => ThenMark(SetLabels(lib, s, text, None, None, now), Labels)
    case PollSchema(text, now) => ThenMark(SetSchema(lib, s, text, None, None, now), Schema)
    case PollBundle(b, url, every, preparedUnder, layout, now) =>
      ThenMark(Step(lib, s, InstallBundle(b, Some(url), Some(every), preparedUnder, layout, now)), Bundle)
    case PollFailed => (s, Fail(EvaluationError("")))
    case UploadPolicies(header, text, now) =>
      var admitted := ComponentUploadVerdict(s, header, text != "");
      if admitted.Fail? then (s, admitted) else SetDsl(lib, s, text, None, None, now)
    case UploadSchema(header, text, now) =>
      var admitted := ComponentUploadVerdict(s, header, Strings.Trim(text) != "");
      if admitted.Fail? then (s, admitted) else SetSchema(lib, s, text, None, None, now)
    case UploadBundle(header, b, preparedUnder, layout, now) =>
      var admitted := UploadVerdict(s, header);
      if admitted.Fail? then (s, admitted) else Step(lib, s, InstallBundle(b, None, None, preparedUnder, layout, now))
    case Answer(form, key) => (List(lib, s, form, key).0, Pass)
  }

  // ----- Uploads ----------------------------------------------------------------------------

  predicate Uploads(c: Call) {
    c.UploadPolicies? || c.UploadSchema? || c.UploadBundle?
  }

  /** The request carried the store's upload token while uploads were on. */
  predicate CarriesToken(s: Store, header: Option<string>) {
    s.allowUpload && s.uploadToken.Some? && header == s.uploadToken
  }

  /** An upload that passes carried the token, and a component upload met a store outside bundle mode. */
  lemma PassedUploadCarriedToken(lib: Libraries, s: Store, c: Call)
    requires Uploads(c) && Serve(lib, s, c).1.Pass?
    ensures CarriesToken(s, c.header) && (!c.UploadBundle? ==> !s.bundleUrlMode)
  {}

  /** With the token, outside bundle mode and with some text, a component upload is the store's own update, without an
      origin of its own; each missing condition refuses it, in this order, and the store stays as it is. */
  lemma ComponentUploadExactly(lib: Libraries, s: Store, header: Option<string>, text: Text, now: nat)
    ensures CarriesToken(s, header) && !s.bundleUrlMode && text != "" ==>
              Serve(lib, s, UploadPolicies(header, text, now)) == SetDsl(lib, s, text, None, None, now)
    ensures CarriesToken(s, header) && !s.bundleUrlMode && Strings.Trim(text) != "" ==>
              Serve(lib, s, UploadSchema(header, text, now)) == SetSchema(lib, s, text, None, None, now)
    ensures !CarriesToken(s, header) ==>
              && Serve(lib, s, UploadPolicies(header, text, now)) == (s, UploadVerdict(s, header))
              && Serve(lib, s, UploadSchema(header, text, now)) == (s, UploadVerdict(s, header))
    ensures CarriesToken(s, header) && s.bundleUrlMode ==>
              && Serve(lib, s, UploadPolicies(header, text, now)) == (s, Fail(BundleModeConflict))
              && Serve(lib, s, UploadSchema(header, text, now)) == (s, Fail(BundleModeConflict))
    ensures CarriesToken(s, header) && !s.bundleUrlMode && text == "" ==>
              Serve(lib, s, UploadPolicies(header, text, now)) == (s, Fail(InvalidTextPayload))
    ensures CarriesToken(s, header) && !s.bundleUrlMode && Strings.Trim(text) == "" ==>
              Serve(lib, s, UploadSchema(header, text, now)) == (s, Fail(InvalidTextPayload))
  {}

  /** With the token a bundle upload is a bundle installation without an origin, in bundle mode too; without it the
      upload is refused and the store stays as it is. */
  lemma BundleUploadExactly(lib: Libraries, s: Store, header: Option<string>, b: ValidatedBundle,
                            preparedUnder: SchemaMode, layout: Layout, now: nat)
    ensures var served := Serve(lib, s, UploadBundle(header, b, preparedUnder, layout, now));
            var prepared := Prepare(lib, b, None, None, preparedUnder, layout, now);
            if !CarriesToken(s, header) then served == (s, UploadVerdict(s, header))
            else if prepared.Err? then served == (s, Fail(prepared.error))
            else served == ApplyPrepared(s, prepared.value)
  {}

  /** What a passing upload brought is what the store then holds. */
  lemma PassedUploadInstalled(lib: Libraries, s: Store, c: Call)
    requires Uploads(c) && Serve(lib, s, c).1.Pass?
    ensures var a := Serve(lib, s, c).0.active;
            match c
            case UploadPolicies(_, text, _) => text != "" && a.policies.content == text
            case UploadSchema(_, text, _) => Strings.Trim(text) != "" && a.schema.content == text
            case UploadBundle(_, b, preparedUnder, layout, now) =>
              Prepare(lib, b, None, None, preparedUnder, layout, now) == Ok(a)
            case _ => true
  {}

  /** A passing poll leaves its text, or its bundle with the poller's origin, in the store and marks its source. */
  lemma PassedPollInstalled(lib: Libraries, s: Store, c: Call)
    requires Serve(lib, s, c).1.Pass?
    ensures var s' := Serve(lib, s, c).0;
            match c
            case PollPolicies(text, _) => s'.active.policies.content == text && s'.remote.policies.loaded
            case PollLabels(text, _) => s'.active.labels.content == text && s'.remote.labels.loaded
            case PollSchema(text, _) => s'.active.schema.content == text && s'.remote.schema.loaded
            case PollBundle(b, url, every, preparedUnder, layout, now) =>
              && Prepare(lib, b, Some(url), Some(every), preparedUnder, layout, now) == Ok(s'.active)
              && s'.remote.bundle.loaded
            case PollFailed => false
            case _ => true
  {}

  function ServeAll(lib: Libraries, s: Store, calls: seq<Call>): Store {
    if calls == [] then s
    else Serve(lib, ServeAll(lib, s, calls[..|calls| - 1]), calls[|calls| - 1]).0
  }

  // ----- History ----------------------------------------------------------------------------

  predicate Starts(c: Call, kind: SourceKind) {
    c.StartSource? && c.kind == kind
  }

  predicate PollsKind(c: Call, kind: SourceKind) {
    match kind
    case Policies => c.PollPolicies?
    case Labels => c.PollLabels?
    case Schema => c.PollSchema?
    case Bundle => c.PollBundle?
  }

  predicate Configured(calls: seq<Call>, kind: SourceKind) {
    exists c :: c in calls && Starts(c, kind)
  }

  /** Since the source was last configured, a poll of it was validated and applied. */
  predicate LoadedSinceConfigured(lib: Libraries, s: Store, calls: seq<Call>, kind: SourceKind) {
    if calls == [] then false
    else
      var earlier, c := calls[..|calls| - 1], calls[|calls| - 1];
      if Starts(c, kind) then false
      else if PollsKind(c, kind) && Serve(lib, ServeAll(lib, s, earlier), c).1.Pass? then true
      else LoadedSinceConfigured(lib, s, earlier, kind)
  }

  /** The bundle fetcher configures its source before it polls. */
  predicate BundlePollsConfigured(calls: seq<Call>) {
    calls == [] ||
    (&& BundlePollsConfigured(calls[..|calls| - 1])
     && (calls[|calls| - 1].PollBundle? ==> Configured(calls[..|calls| - 1], Bundle)))
  }

  function SourceOf(a: Active, kind: SourceKind): Option<Endpoint> {
    match kind
    case Policies => a.policies.source
    case Labels => a.labels.source
    case Schema => a.schema.source
    case Bundle => None
  }

  // ----- One call ---------------------------------------------------------------------------

  /** Only configuring a source, or applying its poll, touches its load state. */
  lemma ServeRemote(lib: Libraries, s: Store, c: Call, kind: SourceKind)
    ensures var s' := Serve(lib, s, c).0;
            s'.remote.Of(kind) ==
            if Starts(c, kind) then RemoteSource(Some((c.url, c.every)), false)
            else if PollsKind(c, kind) && Serve(lib, s, c).1.Pass? then s.remote.Of(kind).(loaded := true)
            else s.remote.Of(kind)
    ensures Serve(lib, s, c).0.bundleUrlMode == (s.bundleUrlMode || Starts(c, Bundle))
  {
    match c
    case StartSource(k, _, _) =>
    case Answer(form, key) =>
    case _ =>
  }

  /** Outside bundle URL mode a component's metadata names an origin only if its source is configured. */
  ghost predicate OriginsConfigured(s: Store) {
    !s.bundleUrlMode ==> forall kind :: SourceOf(s.active, kind).Some? ==> s.remote.Of(kind).configuration.Some?
  }

  lemma ServeOrigins(lib: Libraries, s: Store, c: Call)
    requires OriginsConfigured(s)
    requires c.PollBundle? ==> s.bundleUrlMode
    ensures OriginsConfigured(Serve(lib, s, c).0)
  {
    ServeRemote(lib, s, c, Bundle);
    if !Serve(lib, s, c).0.bundleUrlMode {
      forall kind | SourceOf(Serve(lib, s, c).0.active, kind).Some?
        ensures Serve(lib, s, c).0.remote.Of(kind).configuration.Some?
      {
        ServeRemote(lib, s, c, kind);
        ServeSource(lib, s, c, kind);
      }
    }
  }

  lemma ServeSource(lib: Libraries, s: Store, c: Call, kind: SourceKind)
    requires !c.PollBundle?
    ensures SourceOf(Serve(lib, s, c).0.active, kind).Some? ==>
              SourceOf(s.active, kind).Some? || Starts(c, kind) || s.remote.Of(kind).configuration.Some?
  {
    match c
    case StartSource(k, _, _) =>
    case Answer(form, key) =>
    case _ =>
  }

  /** An applied component poll restores the configured origin and refresh in the component's metadata. */
  lemma PollRestoresOrigin(lib: Libraries, s: Store, c: Call, kind: SourceKind)
    requires !kind.Bundle? && PollsKind(c, kind) && Serve(lib, s, c).1.Pass?
    requires s.remote.Of(kind).configuration.Some?
    ensures var m := RecordOf(Serve(lib, s, c).0.active, kind);
            var (source, refresh) := s.remote.Of(kind).configuration.value;
            m.source == Some(source) && m.refresh == Some(refresh) && m.content == c.text
  {}

  function RecordOf(a: Active, kind: SourceKind): Metadata
    requires !kind.Bundle?
  {
    match kind
    case Policies => a.policies
    case Labels => a.labels
    case Schema => a.schema
  }

  /** Configuring a component source shows its origin and refresh in that component's record at once, takes its
      loaded flag back, and touches nothing else. */
  lemma ConfiguringWritesOrigin(s: Store, kind: SourceKind, other: SourceKind, url: Endpoint, every: nat)
    requires !kind.Bundle? && !other.Bundle? && other != kind
    ensures var s' := ConfigureSource(s, kind, url, every);
            && RecordOf(s'.active, kind) == RecordOf(s.active, kind).(source := Some(url), refresh := Some(every))
            && RecordOf(s'.active, other) == RecordOf(s.active, other)
            && s'.remote.Of(kind) == RemoteSource(Some((url, every)), false)
            && s'.remote.Of(other) == s.remote.Of(other) && s'.remote.bundle == s.remote.bundle
            && s'.active.engine == s.active.engine && s'.bundleUrlMode == s.bundleUrlMode
  {}

  /** Configuring the bundle source turns bundle mode on and touches no content. */
  lemma ConfiguringBundle(s: Store, other: SourceKind, url: Endpoint, every: nat)
    requires !other.Bundle?
    ensures var s' := ConfigureSource(s, Bundle, url, every);
            && s'.active == s.active && s'.bundleUrlMode
            && s'.remote.bundle == RemoteSource(Some((url, every)), false) && s'.remote.Of(other) == s.remote.Of(other)
  {}

  /** The component's record shows the origin its source was configured with. */
  ghost predicate ShowsOrigin(s: Store, kind: SourceKind)
    requires !kind.Bundle?
  {
    var configuration := s.remote.Of(kind).configuration;
    configuration.Some? ==>
      && RecordOf(s.active, kind).source == Some(configuration.value.0)
      && RecordOf(s.active, kind).refresh == Some(configuration.value.1)
  }

  lemma MarkShowsOrigin(s: Store, marked: SourceKind, kind: SourceKind)
    requires !kind.Bundle? && ShowsOrigin(s, kind)
    ensures ShowsOrigin(MarkLoaded(s, marked), kind)
  {}

  lemma UpdatesShowOrigin(lib: Libraries, s: Store, text: Text, now: nat, kind: SourceKind)
    requires !kind.Bundle? && ShowsOrigin(s, kind)
    ensures ShowsOrigin(SetDsl(lib, s, text, None, None, now).0, kind)
    ensures ShowsOrigin(SetLabels(lib, s, text, None, None, now).0, kind)
    ensures ShowsOrigin(SetSchema(lib, s, text, None, None, now).0, kind)
  {}

  lemma PollShowsOrigin(lib: Libraries, s: Store, c: Call, kind: SourceKind)
    requires !kind.Bundle? && (c.PollPolicies? || c.PollLabels? || c.PollSchema?) && ShowsOrigin(s, kind)
    ensures ShowsOrigin(Serve(lib, s, c).0, kind)
  {
    UpdatesShowOrigin(lib, s, c.text, c.now, kind);
    var polled := if c.PollPolicies? then Policies else if c.PollLabels? then Labels else Schema;
    MarkShowsOrigin(SetDsl(lib, s, c.text, None, None, c.now).0, polled, kind);
    MarkShowsOrigin(SetLabels(lib, s, c.text, None, None, c.now).0, polled, kind);
    MarkShowsOrigin(SetSchema(lib, s, c.text, None, None, c.now).0, polled, kind);
  }

  lemma ServeShowsOrigin(lib: Libraries, s: Store, c: Call, kind: SourceKind)
    requires !kind.Bundle? && !c.UploadBundle? && !c.PollBundle? && ShowsOrigin(s, kind)
    ensures ShowsOrigin(Serve(lib, s, c).0, kind)
  {
    if c.PollPolicies? || c.PollLabels? || c.PollSchema? {
      PollShowsOrigin(lib, s, c, kind);
    } else if c.UploadPolicies? || c.UploadSchema? {
      UpdatesShowOrigin(lib, s, c.text, c.now, kind);
    } else if c.StartSource? && !c.kind.Bundle? && c.kind != kind {
      ConfiguringWritesOrigin(s, c.kind, kind, c.url, c.every);
    }
  }

  /** Until a bundle is installed, a configured component always shows its configured origin, whatever was polled,
      uploaded or refused since. */
  lemma {:induction false} ConfiguredOriginShown(lib: Libraries, s: Store, calls: seq<Call>, kind: SourceKind)
    requires !kind.Bundle? && ShowsOrigin(s, kind) && forall c | c in calls :: !c.UploadBundle? && !c.PollBundle?
    ensures ShowsOrigin(ServeAll(lib, s, calls), kind)
  {
    if calls != [] {
      var n := |calls| - 1;
      ConfiguredOriginShown(lib, s, calls[..n], kind);
      ServeShowsOrigin(lib, ServeAll(lib, s, calls[..n]), calls[n], kind);
    }
  }

  // ----- Readiness --------------------------------------------------------------------------

  lemma {:induction false} RemoteEqualsHistory(lib: Libraries, s: Store, calls: seq<Call>, kind: SourceKind)
    requires s.remote.Of(kind) == NO_SOURCE
    ensures var s' := ServeAll(lib, s, calls);
            && (s'.remote.Of(kind).configuration.Some? <==> Configured(calls, kind))
            && (s'.remote.Of(kind).loaded <==> LoadedSinceConfigured(lib, s, calls, kind))
  {
    if calls != [] {
      var n := |calls| - 1;
      RemoteEqualsHistory(lib, s, calls[..n], kind);
      ServeRemote(lib, ServeAll(lib, s, calls[..n]), calls[n], kind);
      ConfiguredSplit(calls, kind);
    }
  }

  lemma ConfiguredSplit(calls: seq<Call>, kind: SourceKind)
    requires calls != []
    ensures Configured(calls, kind) <==> Configured(calls[..|calls| - 1], kind) || Starts(calls[|calls| - 1], kind)
  {}

  lemma {:induction false} ModeEqualsHistory(lib: Libraries, s: Store, calls: seq<Call>)
    requires !s.bundleUrlMode && OriginsConfigured(s) && BundlePollsConfigured(calls)
    ensures ServeAll(lib, s, calls).bundleUrlMode <==> Configured(calls, Bundle)
    ensures OriginsConfigured(ServeAll(lib, s, calls))
  {
    if calls != [] {
      var n := |calls| - 1;
      ModeEqualsHistory(lib, s, calls[..n]);
      ServeRemote(lib, ServeAll(lib, s, calls[..n]), calls[n], Bundle);
      ServeOrigins(lib, ServeAll(lib, s, calls[..n]), calls[n]);
      ConfiguredSplit(calls, Bundle);
    }
  }

  /** In any store, reached or not: in bundle mode readiness is the bundle's load; otherwise every component that is
      configured, or whose record names an origin, must have been loaded. */
  lemma ReadyExactly(s: Store)
    ensures s.bundleUrlMode ==> (SourcesLoaded(s) <==> s.remote.bundle.loaded)
    ensures !s.bundleUrlMode ==>
              (SourcesLoaded(s) <==>
               forall kind: SourceKind
                 | !kind.Bundle? && (s.remote.Of(kind).configuration.Some? || SourceOf(s.active, kind).Some?) ::
                 s.remote.Of(kind).loaded)
  {
    if !s.bundleUrlMode {
      assert s.remote.Of(Policies) == s.remote.policies && SourceOf(s.active, Policies) == s.active.policies.source;
      assert s.remote.Of(Labels) == s.remote.labels && SourceOf(s.active, Labels) == s.active.labels.source;
      assert s.remote.Of(Schema) == s.remote.schema && SourceOf(s.active, Schema) == s.active.schema.source;
    }
  }

  /** Every source that counts was loaded since it was last configured; once a bundle source is configured it alone
      counts. */
  ghost predicate CountedSourcesLoaded(lib: Libraries, s: Store, calls: seq<Call>) {
    if Configured(calls, Bundle) then LoadedSinceConfigured(lib, s, calls, Bundle)
    else forall kind :: Configured(calls, kind) ==> LoadedSinceConfigured(lib, s, calls, kind)
  }

  /** The store reports ready exactly when the history says so. */
  lemma {:induction false} ReadyEqualsHistory(lib: Libraries, s: Store, calls: seq<Call>)
    requires s == EMPTY_STORE.(mode := s.mode, allowUpload := s.allowUpload, uploadToken := s.uploadToken)
    requires BundlePollsConfigured(calls)
    ensures SourcesLoaded(ServeAll(lib, s, calls)) <==> CountedSourcesLoaded(lib, s, calls)
  {
    forall kind {
      RemoteEqualsHistory(lib, s, calls, kind);
    }
    ModeEqualsHistory(lib, s, calls);
    var s' := ServeAll(lib, s, calls);
    if !s'.bundleUrlMode {
      ReadyWithoutBundle(s');
    }
  }

  lemma ReadyWithoutBundle(s: Store)
    requires !s.bundleUrlMode && OriginsConfigured(s) && s.remote.bundle.configuration.None?
    ensures SourcesLoaded(s) <==> forall kind :: s.remote.Of(kind).configuration.Some? ==> s.remote.Of(kind).loaded
  {
    assert SourceOf(s.active, Policies).Some? ==> s.remote.Of(Policies).configuration.Some?;
    assert SourceOf(s.active, Labels).Some? ==> s.remote.Of(Labels).configuration.Some?;
    assert SourceOf(s.active, Schema).Some? ==> s.remote.Of(Schema).configuration.Some?;
    forall kind | SourcesLoaded(s) && s.remote.Of(kind).configuration.Some? ensures s.remote.Of(kind).loaded {
      match kind case Policies => case Labels => case Schema => case Bundle =>
    }
    if forall kind :: s.remote.Of(kind).configuration.Some? ==> s.remote.Of(kind).loaded {
      assert s.remote.Of(Policies) == s.remote.policies;
      assert s.remote.Of(Labels) == s.remote.labels;
      assert s.remote.Of(Schema) == s.remote.schema;
    }
  }

  /** The command line allows a bundle source only alone; then readiness is "each configured source was loaded". */
  lemma ReadyWhenEachLoaded(lib: Libraries, s: Store, calls: seq<Call>)
    requires s == EMPTY_STORE.(mode := s.mode, allowUpload := s.allowUpload, uploadToken := s.uploadToken)
    requires BundlePollsConfigured(calls)
    requires Configured(calls, Bundle) ==> forall kind :: Configured(calls, kind) ==> kind.Bundle?
    ensures SourcesLoaded(ServeAll(lib, s, calls)) <==>
            forall kind :: Configured(calls, kind) ==> LoadedSinceConfigured(lib, s, calls, kind)
  {
    ReadyEqualsHistory(lib, s, calls);
  }

  lemma HistoryExtends(lib: Libraries, s: Store, calls: seq<Call>, c: Call)
    requires !c.StartSource?
    ensures forall kind :: Configured(calls + [c], kind) == Configured(calls, kind)
    ensures forall kind ::
              LoadedSinceConfigured(lib, s, calls, kind) ==> LoadedSinceConfigured(lib, s, calls + [c], kind)
    ensures (forall kind :: !PollsKind(c, kind)) ==>
              forall kind ::
                LoadedSinceConfigured(lib, s, calls + [c], kind) == LoadedSinceConfigured(lib, s, calls, kind)
  {}

  predicate NeitherStartsNorPolls(c: Call) {
    c.UploadPolicies? || c.UploadSchema? || c.UploadBundle? || c.PollFailed? || c.Answer?
  }

  lemma CountedUnchanged(lib: Libraries, s: Store, calls: seq<Call>, c: Call)
    requires NeitherStartsNorPolls(c)
    ensures CountedSourcesLoaded(lib, s, calls + [c]) == CountedSourcesLoaded(lib, s, calls)
  {
    HistoryExtends(lib, s, calls, c);
    assert Configured(calls + [c], Bundle) == Configured(calls, Bundle);
    forall kind ensures (Configured(calls + [c], kind) ==> LoadedSinceConfigured(lib, s, calls + [c], kind))
                        == (Configured(calls, kind) ==> LoadedSinceConfigured(lib, s, calls, kind)) {
      assert !PollsKind(c, kind);
    }
  }

  lemma PollsStayConfigured(calls: seq<Call>, c: Call)
    requires BundlePollsConfigured(calls) && NeitherStartsNorPolls(c)
    ensures BundlePollsConfigured(calls + [c])
  {}

  /** Uploads, failed polls and listings neither create readiness nor take it away. */
  lemma UploadsKeepReadiness(lib: Libraries, s: Store, calls: seq<Call>, c: Call)
    requires s == EMPTY_STORE.(mode := s.mode, allowUpload := s.allowUpload, uploadToken := s.uploadToken)
    requires BundlePollsConfigured(calls)
    requires NeitherStartsNorPolls(c)
    ensures SourcesLoaded(ServeAll(lib, s, calls + [c])) == SourcesLoaded(ServeAll(lib, s, calls))
  {
    PollsStayConfigured(calls, c);
    CountedUnchanged(lib, s, calls, c);
    ReadyEqualsHistory(lib, s, calls);
    ReadyEqualsHistory(lib, s, calls + [c]);
  }

  /** Only configuring a source can revoke readiness: a failed refresh never does. */
  lemma OnlyConfiguringRevokes(lib: Libraries, s: Store, calls: seq<Call>, c: Call)
    requires s == EMPTY_STORE.(mode := s.mode, allowUpload := s.allowUpload, uploadToken := s.uploadToken)
    requires BundlePollsConfigured(calls + [c])
    requires SourcesLoaded(ServeAll(lib, s, calls)) && !SourcesLoaded(ServeAll(lib, s, calls + [c]))
    ensures c.StartSource?
  {
    assert (calls + [c])[..|calls|] == calls;
    if !c.StartSource? {
      HistoryExtends(lib, s, calls, c);
      ReadyEqualsHistory(lib, s, calls);
      ReadyEqualsHistory(lib, s, calls + [c]);
      assert false;
    }
  }
}
