/**
 * The code this repository calls but does not contain: Cedar, the policy engine, the label
 * and bundle libraries and SHA-256.  Each is a deterministic function in the record
 * `Libraries`; every theorem is stated for all such records, and a fact one of these
 * libraries must provide is a named predicate a theorem requires.
 *
 * An engine is described by what it was built from.
 */
module Engines {
  import opened Basics

  type Text = string
  type Byte = x: int | 0 <= x < 256
  type Bytes = seq<Byte>
  type Digest = string
  type Endpoint = string

  datatype ServiceError =
    | CompileError(message: string)
    | SchemaValidationError(message: string)
    | EvaluationError(message: string)
    | ContextValidationError(message: string)
    | ListPoliciesError(message: string)
    | ValidationError(message: string)
    | InvalidBundle(message: string)
    | InvalidJsonPayload(message: string)
    | InvalidTextPayload
    | UploadNotAllowed
    | UploadTokenNotSet
    | InvalidUploadToken
    | BundleModeConflict
    | BundleTooLarge

  datatype Labeler = Labeler(target: string, definition: string)

  datatype LabelSet = LabelSet(rules: nat, labelers: seq<Labeler>)

  datatype Registry = Registry(version: Digest, labelers: seq<Labeler>)

  datatype Layout = Monolithic | BundleModules

  datatype Engine = Engine(policies: Text, schema: Option<Text>, registry: Option<Registry>, layout: Layout)

  datatype ListKey = ListKey(user: string, groups: seq<string>, namespaces: seq<string>)

  /** The two listing forms, one cache each. */
  datatype ListForm = RawForm | JsonForm

  type Listing = string

  datatype SchemaDocument = SchemaDocument(entries: nat, json: Result<Text, ServiceError>)

  datatype BundleInfo = BundleInfo(
    formatVersion: nat, bundleId: string, archiveSha256: Digest,
    compressedSize: nat, moduleCount: nat, signed: bool, signingKeyId: Option<string>)

  /** A bundle that passed archive, signature and content validation. */
  datatype ValidatedBundle = ValidatedBundle(
    policies: Text, policyIds: nat,
    labels: LabelSet, labelsJson: Result<Text, ServiceError>,
    schema: Option<SchemaDocument>, info: BundleInfo)

  datatype AttrValue = Set(elements: seq<AttrValue>) | Scalar(text: string)

  type Context = map<string, AttrValue>

  datatype Decision = Decision(allowed: bool, version: string, detail: string)

  datatype Libraries = Libraries(
    digest: Text -> Digest,
    policyEntries: Text -> nat,
    schemaParses: Text -> bool,
    schemaEntries: Text -> Result<nat, ServiceError>,
    validates: (Text, Text) -> Verdict<ServiceError>,
    compiles: (Text, Option<Text>) -> Verdict<ServiceError>,
    registers: Registry -> Verdict<ServiceError>,
    parseLabels: Text -> Result<LabelSet, ServiceError>,
    labelsFit: (Text, Text) -> Verdict<ServiceError>,
    prepareEngine: (ValidatedBundle, Layout) -> Result<Engine, ServiceError>,
    list: (ListForm, Engine, ListKey) -> Result<Listing, ServiceError>,
    version: Engine -> string,
    evaluate: (Engine, string, Option<Context>) -> Result<Decision, string>,
    contextBytes: Context -> Result<nat, ServiceError>,
    display: ServiceError -> string,
    sha256: Bytes -> Bytes,
    openArchive: Bytes -> Result<ValidatedBundle, ServiceError>)

  /** The empty document is neither a schema nor a label set. */
  ghost predicate EmptyTextIsNoDocument(lib: Libraries) {
    && !lib.schemaParses("")
    && lib.parseLabels("").Err?
  }

  /** Listing depends on the policy text alone: not on schema, labels or engine layout. */
  ghost predicate ListsByPolicyText(lib: Libraries) {
    forall form, e: Engine, e': Engine, key ::
      e.policies == e'.policies ==> lib.list(form, e, key) == lib.list(form, e', key)
  }

  /** No two archives share a digest. */
  ghost predicate DigestsDistinguish(lib: Libraries) {
    forall b: Bytes, b': Bytes :: lib.sha256(b) == lib.sha256(b') ==> b == b'
  }

  /** A decision carries the version of the engine whose session made it. */
  ghost predicate DecisionsCarryVersion(lib: Libraries) {
    forall engine, request, context ::
      lib.evaluate(engine, request, context).Ok? ==>
        lib.evaluate(engine, request, context).value.version == lib.version(engine)
  }

  /** What bundle validation promises about a bundle's parts and the engine prepared from them. */
  ghost predicate SoundBundle(lib: Libraries, b: ValidatedBundle) {
    && (b.labelsJson.Ok? ==>
          && b.labelsJson.value != ""
          && lib.parseLabels(b.labelsJson.value).Ok?
          && lib.parseLabels(b.labelsJson.value).value.labelers == b.labels.labelers)
    && (b.schema.Some? && b.schema.value.json.Ok? ==>
          && b.schema.value.json.value != ""
          && lib.schemaParses(b.schema.value.json.value)
          && lib.validates(b.policies, b.schema.value.json.value).Pass?
          && (b.labelsJson.Ok? ==> lib.labelsFit(b.labelsJson.value, b.schema.value.json.value).Pass?))
    && (forall layout ::
          lib.prepareEngine(b, layout).Ok? && b.labelsJson.Ok? && (b.schema.Some? ==> b.schema.value.json.Ok?) ==>
          lib.prepareEngine(b, layout).value ==
          Engine(b.policies,
                 if b.schema.Some? then Some(b.schema.value.json.value) else None,
                 if b.labels.labelers == [] then None
                 else Some(Registry(lib.digest(b.labelsJson.value), b.labels.labelers)),
                 layout))
  }
}
